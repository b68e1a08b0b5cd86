/**
 The five-field cron evaluator: what an expression denotes, which minutes match it, and
 the minute-by-minute search for the next match. Time is in nanoseconds since the Unix
 epoch; a minute is its index since the epoch.
 */
module Cron {
  import opened Prelude
  import opened Text
  import opened Calendar

  datatype CronError =
    | FieldCount(count: nat)
    | InvalidStep(chunk: string)
    | ZeroStep(chunk: string)
    | InvalidRangeStart(chunk: string)
    | InvalidRangeEnd(chunk: string)
    | InvalidValue(chunk: string)
    | NoValues(field: string)
    | NoOccurrence

  datatype Chunk = Any | Every(step: nat) | Range(from: nat, to: nat) | Exactly(value: nat)

  datatype CronSpec = CronSpec(
    minutes: seq<nat>, hours: seq<nat>, doms: seq<nat>, months: seq<nat>, dows: seq<nat>,
    domUnrestricted: bool, dowUnrestricted: bool)

  // ----- the meaning of one field -----

  function Classify(chunk: string): (r: Result<Chunk, CronError>)
    ensures r.Ok? && r.value.Every? ==> r.value.step > 0
  {
    if chunk == "*" then Ok(Any)
    else if "*/" <= chunk then
      match ParseU32(chunk[2..])
      case None => Err(InvalidStep(chunk))
      case Some(0) => Err(ZeroStep(chunk))
      case Some(n) => Ok(Every(n))
    else if '-' in chunk then
      var i := IndexOf(chunk, '-');
      match ParseU32(chunk[..i])
      case None => Err(InvalidRangeStart(chunk))
      case Some(a) =>
        match ParseU32(chunk[i + 1..])
        case None => Err(InvalidRangeEnd(chunk))
        case Some(b) => Ok(Range(a, b))
    else
      match ParseU32(chunk)
      case None => Err(InvalidValue(chunk))
      case Some(v) => Ok(Exactly(v))
  }

  /** How a chunk is written, with numbers in decimal. */
  function Written(chunk: Chunk): string {
    match chunk
    case Any => "*"
    case Every(step) => "*/" + Numeral(step)
    case Range(a, b) => Numeral(a) + "-" + Numeral(b)
    case Exactly(v) => Numeral(v)
  }

  /** The error of a chunk whose numbers do not fit, or whose step is zero. */
  function WrittenError(chunk: Chunk): Option<CronError> {
    match chunk
    case Any => None
    case Every(step) =>
      if step > U32_MAX then Some(InvalidStep(Written(chunk)))
      else if step == 0 then Some(ZeroStep(Written(chunk)))
      else None
    case Range(a, b) =>
      if a > U32_MAX then Some(InvalidRangeStart(Written(chunk)))
      else if b > U32_MAX then Some(InvalidRangeEnd(Written(chunk)))
      else None
    case Exactly(v) => if v > U32_MAX then Some(InvalidValue(Written(chunk))) else None
  }

  lemma {:induction false} NumeralStart(n: nat)
    ensures Numeral(n)[0] != '*' && '-' !in Numeral(n)
  {
    assert Numeral(n)[0] in Numeral(n) && IsDigit(Numeral(n)[0]);
  }

  /** Every written chunk is read back as it was meant, or rejected for the number that is out of range. */
  lemma {:induction false} ClassifyReadsWritten(chunk: Chunk)
    ensures Classify(Written(chunk)) ==
      match WrittenError(chunk)
      case None => Ok(chunk)
      case Some(e) => Err(e)
  {
    hide Numeral, ParseU32;
    match chunk
    case Any =>
    case Every(step) =>
      NumeralParses(step);
      assert ("*/" + Numeral(step))[2..] == Numeral(step);
    case Range(a, b) =>
      NumeralParses(a);
      NumeralParses(b);
      RangeParts(a, b);
    case Exactly(v) =>
      NumeralParses(v);
      NumeralStart(v);
  }

  lemma {:induction false} RangeParts(a: nat, b: nat)
    ensures var chunk := Numeral(a) + "-" + Numeral(b);
      && chunk != "*" && !("*/" <= chunk) && '-' in chunk && IndexOf(chunk, '-') == |Numeral(a)|
      && chunk[..IndexOf(chunk, '-')] == Numeral(a) && chunk[IndexOf(chunk, '-') + 1..] == Numeral(b)
  {
    var chunk := Numeral(a) + "-" + Numeral(b);
    NumeralStart(a);
    IndexOfAppend(Numeral(a), "-" + Numeral(b), '-');
    assert chunk == Numeral(a) + ("-" + Numeral(b));
    assert chunk[0] == Numeral(a)[0];
    assert chunk[|Numeral(a)|] == '-';
  }

  /** The chunk is one of the four forms, with numbers that fit 32 bits. */
  ghost predicate Spells(chunk: string, c: Chunk) {
    match c
    case Any => chunk == "*"
    case Every(step) => 0 < step <= U32_MAX && "*/" <= chunk && Writes(chunk[2..], step)
    case Range(a, b) =>
      a <= U32_MAX && b <= U32_MAX &&
      exists i :: 0 <= i < |chunk| && chunk[i] == '-' && Writes(chunk[..i], a) && Writes(chunk[i + 1..], b)
    case Exactly(v) => v <= U32_MAX && Writes(chunk, v)
  }

  /** A text that writes a number starts with a plus sign or a digit, and no other character but digits follows. */
  lemma {:induction false} WrittenCharacters(s: string, n: nat)
    requires Writes(s, n)
    ensures s != "" && s[0] != '*' && '-' !in s
  {
    var k: nat :| s == Zeros(k) + Numeral(n) || s == "+" + (Zeros(k) + Numeral(n));
    var digits := Zeros(k) + Numeral(n);
    assert forall c <- digits :: IsDigit(c);
    assert digits[0] in digits && '-' !in digits;
  }

  /** A chunk is read as one of the four forms exactly when it is written so; otherwise its error names the chunk. */
  lemma {:induction false} ClassifyExactly(chunk: string, c: Chunk)
    ensures Classify(chunk) == Ok(c) <==> Spells(chunk, c)
  {
    hide Numeral, ParseU32, Writes, IndexOf;
    match c
    case Any =>
    case Every(step) =>
      if "*/" <= chunk { ParsesExactly(chunk[2..], step); }
    case Exactly(v) =>
      ParsesExactly(chunk, v);
      if Writes(chunk, v) { WrittenCharacters(chunk, v); }
    case Range(a, b) => RangeExactly(chunk, a, b);
  }

  lemma {:induction false} RangeExactly(chunk: string, a: nat, b: nat)
    ensures Classify(chunk) == Ok(Range(a, b)) <==> Spells(chunk, Range(a, b))
  {
    hide Numeral, ParseU32, Writes;
    if Classify(chunk) == Ok(Range(a, b)) {
      var i := IndexOf(chunk, '-');
      ParsesExactly(chunk[..i], a);
      ParsesExactly(chunk[i + 1..], b);
    }
    if Spells(chunk, Range(a, b)) {
      var i :| 0 <= i < |chunk| && chunk[i] == '-' && Writes(chunk[..i], a) && Writes(chunk[i + 1..], b);
      WrittenCharacters(chunk[..i], a);
      assert chunk[..i][0] == chunk[0];
      FirstDash(chunk, i);
      ParsesExactly(chunk[..i], a);
      ParsesExactly(chunk[i + 1..], b);
    }
  }

  lemma {:induction false} FirstDash(chunk: string, i: nat)
    requires i < |chunk| && chunk[i] == '-' && '-' !in chunk[..i]
    ensures IndexOf(chunk, '-') == i
  {
    IndexOfAppend(chunk[..i], chunk[i..], '-');
    assert chunk == chunk[..i] + chunk[i..];
  }

  ghost predicate IsNumber(s: string) {
    exists n: nat :: n <= U32_MAX && Writes(s, n)
  }

  lemma {:induction false} NumberIsRead(s: string)
    ensures ParseU32(s).Some? <==> IsNumber(s)
  {
    hide ParseU32, Writes;
    if ParseU32(s).Some? { ParsesExactly(s, ParseU32(s).value); }
    if n: nat :| n <= U32_MAX && Writes(s, n) { ParsesExactly(s, n); }
  }

  /** Which error a chunk that spells nothing gets. */
  lemma {:induction false} ClassifyError(chunk: string)
    ensures Classify(chunk).Err? ==>
              Classify(chunk).error ==
              if "*/" <= chunk then (if Writes(chunk[2..], 0) then ZeroStep(chunk) else InvalidStep(chunk))
              else if '-' !in chunk then InvalidValue(chunk)
              else if IsNumber(chunk[..IndexOf(chunk, '-')]) then InvalidRangeEnd(chunk)
              else InvalidRangeStart(chunk)
  {
    hide Numeral, Writes;
    if "*/" <= chunk {
      ParsesExactly(chunk[2..], 0);
    } else if '-' in chunk {
      NumberIsRead(chunk[..IndexOf(chunk, '-')]);
      hide ParseU32, IsNumber;
    }
  }

  /** Whether the chunk selects `v` in a field that ranges over `lo..=hi`. */
  predicate Denotes(chunk: string, lo: nat, hi: nat, v: nat) {
    lo <= v <= hi &&
    match Classify(chunk)
    case Err(_) => false
    case Ok(Any) => true
    case Ok(Every(step)) => step > 0 && (v - lo) % step == 0
    case Ok(Range(a, b)) => a <= v <= b
    case Ok(Exactly(n)) => v == n
  }

  predicate Selected(chunks: seq<string>, lo: nat, hi: nat, v: nat) {
    exists chunk <- chunks :: Denotes(chunk, lo, hi, v)
  }

  function FirstError(chunks: seq<string>): (e: Option<CronError>)
    ensures e.None? <==> forall chunk <- chunks :: Classify(chunk).Ok?
  {
    if chunks == [] then None
    else match Classify(chunks[0])
      case Err(e) => Some(e)
      case Ok(_) => FirstError(chunks[1..])
  }

  ghost predicate Ascending(s: seq<nat>) {
    forall i, j | 0 <= i < j < |s| :: s[i] < s[j]
  }

  lemma {:induction false} AscendingPrepend(x: nat, s: seq<nat>)
    requires Ascending(s) && forall v :: v in s ==> x < v
    ensures Ascending([x] + s)
  {
    forall j | 0 <= j < |s| ensures x < s[j] { assert s[j] in s; }
  }

  /** The selected values that are at least `from`, in ascending order. */
  function SelectedFrom(chunks: seq<string>, lo: nat, hi: nat, from: nat): (vs: seq<nat>)
    ensures forall v :: v in vs <==> from <= v && Selected(chunks, lo, hi, v)
    ensures Ascending(vs)
    decreases hi + 1 - from
  {
    if from > hi then []
    else
      var rest := SelectedFrom(chunks, lo, hi, from + 1);
      assert forall v :: v in rest ==> from < v;
      AscendingPrepend(from, rest);
      if Selected(chunks, lo, hi, from) then [from] + rest else rest
  }

  /** A field denotes the ascending list of the values its chunks select, if every chunk parses and there is one. */
  function FieldSpec(raw: string, lo: nat, hi: nat): (r: Result<seq<nat>, CronError>)
    ensures r.Ok? ==> r.value != [] && Ascending(r.value)
    ensures r.Ok? ==> forall v :: v in r.value <==> Selected(Split(raw, ','), lo, hi, v)
    ensures r.Ok? <==> (forall chunk <- Split(raw, ',') :: Classify(chunk).Ok?)
                       && exists v :: Selected(Split(raw, ','), lo, hi, v)
  {
    var chunks := Split(raw, ',');
    match FirstError(chunks)
    case Some(e) => Err(e)
    case None =>
      var vs := SelectedFrom(chunks, lo, hi, lo);
      assert forall v :: Selected(chunks, lo, hi, v) ==> lo <= v;
      if vs == [] then Err(NoValues(raw)) else
      assert vs[0] in vs;
      Ok(vs)
  }

  /** Two ascending lists of the same values are the same list. */
  lemma {:induction false} AscendingUnique(a: seq<nat>, b: seq<nat>)
    requires Ascending(a) && Ascending(b)
    requires forall v :: v in a <==> v in b
    ensures a == b
  {
    if a != [] { assert a[0] in b; }
    if b != [] { assert b[0] in a; }
    if a == [] {
    } else {
      assert a[0] == b[0];
      forall v ensures v in a[1..] <==> v in b[1..] {
        if v in a[1..] { assert v in a && v > a[0]; assert v in b; }
        if v in b[1..] { assert v in b && v > b[0]; assert v in a; }
      }
      AscendingUnique(a[1..], b[1..]);
      assert a == [a[0]] + a[1..] && b == [b[0]] + b[1..];
    }
  }

  // ----- parse_field: push every selected value, sort, drop duplicates -----

  ghost predicate Sorted(s: seq<nat>) {
    forall i, j | 0 <= i < j < |s| :: s[i] <= s[j]
  }

  lemma {:induction false} InsertKeepsSorted(s: seq<nat>, k: nat, x: nat)
    requires Sorted(s) && k <= |s|
    requires (k > 0 ==> s[k - 1] <= x) && (k < |s| ==> x <= s[k])
    ensures Sorted(s[..k] + [x] + s[k..])
  {
    var r := s[..k] + [x] + s[k..];
    forall i, j | 0 <= i < j < |r| ensures r[i] <= r[j] {
      assert r[i] == (if i < k then s[i] else if i == k then x else s[i - 1]);
      assert r[j] == (if j < k then s[j] else if j == k then x else s[j - 1]);
    }
  }

  lemma {:induction false} InsertAddsOne(s: seq<nat>, k: nat, x: nat)
    requires k <= |s|
    ensures multiset(s[..k] + [x] + s[k..]) == multiset(s) + multiset{x}
  {
    assert s == s[..k] + s[k..];
  }

  method SortUnstable(s: seq<nat>) returns (r: seq<nat>)
    ensures Sorted(r)
    ensures multiset(r) == multiset(s)
  {
    r := [];
    for n := 0 to |s|
      invariant Sorted(r)
      invariant multiset(r) == multiset(s[..n])
    {
      var k := |r|;
      while k > 0 && r[k - 1] > s[n]
        invariant 0 <= k <= |r|
        invariant k < |r| ==> r[k] > s[n]
      {
        k := k - 1;
      }
      assert s[..n + 1] == s[..n] + [s[n]];
      InsertKeepsSorted(r, k, s[n]);
      InsertAddsOne(r, k, s[n]);
      r := r[..k] + [s[n]] + r[k..];
    }
    assert s[..|s|] == s;
  }

  method Dedup(s: seq<nat>) returns (r: seq<nat>)
    requires Sorted(s)
    ensures Ascending(r)
    ensures forall v :: v in r <==> v in s
  {
    r := [];
    for n := 0 to |s|
      invariant Ascending(r)
      invariant forall v :: v in r <==> v in s[..n]
      invariant if n == 0 then r == [] else r != [] && r[|r| - 1] == s[n - 1]
    {
      assert s[..n + 1] == s[..n] + [s[n]];
      if r == [] || r[|r| - 1] != s[n] {
        assert forall i | 0 <= i < |r| :: r[i] <= r[|r| - 1] < s[n];
        r := r + [s[n]];
      }
    }
    assert s[..|s|] == s;
  }

  /** The values one chunk pushes, in push order. */
  method PushChunk(chunk: string, lo: nat, hi: nat) returns (r: Result<seq<nat>, CronError>)
    ensures r.Err? <==> Classify(chunk).Err?
    ensures r.Err? ==> r.error == Classify(chunk).error
    ensures r.Ok? ==> forall v :: v in r.value <==> Denotes(chunk, lo, hi, v)
  {
    hide Classify;
    var out: seq<nat> := [];
    match Classify(chunk) {
    case Err(e) =>
      return Err(e);
    case Ok(Any) =>
      var v := lo;
      while v <= hi
        invariant forall u :: u in out <==> lo <= u < v && u <= hi
        decreases hi + 1 - v
      {
        out := out + [v];
        v := v + 1;
      }
    case Ok(Every(step)) =>
      var v := lo;
      ghost var k := 0;
      while v <= hi
        invariant v == lo + k * step && k >= 0
        invariant forall u :: u in out <==> lo <= u < v && u <= hi && (u - lo) % step == 0
        decreases hi + 1 - v
      {
        MultiplesInStep(v - lo, k, step);
        out := out + [v];
        v := v + step;
        k := k + 1;
      }
    case Ok(Range(a, b)) =>
      var v := a;
      while v <= b
        invariant a <= b ==> a <= v <= b + 1
        invariant forall u :: u in out <==> a <= u < v && u <= b && lo <= u <= hi
        decreases b + 1 - v
      {
        if lo <= v <= hi { out := out + [v]; }
        v := v + 1;
      }
    case Ok(Exactly(v)) =>
      if lo <= v <= hi { out := out + [v]; }
    }
    return Ok(out);
  }

  /** Between one multiple of `step` and the next there is no other. */
  lemma {:induction false} MultiplesInStep(offset: int, k: int, step: int)
    requires step > 0 && offset == k * step
    ensures offset % step == 0
    ensures forall u | offset < u < offset + step :: u % step != 0
  {
    QuotientIs(offset, k, 0, step);
    forall u | offset < u < offset + step ensures u % step != 0 {
      QuotientIs(u, k, u - offset, step);
    }
  }

  lemma {:induction false} SameValues(s: seq<nat>, t: seq<nat>)
    requires multiset(s) == multiset(t)
    ensures forall v :: v in s <==> v in t
  {
    forall v ensures v in s <==> v in t {
      assert v in s <==> v in multiset(s);
      assert v in t <==> v in multiset(t);
    }
  }

  lemma {:induction false} SelectedAppend(chunks: seq<string>, chunk: string, lo: nat, hi: nat)
    ensures forall v :: Selected(chunks + [chunk], lo, hi, v) <==>
              Selected(chunks, lo, hi, v) || Denotes(chunk, lo, hi, v)
  {
  }

  method ParseField(raw: string, lo: nat, hi: nat) returns (r: Result<seq<nat>, CronError>)
    ensures r == FieldSpec(raw, lo, hi)
  {
    var chunks := Split(raw, ',');
    var out: seq<nat> := [];
    for i := 0 to |chunks|
      invariant forall chunk <- chunks[..i] :: Classify(chunk).Ok?
      invariant FirstError(chunks) == FirstError(chunks[i..])
      invariant forall v :: v in out <==> Selected(chunks[..i], lo, hi, v)
    {
      var pushed := PushChunk(chunks[i], lo, hi);
      assert chunks[i..][0] == chunks[i] && chunks[i..][1..] == chunks[i + 1..];
      if pushed.Err? { return Err(pushed.error); }
      assert chunks[..i + 1] == chunks[..i] + [chunks[i]];
      SelectedAppend(chunks[..i], chunks[i], lo, hi);
      out := out + pushed.value;
    }
    assert chunks[..|chunks|] == chunks;
    var sorted := SortUnstable(out);
    assert forall v :: v in sorted <==> v in out by { SameValues(sorted, out); }
    var vs := Dedup(sorted);
    AscendingUnique(vs, SelectedFrom(chunks, lo, hi, lo));
    if vs == [] { return Err(NoValues(raw)); }
    return Ok(vs);
  }

  /** A number outside the field's range selects nothing; it is not clamped to the nearest value. */
  lemma {:induction false} OutOfRangeIsDropped(raw: string, lo: nat, hi: nat, n: nat)
    requires ',' !in raw && Classify(raw) == Ok(Exactly(n))
    ensures FieldSpec(raw, lo, hi) == if lo <= n <= hi then Ok([n]) else Err(NoValues(raw))
  {
    SplitFirst(raw, "", ',');
    assert Split(raw, ',') == [raw];
    assert forall v: nat :: Selected([raw], lo, hi, v) <==> lo <= v <= hi && v == n by {
      assert raw in [raw];
    }
    var r := FieldSpec(raw, lo, hi);
    if lo <= n <= hi {
      assert Selected(Split(raw, ','), lo, hi, n);
      AscendingUnique(r.value, [n]);
    }
  }

  // ----- parse -----

  predicate IsUnrestricted(raw: string) {
    forall chunk <- Split(raw, ',') :: chunk == "*"
  }

  function Parse(expr: string): Result<CronSpec, CronError> {
    var parts := SplitWhitespace(expr);
    if |parts| != 5 then Err(FieldCount(|parts|)) else
    match FieldSpec(parts[0], 0, 59) case Err(e) => Err(e) case Ok(minutes) =>
    match FieldSpec(parts[1], 0, 23) case Err(e) => Err(e) case Ok(hours) =>
    match FieldSpec(parts[2], 1, 31) case Err(e) => Err(e) case Ok(doms) =>
    match FieldSpec(parts[3], 1, 12) case Err(e) => Err(e) case Ok(months) =>
    match FieldSpec(parts[4], 0, 6) case Err(e) => Err(e) case Ok(dows) =>
    Ok(CronSpec(minutes, hours, doms, months, dows, IsUnrestricted(parts[2]), IsUnrestricted(parts[4])))
  }

  method ParseExpression(expr: string) returns (r: Result<CronSpec, CronError>)
    ensures r == Parse(expr)
    ensures forall words, gaps | IsSpacing(words, gaps) && expr == Spaced(words, gaps) ::
              if |words| == 5 then ReadsInOrder(words, r) else r == Err(FieldCount(|words|))
  {
    forall words, gaps | IsSpacing(words, gaps) && expr == Spaced(words, gaps)
      ensures if |words| == 5 then ReadsInOrder(words, Parse(expr)) else Parse(expr) == Err(FieldCount(|words|))
    {
      ParseReadsWords(words, gaps);
    }
    hide SplitWhitespace, FieldSpec, IsUnrestricted, IsSpacing, Spaced, ReadsInOrder;
    var parts := SplitWhitespace(expr);
    if |parts| != 5 { return Err(FieldCount(|parts|)); }
    var domUnrestricted, dowUnrestricted := IsUnrestricted(parts[2]), IsUnrestricted(parts[4]);
    var minutes := ParseField(parts[0], 0, 59);
    if minutes.Err? { return Err(minutes.error); }
    var hours := ParseField(parts[1], 0, 23);
    if hours.Err? { return Err(hours.error); }
    var doms := ParseField(parts[2], 1, 31);
    if doms.Err? { return Err(doms.error); }
    var months := ParseField(parts[3], 1, 12);
    if months.Err? { return Err(months.error); }
    var dows := ParseField(parts[4], 0, 6);
    if dows.Err? { return Err(dows.error); }
    return Ok(CronSpec(minutes.value, hours.value, doms.value, months.value, dows.value,
                       domUnrestricted, dowUnrestricted));
  }

  ghost predicate FieldWithin(vs: seq<nat>, lo: nat, hi: nat) {
    vs != [] && Ascending(vs) && forall v <- vs :: lo <= v <= hi
  }

  /** What every parsed spec satisfies, whatever the text was. */
  ghost predicate WellFormed(spec: CronSpec) {
    && FieldWithin(spec.minutes, 0, 59) && FieldWithin(spec.hours, 0, 23)
    && FieldWithin(spec.doms, 1, 31) && FieldWithin(spec.months, 1, 12) && FieldWithin(spec.dows, 0, 6)
    && (spec.domUnrestricted ==> forall v :: 1 <= v <= 31 ==> v in spec.doms)
    && (spec.dowUnrestricted ==> forall v :: 0 <= v <= 6 ==> v in spec.dows)
  }

  lemma {:induction false} UnrestrictedSelectsAll(raw: string, lo: nat, hi: nat)
    requires IsUnrestricted(raw)
    ensures forall v: nat | lo <= v <= hi :: Selected(Split(raw, ','), lo, hi, v)
  {
    var chunks := Split(raw, ',');
    assert chunks[0] in chunks;
    assert chunks[0] == "*" && Classify("*") == Ok(Any);
  }

  lemma {:induction false} FieldSpecWithin(raw: string, lo: nat, hi: nat)
    requires FieldSpec(raw, lo, hi).Ok?
    ensures FieldWithin(FieldSpec(raw, lo, hi).value, lo, hi)
    ensures IsUnrestricted(raw) ==> forall v: nat :: lo <= v <= hi ==> v in FieldSpec(raw, lo, hi).value
  {
    if IsUnrestricted(raw) { UnrestrictedSelectsAll(raw, lo, hi); }
  }

  predicate ReadsFields(parts: seq<string>, spec: CronSpec) {
    && |parts| == 5
    && FieldSpec(parts[0], 0, 59) == Ok(spec.minutes) && FieldSpec(parts[1], 0, 23) == Ok(spec.hours)
    && FieldSpec(parts[2], 1, 31) == Ok(spec.doms) && FieldSpec(parts[3], 1, 12) == Ok(spec.months)
    && FieldSpec(parts[4], 0, 6) == Ok(spec.dows)
    && spec.domUnrestricted == IsUnrestricted(parts[2]) && spec.dowUnrestricted == IsUnrestricted(parts[4])
  }

  lemma {:induction false} ParseReadsFields(expr: string)
    ensures Parse(expr).Ok? ==> ReadsFields(SplitWhitespace(expr), Parse(expr).value)
  {
    hide SplitWhitespace, IsUnrestricted;
  }

  /** Whatever the text, a parsed spec is well formed. */
  lemma {:induction false} ParsedIsWellFormed(expr: string)
    ensures Parse(expr).Ok? ==> WellFormed(Parse(expr).value)
  {
    ParseReadsFields(expr);
    hide Parse, SplitWhitespace, FieldSpec, FieldWithin, IsUnrestricted;
    if Parse(expr).Ok? {
      var parts := SplitWhitespace(expr);
      FieldSpecWithin(parts[0], 0, 59);
      FieldSpecWithin(parts[1], 0, 23);
      FieldSpecWithin(parts[2], 1, 31);
      FieldSpecWithin(parts[3], 1, 12);
      FieldSpecWithin(parts[4], 0, 6);
    }
  }

  const LOWEST: seq<nat> := [0, 0, 1, 1, 0]
  const HIGHEST: seq<nat> := [59, 23, 31, 12, 6]

  /** The k-th of five words read as the k-th field: minute, hour, day of month, month, day of week. */
  function FieldAt(words: seq<string>, k: nat): Result<seq<nat>, CronError>
    requires |words| == 5 && k < 5
  {
    FieldSpec(words[k], LOWEST[k], HIGHEST[k])
  }

  /** The outcome of parsing five words: all five fields in order, or the error of the first that fails. */
  ghost predicate ReadsInOrder(words: seq<string>, r: Result<CronSpec, CronError>)
    requires |words| == 5
  {
    match r
    case Ok(spec) =>
      && FieldAt(words, 0) == Ok(spec.minutes) && FieldAt(words, 1) == Ok(spec.hours)
      && FieldAt(words, 2) == Ok(spec.doms) && FieldAt(words, 3) == Ok(spec.months)
      && FieldAt(words, 4) == Ok(spec.dows)
      && (spec.domUnrestricted <==> forall chunk <- Split(words[2], ',') :: chunk == "*")
      && (spec.dowUnrestricted <==> forall chunk <- Split(words[4], ',') :: chunk == "*")
    case Err(e) =>
      exists k :: 0 <= k < 5 && FieldAt(words, k) == Err(e) && forall j | 0 <= j < k :: FieldAt(words, j).Ok?
  }

  /** Parsing five words is taking the fields one after the other. */
  lemma {:induction false} ParseOfWords(expr: string, words: seq<string>)
    requires SplitWhitespace(expr) == words && |words| == 5
    ensures forall k | 0 <= k < 5 && FieldAt(words, k).Err? && (forall j | 0 <= j < k :: FieldAt(words, j).Ok?) ::
              Parse(expr) == Err(FieldAt(words, k).error)
    ensures (forall k | 0 <= k < 5 :: FieldAt(words, k).Ok?) ==>
              Parse(expr) == Ok(CronSpec(FieldAt(words, 0).value, FieldAt(words, 1).value, FieldAt(words, 2).value,
                                         FieldAt(words, 3).value, FieldAt(words, 4).value,
                                         IsUnrestricted(words[2]), IsUnrestricted(words[4])))
  {
    hide SplitWhitespace, FieldSpec, IsUnrestricted;
    assert FieldAt(words, 0) == FieldSpec(words[0], 0, 59) && FieldAt(words, 1) == FieldSpec(words[1], 0, 23);
    assert FieldAt(words, 2) == FieldSpec(words[2], 1, 31) && FieldAt(words, 3) == FieldSpec(words[3], 1, 12);
    assert FieldAt(words, 4) == FieldSpec(words[4], 0, 6);
    hide FieldAt;
  }

  lemma {:induction false} FiveWordsInOrder(expr: string, words: seq<string>)
    requires SplitWhitespace(expr) == words && |words| == 5
    ensures ReadsInOrder(words, Parse(expr))
  {
    hide SplitWhitespace, FieldAt, Split;
    ParseOfWords(expr, words);
    hide Parse;
    if k :| 0 <= k < 5 && FieldAt(words, k).Err? {
      FirstFailing(words, k);
      hide IsUnrestricted;
    }
  }

  /** However the words are spaced: five are read in order, and any other number of words is an error. */
  lemma {:induction false} ParseReadsWords(words: seq<string>, gaps: seq<string>)
    requires IsSpacing(words, gaps)
    ensures var r := Parse(Spaced(words, gaps));
      if |words| == 5 then ReadsInOrder(words, r) else r == Err(FieldCount(|words|))
  {
    SplitOfSpaced(words, gaps);
    hide SplitWhitespace, FieldSpec, Spaced, Split, IsSpacing, ReadsInOrder, FieldAt, IsUnrestricted;
    if |words| == 5 { FiveWordsInOrder(Spaced(words, gaps), words); }
  }

  lemma {:induction false} FirstFailing(words: seq<string>, k: nat)
    requires |words| == 5 && k < 5 && FieldAt(words, k).Err?
    ensures exists f :: 0 <= f <= k && FieldAt(words, f).Err? && forall j | 0 <= j < f :: FieldAt(words, j).Ok?
  {
    if j :| 0 <= j < k && FieldAt(words, j).Err? { FirstFailing(words, j); }
  }

  // ----- matches -----

  const MINUTES_PER_DAY: int := 1440

  function DayOf(minute: int): int { minute / MINUTES_PER_DAY }

  /** The month and the day-of-month / day-of-week test, given which of the two fields count as unrestricted. */
  predicate DayRule(spec: CronSpec, domStar: bool, dowStar: bool, day: int) {
    var date := DateOf(day);
    date.month in spec.months &&
    match (domStar, dowStar)
    case (true, true) => true
    case (true, false) => Weekday(day) in spec.dows
    case (false, true) => date.day in spec.doms
    case (false, false) => date.day in spec.doms || Weekday(day) in spec.dows
  }

  predicate DayMatches(spec: CronSpec, day: int) {
    DayRule(spec, spec.domUnrestricted, spec.dowUnrestricted, day)
  }

  predicate Matches(spec: CronSpec, minute: int) {
    minute % 60 in spec.minutes && minute / 60 % 24 in spec.hours && DayMatches(spec, DayOf(minute))
  }

  lemma {:induction false} DayMatchesIsVixieRule(spec: CronSpec, day: int)
    requires WellFormed(spec)
    ensures var domOk := DateOf(day).day in spec.doms;
      var dowOk := Weekday(day) in spec.dows;
      DayMatches(spec, day) <==>
        && DateOf(day).month in spec.months
        && if !spec.domUnrestricted && !spec.dowUnrestricted then domOk || dowOk else domOk && dowOk
  {
    var date := DateOf(day);
    assert 1 <= date.day <= 31;
  }

  /** The documented rule: either day field when both are restricted, both day fields otherwise. */
  lemma {:induction false} MatchesIsVixieRule(expr: string, minute: int)
    ensures Parse(expr).Ok? ==>
      var spec := Parse(expr).value;
      var date := DateOf(DayOf(minute));
      var domOk := date.day in spec.doms;
      var dowOk := Weekday(DayOf(minute)) in spec.dows;
      Matches(spec, minute) <==>
        && minute % 60 in spec.minutes && minute / 60 % 24 in spec.hours && date.month in spec.months
        && if !spec.domUnrestricted && !spec.dowUnrestricted then domOk || dowOk else domOk && dowOk
  {
    ParsedIsWellFormed(expr);
    hide Parse, WellFormed, DateOf, Weekday, DayMatches;
    if Parse(expr).Ok? { DayMatchesIsVixieRule(Parse(expr).value, DayOf(minute)); }
  }

  // ----- next_after_spec -----

  const NS_PER_MINUTE: int := 60_000_000_000
  const HORIZON: int := 1464 * MINUTES_PER_DAY * NS_PER_MINUTE

  /** The first matching minute at or after `minute` whose instant lies before `limit`. */
  function Search(spec: CronSpec, minute: int, limit: int): (r: Result<int, CronError>)
    ensures r.Ok? ==> minute <= r.value && r.value * NS_PER_MINUTE < limit && Matches(spec, r.value)
    ensures r.Err? ==> r.error == NoOccurrence
    decreases limit - minute * NS_PER_MINUTE
  {
    hide Matches;
    if minute * NS_PER_MINUTE >= limit then Err(NoOccurrence)
    else if Matches(spec, minute) then Ok(minute)
    else Search(spec, minute + 1, limit)
  }

  /** The search finds no later minute than any match before the limit. */
  lemma {:induction false} SearchIsLeast(spec: CronSpec, minute: int, limit: int, t: int)
    requires minute <= t
    ensures t * NS_PER_MINUTE < limit && Matches(spec, t) ==>
              Search(spec, minute, limit).Ok? && Search(spec, minute, limit).value <= t
    decreases t - minute
  {
    hide Matches;
    if minute < t { SearchIsLeast(spec, minute + 1, limit, t); }
  }

  /** An instant strictly inside the search window that opens at `start`. */
  predicate InWindow(start: int, minute: int) {
    start < minute * NS_PER_MINUTE < start + HORIZON
  }

  lemma {:induction false} SearchCoversWindow(spec: CronSpec, start: int)
    ensures var first := (start + NS_PER_MINUTE) / NS_PER_MINUTE;
      && first * NS_PER_MINUTE > start
      && forall t | InWindow(start, t) && Matches(spec, t) ::
           Search(spec, first, start + HORIZON).Ok? && Search(spec, first, start + HORIZON).value <= t
  {
    hide Matches, Search;
    var first := (start + NS_PER_MINUTE) / NS_PER_MINUTE;
    forall t | InWindow(start, t) && Matches(spec, t)
      ensures Search(spec, first, start + HORIZON).Ok? && Search(spec, first, start + HORIZON).value <= t
    {
      SearchIsLeast(spec, first, start + HORIZON, t);
    }
  }

  /**
   The least matching minute strictly after `start` and before the horizon; an error exactly when there
   is none.
   */
  function NextAfterSpec(spec: CronSpec, start: int): (r: Result<int, CronError>)
    ensures r.Ok? ==> InWindow(start, r.value) && Matches(spec, r.value)
    ensures r.Ok? ==> forall t | InWindow(start, t) && t < r.value :: !Matches(spec, t)
    ensures r.Err? ==> r.error == NoOccurrence
    ensures r.Err? <==> forall t | InWindow(start, t) :: !Matches(spec, t)
  {
    var first := (start + NS_PER_MINUTE) / NS_PER_MINUTE;
    SearchCoversWindow(spec, start);
    Search(spec, first, start + HORIZON)
  }

  method ComputeNextAfterSpec(spec: CronSpec, start: int) returns (r: Result<int, CronError>)
    ensures r == NextAfterSpec(spec, start)
  {
    var t := (start + NS_PER_MINUTE) / NS_PER_MINUTE;
    var limit := start + HORIZON;
    while t * NS_PER_MINUTE < limit
      invariant Search(spec, t, limit) == NextAfterSpec(spec, start)
      decreases limit - t * NS_PER_MINUTE
    {
      if Matches(spec, t) { return Ok(t); }
      t := t + 1;
    }
    return Err(NoOccurrence);
  }

  function NextAfter(expr: string, start: int): (r: Result<int, CronError>)
    ensures r.Ok? ==> Parse(expr).Ok? && InWindow(start, r.value) && Matches(Parse(expr).value, r.value)
    ensures r.Ok? ==> forall t | InWindow(start, t) && t < r.value :: !Matches(Parse(expr).value, t)
    ensures r.Err? <==> Parse(expr).Err? || forall t | InWindow(start, t) :: !Matches(Parse(expr).value, t)
  {
    match Parse(expr)
    case Err(e) => Err(e)
    case Ok(spec) => NextAfterSpec(spec, start)
  }

  lemma {:induction false} NextAfterOfSpec(expr: string, start: int)
    ensures NextAfter(expr, start) ==
      if Parse(expr).Ok? then NextAfterSpec(Parse(expr).value, start) else Err(Parse(expr).error)
  {
  }
}

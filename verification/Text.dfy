/** The string operations of the Rust standard library that the modelled code relies on. */
module Text {
  import opened Prelude

  const U32_MAX: nat := 0xFFFF_FFFF

  /** Position of the first `c`, or the length when there is none. */
  function IndexOf(s: string, c: char): (i: nat)
    ensures i <= |s| && c !in s[..i]
    ensures i < |s| ==> s[i] == c
  {
    if s == "" || s[0] == c then 0 else 1 + IndexOf(s[1..], c)
  }

  /** `str::split` on one character: always at least one piece, empty pieces kept. */
  function Split(s: string, sep: char): (parts: seq<string>)
    ensures |parts| >= 1
    ensures forall p <- parts :: sep !in p
    decreases |s|
  {
    var i := IndexOf(s, sep);
    if i == |s| then [s] else [s[..i]] + Split(s[i + 1..], sep)
  }

  function Join(parts: seq<string>, sep: char): string {
    if parts == [] then ""
    else if |parts| == 1 then parts[0]
    else parts[0] + [sep] + Join(parts[1..], sep)
  }

  lemma {:induction false} IndexOfAppend(p: string, rest: string, sep: char)
    requires sep !in p
    ensures IndexOf(p + rest, sep) == |p| + IndexOf(rest, sep)
  {
    if p == "" {
      assert p + rest == rest;
    } else {
      assert (p + rest)[1..] == p[1..] + rest;
      IndexOfAppend(p[1..], rest, sep);
    }
  }

  lemma {:induction false} SplitFirst(p: string, rest: string, sep: char)
    requires sep !in p
    ensures Split(p + [sep] + rest, sep) == [p] + Split(rest, sep)
    ensures Split(p, sep) == [p]
  {
    var s := p + [sep] + rest;
    assert s == p + ([sep] + rest);
    IndexOfAppend(p, [sep] + rest, sep);
    assert s[..|p|] == p && s[|p| + 1..] == rest;
    IndexOfAppend(p, "", sep);
    assert p + "" == p;
  }

  lemma {:induction false} JoinCons(p: string, parts: seq<string>, sep: char)
    ensures Join([p], sep) == p
    ensures parts != [] ==> Join([p] + parts, sep) == p + [sep] + Join(parts, sep)
  {
    assert ([p] + parts)[1..] == parts;
  }

  /** Joining the pieces of a split gives the text back. */
  lemma {:induction false} JoinOfSplit(s: string, sep: char)
    ensures Join(Split(s, sep), sep) == s
    decreases |s|
  {
    var i := IndexOf(s, sep);
    hide *;
    if i == |s| {
      assert s[..i] == s;
      SplitFirst(s, "", sep);
      JoinCons(s, [], sep);
    } else {
      var p, rest := s[..i], s[i + 1..];
      JoinOfSplit(rest, sep);
      SplitFirst(p, rest, sep);
      JoinCons(p, Split(rest, sep), sep);
      assert s == p + [sep] + rest;
    }
  }

  predicate IsWhitespace(c: char) {
    var u := c as int;
    0x09 <= u <= 0x0D || u == 0x20 || u == 0x85 || u == 0xA0 || u == 0x1680
    || 0x2000 <= u <= 0x200A || u == 0x2028 || u == 0x2029 || u == 0x202F || u == 0x205F || u == 0x3000
  }

  function WordLength(s: string): (n: nat)
    ensures n <= |s|
    ensures forall i | 0 <= i < n :: !IsWhitespace(s[i])
    ensures n < |s| ==> IsWhitespace(s[n])
  {
    if s == "" || IsWhitespace(s[0]) then 0 else 1 + WordLength(s[1..])
  }

  /** `str::split_whitespace`: the maximal runs of non-blank characters. */
  function SplitWhitespace(s: string): (words: seq<string>)
    ensures forall w <- words :: w != "" && forall i | 0 <= i < |w| :: !IsWhitespace(w[i])
    decreases |s|
  {
    if s == "" then []
    else if IsWhitespace(s[0]) then SplitWhitespace(s[1..])
    else
      var n := WordLength(s);
      [s[..n]] + SplitWhitespace(s[n..])
  }

  predicate IsWord(w: string) {
    w != "" && forall c <- w :: !IsWhitespace(c)
  }

  predicate IsBlank(gap: string) {
    forall c <- gap :: IsWhitespace(c)
  }

  /** Blanks before, between and after the words; between two words there is at least one. */
  ghost predicate IsSpacing(words: seq<string>, gaps: seq<string>) {
    && |gaps| == |words| + 1 && (forall w <- words :: IsWord(w)) && (forall g <- gaps :: IsBlank(g))
    && forall i | 0 < i < |words| :: gaps[i] != ""
  }

  function Spaced(words: seq<string>, gaps: seq<string>): string
    requires |gaps| == |words| + 1
  {
    if words == [] then gaps[0] else gaps[0] + words[0] + Spaced(words[1..], gaps[1..])
  }

  lemma {:induction false} SkipBlanks(gap: string, s: string)
    requires IsBlank(gap)
    ensures SplitWhitespace(gap + s) == SplitWhitespace(s)
  {
    if gap == "" {
      assert gap + s == s;
    } else {
      assert gap[0] in gap && IsBlank(gap[1..]);
      assert (gap + s)[0] == gap[0] && (gap + s)[1..] == gap[1..] + s;
      SkipBlanks(gap[1..], s);
    }
  }

  lemma {:induction false} WholeWord(w: string, s: string)
    requires (forall c <- w :: !IsWhitespace(c)) && (s == "" || IsWhitespace(s[0]))
    ensures WordLength(w + s) == |w|
  {
    if w == "" {
      assert w + s == s;
    } else {
      assert w[0] in w && forall c <- w[1..] :: c in w;
      assert (w + s)[0] == w[0] && (w + s)[1..] == w[1..] + s;
      WholeWord(w[1..], s);
    }
  }

  lemma {:induction false} TakeWord(w: string, s: string)
    requires IsWord(w) && (s == "" || IsWhitespace(s[0]))
    ensures SplitWhitespace(w + s) == [w] + SplitWhitespace(s)
  {
    WholeWord(w, s);
    assert (w + s)[..|w|] == w && (w + s)[|w|..] == s;
    assert w[0] in w;
    assert !IsWhitespace((w + s)[0]);
  }

  lemma {:induction false} SpacedStart(words: seq<string>, gaps: seq<string>)
    requires IsSpacing(words, gaps) && gaps[0] != ""
    ensures Spaced(words, gaps) != "" && IsWhitespace(Spaced(words, gaps)[0])
  {
    assert gaps[0] in gaps && gaps[0][0] in gaps[0];
  }

  lemma {:induction false} SpacingRest(words: seq<string>, gaps: seq<string>)
    requires IsSpacing(words, gaps) && words != []
    ensures IsWord(words[0]) && IsBlank(gaps[0]) && IsSpacing(words[1..], gaps[1..])
    ensures |words| > 1 ==> gaps[1] != ""
  {
    assert words[0] in words && gaps[0] in gaps;
    assert forall w <- words[1..] :: w in words;
    assert forall g <- gaps[1..] :: g in gaps;
  }

  /** A crontab line is spaced by blanks and tabs, and none of the characters of its fields is one. */
  lemma {:induction false} CrontabSpacing(gap: string, word: string)
    ensures (forall c <- gap :: c == ' ' || c == '\t') ==> IsBlank(gap)
    ensures word != "" && (forall c <- word :: IsDigit(c) || c in "*/,-+") ==> IsWord(word)
  {
  }

  /** However the words are spaced, splitting gives them back. */
  lemma {:induction false} SplitOfSpaced(words: seq<string>, gaps: seq<string>)
    requires IsSpacing(words, gaps)
    ensures SplitWhitespace(Spaced(words, gaps)) == words
    decreases |words|
  {
    hide SplitWhitespace, IsWhitespace;
    if words == [] {
      assert gaps[0] in gaps && gaps[0] + "" == gaps[0];
      SkipBlanks(gaps[0], "");
      NoWords();
    } else {
      SpacingRest(words, gaps);
      var rest := Spaced(words[1..], gaps[1..]);
      assert Spaced(words, gaps) == gaps[0] + (words[0] + rest);
      SplitOfSpaced(words[1..], gaps[1..]);
      RestStartsBlank(words, gaps);
      hide IsSpacing, Spaced, IsWord, IsBlank;
      SkipBlanks(gaps[0], words[0] + rest);
      TakeWord(words[0], rest);
    }
  }

  lemma {:induction false} NoWords()
    ensures SplitWhitespace("") == [] && IsSpacing([], [""]) && Spaced([], [""]) == ""
  {
  }

  lemma {:induction false} RestStartsBlank(words: seq<string>, gaps: seq<string>)
    requires IsSpacing(words, gaps) && words != []
    ensures var rest := Spaced(words[1..], gaps[1..]); rest == "" || IsWhitespace(rest[0])
  {
    SpacingRest(words, gaps);
    if gaps[1] != "" { SpacedStart(words[1..], gaps[1..]); }
  }

  lemma {:induction false} BlankBefore(c: char, words: seq<string>, gaps: seq<string>)
    requires IsSpacing(words, gaps) && IsWhitespace(c)
    ensures var gaps' := [[c] + gaps[0]] + gaps[1..];
      IsSpacing(words, gaps') && Spaced(words, gaps') == [c] + Spaced(words, gaps)
  {
    var gaps' := [[c] + gaps[0]] + gaps[1..];
    hide IsWhitespace;
    BlankGap(c, words, gaps);
    assert gaps'[0] == [c] + gaps[0] && gaps'[1..] == gaps[1..];
    if words == [] {
    } else {
      var rest := words[0] + Spaced(words[1..], gaps[1..]);
      assert Spaced(words, gaps) == gaps[0] + rest && Spaced(words, gaps') == [c] + gaps[0] + rest;
      assert [c] + gaps[0] + rest == [c] + (gaps[0] + rest);
    }
  }

  lemma {:induction false} BlankGap(c: char, words: seq<string>, gaps: seq<string>)
    requires IsSpacing(words, gaps) && IsWhitespace(c)
    ensures IsSpacing(words, [[c] + gaps[0]] + gaps[1..])
  {
    hide IsWhitespace, IsWord;
    assert IsBlank([c] + gaps[0]) by { assert gaps[0] in gaps; }
    assert forall g <- gaps[1..] :: g in gaps;
  }

  lemma {:induction false} WordBefore(w: string, words: seq<string>, gaps: seq<string>)
    requires IsSpacing(words, gaps) && IsWord(w) && (words != [] ==> gaps[0] != "")
    ensures IsSpacing([w] + words, [""] + gaps) && Spaced([w] + words, [""] + gaps) == w + Spaced(words, gaps)
  {
    assert ([w] + words)[1..] == words && ([""] + gaps)[1..] == gaps;
    assert "" + w == w;
  }

  /** And every text is its own words, spaced in some way. */
  lemma {:induction false} SpacingOf(s: string) returns (gaps: seq<string>)
    ensures IsSpacing(SplitWhitespace(s), gaps) && Spaced(SplitWhitespace(s), gaps) == s
    ensures s != "" && IsWhitespace(s[0]) ==> gaps[0] != ""
    decreases |s|
  {
    hide *;
    if s == "" {
      gaps := [""];
      NoWords();
    } else if IsWhitespace(s[0]) {
      var words := SplitWhitespace(s[1..]);
      var rest := SpacingOf(s[1..]);
      SpacingIsLonger(words, rest);
      BlankBefore(s[0], words, rest);
      SkipBlank(s);
      gaps := [[s[0]] + rest[0]] + rest[1..];
      assert gaps[0] != "";
    } else {
      var n := WordLength(s);
      FirstWord(s);
      var word, words := s[..n], SplitWhitespace(s[n..]);
      var rest := SpacingOf(s[n..]);
      SpacingIsLonger(words, rest);
      WordBefore(word, words, rest);
      gaps := [""] + rest;
      assert s == word + s[n..];
    }
  }

  lemma {:induction false} SkipBlank(s: string)
    requires s != "" && IsWhitespace(s[0])
    ensures s == [s[0]] + s[1..] && SplitWhitespace(s) == SplitWhitespace(s[1..])
  {
  }

  lemma {:induction false} FirstWord(s: string)
    requires s != "" && !IsWhitespace(s[0])
    ensures var n := WordLength(s);
      && n > 0 && IsWord(s[..n]) && SplitWhitespace(s) == [s[..n]] + SplitWhitespace(s[n..])
      && (SplitWhitespace(s[n..]) != [] ==> n < |s| && s[n..] != "" && IsWhitespace(s[n..][0]))
  {
  }

  lemma {:induction false} SpacingIsLonger(words: seq<string>, gaps: seq<string>)
    requires IsSpacing(words, gaps)
    ensures |gaps| == |words| + 1
  {
  }

  predicate IsDigit(c: char) {
    '0' <= c <= '9'
  }

  function DigitsValue(s: string): nat
    requires forall c <- s :: IsDigit(c)
  {
    if s == "" then 0 else
    var last := s[|s| - 1];
    assert last in s && IsDigit(last);
    10 * DigitsValue(s[..|s| - 1]) + (last as int - '0' as int)
  }

  /** `str::parse::<u32>`: an optional plus sign, then decimal digits, no overflow. */
  function ParseU32(s: string): (r: Option<nat>)
    ensures r.Some? ==> r.value <= U32_MAX
  {
    var digits := if |s| > 1 && s[0] == '+' then s[1..] else s;
    if digits != "" && (forall c <- digits :: IsDigit(c)) && DigitsValue(digits) <= U32_MAX
    then Some(DigitsValue(digits))
    else None
  }

  // ----- decimal numerals -----

  /** The decimal numeral of a number, without leading zeros. */
  function Numeral(n: nat): (s: string)
    ensures s != "" && forall c <- s :: IsDigit(c)
  {
    var last := [('0' as int + n % 10) as char];
    if n < 10 then last else Numeral(n / 10) + last
  }

  lemma {:induction false} DigitsOfNumeral(n: nat)
    ensures DigitsValue(Numeral(n)) == n
  {
    var s := Numeral(n);
    if n < 10 {
      assert s[..|s| - 1] == "";
      assert DigitsValue(s[..|s| - 1]) == 0;
    } else {
      DigitsOfNumeral(n / 10);
      assert s[..|s| - 1] == Numeral(n / 10);
    }
  }

  /** Every 32-bit number is read back from its numeral. */
  lemma {:induction false} NumeralParses(n: nat)
    ensures ParseU32(Numeral(n)) == if n <= U32_MAX then Some(n) else None
  {
    DigitsOfNumeral(n);
    assert Numeral(n)[0] in Numeral(n) && IsDigit(Numeral(n)[0]);
  }

  function Zeros(k: nat): string {
    seq(k, _ => '0')
  }

  predicate AllDigits(s: string) {
    forall c <- s :: IsDigit(c)
  }

  lemma {:induction false} DigitsSnoc(s: string, c: char)
    requires AllDigits(s) && IsDigit(c)
    ensures AllDigits(s + [c]) && DigitsValue(s + [c]) == 10 * DigitsValue(s) + (c as int - '0' as int)
  {
    assert (s + [c])[..|s|] == s;
  }

  lemma {:induction false} NumeralSnoc(v: nat, c: char)
    requires IsDigit(c)
    ensures Numeral(10 * v + (c as int - '0' as int)) == if v == 0 then [c] else Numeral(v) + [c]
    ensures Numeral(0) == "0"
  {
    var d := c as int - '0' as int;
    assert (10 * v + d) / 10 == v && (10 * v + d) % 10 == d;
  }

  lemma {:induction false} ZerosThen(z: nat, s: string, c: char)
    ensures Zeros(z + 1) + [c] == Zeros(z) + "0" + [c]
    ensures Zeros(z) + (s + [c]) == Zeros(z) + s + [c]
    ensures Zeros(0) + [c] == [c]
  {
  }

  /** One more digit after some zeros and a numeral. */
  lemma {:induction false} DigitsStep(before: string, c: char, z: nat)
    requires AllDigits(before) && IsDigit(c) && before == Zeros(z) + Numeral(DigitsValue(before))
    ensures AllDigits(before + [c])
    ensures before + [c] == Zeros(if DigitsValue(before) == 0 then z + 1 else z) + Numeral(DigitsValue(before + [c]))
  {
    DigitsSnoc(before, c);
    var v := DigitsValue(before);
    NumeralSnoc(v, c);
    var w, w' := Numeral(v), Numeral(DigitsValue(before + [c]));
    hide *;
    ZerosThen(z, w, c);
    if v == 0 {
      assert w == "0" && w' == [c];
    } else {
      assert w' == w + [c];
    }
  }

  lemma {:induction false} OneDigit(c: char)
    requires IsDigit(c)
    ensures AllDigits([c]) && [c] == Zeros(0) + Numeral(DigitsValue([c]))
  {
    assert [c][..0] == "" && DigitsValue("") == 0;
    NumeralSnoc(0, c);
    ZerosThen(0, "", c);
  }

  /** A text of digits is the numeral of its value after some zeros. */
  lemma {:induction false} DigitsAreNumeral(s: string) returns (k: nat)
    requires s != "" && AllDigits(s)
    ensures s == Zeros(k) + Numeral(DigitsValue(s))
  {
    var before, c := s[..|s| - 1], s[|s| - 1];
    assert c in s && IsDigit(c) && AllDigits(before);
    hide *;
    assert s == before + [c];
    if before == "" {
      assert s == [c];
      OneDigit(c);
      k := 0;
    } else {
      var z := DigitsAreNumeral(before);
      DigitsStep(before, c, z);
      k := if DigitsValue(before) == 0 then z + 1 else z;
    }
  }

  lemma {:induction false} LeadingZeros(k: nat, s: string)
    requires AllDigits(s)
    ensures AllDigits(Zeros(k) + s) && DigitsValue(Zeros(k) + s) == DigitsValue(s)
  {
    if s == "" {
      if k > 0 {
        LeadingZeros(k - 1, "");
        DigitsSnoc(Zeros(k - 1), '0');
        assert Zeros(k) + "" == Zeros(k - 1) + "" + ['0'] && Zeros(k - 1) + "" == Zeros(k - 1);
      }
    } else {
      var before, c := s[..|s| - 1], s[|s| - 1];
      assert c in s && AllDigits(before) && s == before + [c];
      LeadingZeros(k, before);
      DigitsSnoc(before, c);
      DigitsSnoc(Zeros(k) + before, c);
      assert Zeros(k) + s == Zeros(k) + before + [c];
    }
  }

  /** How a number may be written: an optional plus sign, some zeros, its numeral. */
  ghost predicate Writes(s: string, n: nat) {
    exists k: nat :: s == Zeros(k) + Numeral(n) || s == "+" + (Zeros(k) + Numeral(n))
  }

  /** A text is read as a number exactly when it writes that number and the number fits 32 bits. */
  lemma {:induction false} ParsesExactly(s: string, n: nat)
    ensures ParseU32(s) == Some(n) <==> n <= U32_MAX && Writes(s, n)
  {
    if ParseU32(s) == Some(n) {
      var digits := if |s| > 1 && s[0] == '+' then s[1..] else s;
      assert AllDigits(digits);
      var k := DigitsAreNumeral(digits);
      if |s| > 1 && s[0] == '+' { assert s == "+" + digits; }
    }
    if n <= U32_MAX && Writes(s, n) {
      var k: nat :| s == Zeros(k) + Numeral(n) || s == "+" + (Zeros(k) + Numeral(n));
      ReadsWritten(s, n, k);
    }
  }

  lemma {:induction false} ReadsWritten(s: string, n: nat, k: nat)
    requires n <= U32_MAX && (s == Zeros(k) + Numeral(n) || s == "+" + (Zeros(k) + Numeral(n)))
    ensures ParseU32(s) == Some(n)
  {
    var digits := Zeros(k) + Numeral(n);
    LeadingZeros(k, Numeral(n));
    DigitsOfNumeral(n);
    assert digits[0] in digits && IsDigit(digits[0]);
    hide Numeral, DigitsValue;
    if s != digits { assert s[1..] == digits; }
  }
}

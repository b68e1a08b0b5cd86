/**
 Numbers outside a field's range. The documentation says that each is truncated to the nearest
 value of the range; the code drops it. Proved here: for which chunks, lists and fields that
 makes a difference.
 */
module CronTruncation {
  import opened Prelude
  import opened Text
  import opened Cron

  /** The in-range value nearest to a number. */
  function Nearest(n: nat, lo: nat, hi: nat): nat {
    if n < lo then lo else if n > hi then hi else n
  }

  /** Whether the chunk selects `v` when each of its numbers is truncated to the nearest value, as documented. */
  predicate Clamped(chunk: string, lo: nat, hi: nat, v: nat) {
    lo <= v <= hi &&
    match Classify(chunk)
    case Ok(Range(a, b)) => Nearest(a, lo, hi) <= v <= Nearest(b, lo, hi)
    case Ok(Exactly(n)) => v == Nearest(n, lo, hi)
    case _ => Denotes(chunk, lo, hi, v)
  }

  predicate ClampedSelected(chunks: seq<string>, lo: nat, hi: nat, v: nat) {
    exists chunk <- chunks :: Clamped(chunk, lo, hi, v)
  }

  /** The chunk selects nothing, and truncation would make it the least value. */
  predicate AllBelow(chunk: string, lo: nat) {
    match Classify(chunk)
    case Ok(Range(a, b)) => a <= lo && b < lo
    case Ok(Exactly(n)) => n < lo
    case _ => false
  }

  /** The chunk selects nothing, and truncation would make it the greatest value. */
  predicate AllAbove(chunk: string, hi: nat) {
    match Classify(chunk)
    case Ok(Range(a, b)) => a > hi && b >= hi
    case Ok(Exactly(n)) => n > hi
    case _ => false
  }

  /** Truncation adds at most one end of the range to a chunk, and nothing to a chunk that reaches into it. */
  lemma {:induction false} TruncationAdds(chunk: string, lo: nat, hi: nat, v: nat)
    requires lo < hi
    ensures Clamped(chunk, lo, hi, v) <==>
      Denotes(chunk, lo, hi, v) || (AllBelow(chunk, lo) && v == lo) || (AllAbove(chunk, hi) && v == hi)
  {
  }

  /** Whatever truncation would add is selected by some other chunk. */
  ghost predicate TruncationIsHarmless(chunks: seq<string>, lo: nat, hi: nat) {
    && ((exists chunk <- chunks :: AllBelow(chunk, lo)) ==> Selected(chunks, lo, hi, lo))
    && ((exists chunk <- chunks :: AllAbove(chunk, hi)) ==> Selected(chunks, lo, hi, hi))
  }

  /**
   A list of chunks selects the same values with and without truncation exactly when what truncation
   adds is there anyway.
   */
  lemma {:induction false} TruncationChangesNothingIff(chunks: seq<string>, lo: nat, hi: nat)
    requires lo < hi
    ensures (forall v :: Selected(chunks, lo, hi, v) <==> ClampedSelected(chunks, lo, hi, v)) <==>
      TruncationIsHarmless(chunks, lo, hi)
  {
    forall chunk <- chunks, v: nat ensures Clamped(chunk, lo, hi, v) <==>
      Denotes(chunk, lo, hi, v) || (AllBelow(chunk, lo) && v == lo) || (AllAbove(chunk, hi) && v == hi)
    {
      TruncationAdds(chunk, lo, hi, v);
    }
    hide Clamped, Denotes, AllBelow, AllAbove;
    forall v: nat
      ensures ClampedSelected(chunks, lo, hi, v) <==>
        || Selected(chunks, lo, hi, v)
        || ((exists chunk <- chunks :: AllBelow(chunk, lo)) && v == lo)
        || ((exists chunk <- chunks :: AllAbove(chunk, hi)) && v == hi)
    {
      if chunk :| chunk in chunks && AllBelow(chunk, lo) && v == lo { assert Clamped(chunk, lo, hi, v); }
      if chunk :| chunk in chunks && AllAbove(chunk, hi) && v == hi { assert Clamped(chunk, lo, hi, v); }
    }
    hide Selected, ClampedSelected;
  }

  /** The truncated values that are at least `from`, in ascending order. */
  function ClampedFrom(chunks: seq<string>, lo: nat, hi: nat, from: nat): (vs: seq<nat>)
    ensures forall v :: v in vs <==> from <= v && ClampedSelected(chunks, lo, hi, v)
    ensures Ascending(vs)
    decreases hi + 1 - from
  {
    if from > hi then []
    else
      var rest := ClampedFrom(chunks, lo, hi, from + 1);
      assert forall v :: v in rest ==> from < v;
      AscendingPrepend(from, rest);
      if ClampedSelected(chunks, lo, hi, from) then [from] + rest else rest
  }

  /** What a field would denote as documented. */
  function TruncatedField(raw: string, lo: nat, hi: nat): Result<seq<nat>, CronError> {
    match FirstError(Split(raw, ','))
    case Some(e) => Err(e)
    case None =>
      var vs := ClampedFrom(Split(raw, ','), lo, hi, lo);
      if vs == [] then Err(NoValues(raw)) else Ok(vs)
  }

  /** The same as a list: the two lists of values are equal exactly when truncation is harmless. */
  lemma {:induction false} ListsAgreeIff(chunks: seq<string>, lo: nat, hi: nat)
    requires lo < hi
    ensures SelectedFrom(chunks, lo, hi, lo) == ClampedFrom(chunks, lo, hi, lo) <==>
      TruncationIsHarmless(chunks, lo, hi)
  {
    var code, documented := SelectedFrom(chunks, lo, hi, lo), ClampedFrom(chunks, lo, hi, lo);
    TruncationChangesNothingIff(chunks, lo, hi);
    assert forall v :: Selected(chunks, lo, hi, v) ==> lo <= v;
    assert forall v :: ClampedSelected(chunks, lo, hi, v) ==> lo <= v;
    hide Selected, ClampedSelected, SelectedFrom, ClampedFrom, TruncationIsHarmless, Ascending;
    if forall v :: v in code <==> v in documented {
      AscendingUnique(code, documented);
    } else {
      assert code != documented;
    }
  }

  /**
   A field comes out as documented, values and errors alike, if and only if some chunk does not
   parse or everything that truncation would add is selected anyway.
   */
  lemma {:induction false} FieldTruncatesIff(raw: string, lo: nat, hi: nat)
    requires lo < hi
    ensures FieldSpec(raw, lo, hi) == TruncatedField(raw, lo, hi) <==>
      FirstError(Split(raw, ',')).Some? || TruncationIsHarmless(Split(raw, ','), lo, hi)
  {
    ListsAgreeIff(Split(raw, ','), lo, hi);
    FieldIsList(raw, lo, hi);
    hide FieldSpec, SelectedFrom, ClampedFrom, Split, TruncationIsHarmless, FirstError;
  }

  lemma {:induction false} FieldIsList(raw: string, lo: nat, hi: nat)
    ensures FirstError(Split(raw, ',')).Some? ==> FieldSpec(raw, lo, hi) == Err(FirstError(Split(raw, ',')).value)
    ensures FirstError(Split(raw, ',')).None? && SelectedFrom(Split(raw, ','), lo, hi, lo) == [] ==>
              FieldSpec(raw, lo, hi) == Err(NoValues(raw))
    ensures FirstError(Split(raw, ',')).None? && SelectedFrom(Split(raw, ','), lo, hi, lo) != [] ==>
              FieldSpec(raw, lo, hi) == Ok(SelectedFrom(Split(raw, ','), lo, hi, lo))
  {
  }

  /** One lone number: dropped when out of range, so the field is as documented exactly when it is in range. */
  lemma {:induction false} LoneNumber(raw: string, lo: nat, hi: nat, n: nat)
    requires lo < hi && ',' !in raw && Classify(raw) == Ok(Exactly(n))
    ensures FieldSpec(raw, lo, hi) == if lo <= n <= hi then Ok([n]) else Err(NoValues(raw))
    ensures FieldSpec(raw, lo, hi) == TruncatedField(raw, lo, hi) <==> lo <= n <= hi
  {
    OutOfRangeIsDropped(raw, lo, hi, n);
    FieldTruncatesIff(raw, lo, hi);
    SplitFirst(raw, "", ',');
    assert Split(raw, ',') == [raw] && raw in [raw];
    hide FieldSpec, TruncatedField, Split;
    assert FirstError([raw]).None?;
    assert forall v: nat :: Selected([raw], lo, hi, v) <==> lo <= v <= hi && v == n;
  }
}

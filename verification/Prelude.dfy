/** The two failure-carrying types every other module uses, and counting in a sequence. */
module Prelude {
  datatype Option<+T> = None | Some(value: T)

  datatype Result<+T, +E> = Ok(value: T) | Err(error: E)

  ghost function Positions<T>(s: seq<T>, p: T -> bool): set<int> {
    set i | 0 <= i < |s| && p(s[i])
  }

  /** How many positions of the sequence hold an element with the property. */
  ghost function Count<T>(s: seq<T>, p: T -> bool): nat {
    |Positions(s, p)|
  }

  lemma {:induction false} CountSnoc<T>(s: seq<T>, x: T, p: T -> bool)
    ensures Count(s + [x], p) == Count(s, p) + if p(x) then 1 else 0
  {
    assert Positions(s + [x], p) == Positions(s, p) + if p(x) then {|s|} else {};
  }

  /** Counting is additive. */
  lemma {:induction false} CountAppend<T>(s: seq<T>, t: seq<T>, p: T -> bool)
    ensures Count(s + t, p) == Count(s, p) + Count(t, p)
  {
    if t == [] {
      assert s + t == s && Positions(t, p) == {};
    } else {
      var n := |t| - 1;
      CountAppend(s, t[..n], p);
      CountSnoc(s + t[..n], t[n], p);
      CountSnoc(t[..n], t[n], p);
      assert s + t == s + t[..n] + [t[n]] && t == t[..n] + [t[n]];
    }
  }

  lemma {:induction false} CountHead<T>(s: seq<T>, p: T -> bool)
    ensures s == [] ==> Count(s, p) == 0
    ensures s != [] ==> Count(s, p) == Count(s[1..], p) + if p(s[0]) then 1 else 0
  {
    if s == [] {
      assert Positions(s, p) == {};
    } else {
      CountSnoc([], s[0], p);
      CountAppend([s[0]], s[1..], p);
      assert [] + [s[0]] == [s[0]] && [s[0]] + s[1..] == s;
      assert Positions([], p) == {};
    }
  }
}

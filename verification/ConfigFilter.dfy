/**
 The allow-list for remote configuration patches: only leaves at allowed dotted paths are
 copied, key by key, into a fresh patch, which is then merged like any other layer.
 */
module ConfigFilter {
  import opened ConfigMerge
  import opened Json
  import opened Prelude
  import Strings = Text

  const DOT: char := '.'

  /** The path a dotted prefix stands for; the empty prefix is the root. */
  function PathOf(prefix: string): Path {
    if prefix == "" then [] else Strings.Split(prefix, DOT)
  }

  function Dotted(prefix: string, k: string): string {
    if prefix == "" then k else prefix + [DOT] + k
  }

  lemma {:induction false} SplitSnoc(s: string, k: string)
    requires DOT !in k
    ensures Strings.Split(s + [DOT] + k, DOT) == Strings.Split(s, DOT) + [k]
    decreases |s|
  {
    var i := Strings.IndexOf(s, DOT);
    if i == |s| {
      assert s == s[..i];
      Strings.SplitFirst(s, k, DOT);
      Strings.SplitFirst(k, "", DOT);
      hide *;
    } else {
      var p, rest := s[..i], s[i + 1..];
      hide *;
      assert s == p + [DOT] + rest;
      assert s + [DOT] + k == p + [DOT] + (rest + [DOT] + k);
      Strings.SplitFirst(p, rest, DOT);
      Strings.SplitFirst(p, rest + [DOT] + k, DOT);
      SplitSnoc(rest, k);
    }
  }

  lemma {:induction false} PathOfDotted(prefix: string, k: string)
    requires k != "" && DOT !in k
    ensures PathOf(Dotted(prefix, k)) == PathOf(prefix) + [k]
  {
    if prefix == "" {
      Strings.SplitFirst(k, "", DOT);
      assert [] + [k] == [k];
    } else {
      SplitSnoc(prefix, k);
    }
  }

  // ----- what the filtered patch may contain -----

  predicate LeafAt(v: Value, p: Path, leaf: Value) {
    Shape(v, p) == Some(Leaf(leaf))
  }

  predicate BranchAt(v: Value, p: Path) {
    Shape(v, p) == Some(Branch)
  }

  predicate LeadsToAllowed(p: Path, allowed: set<string>) {
    exists a <- allowed :: p <= Strings.Split(a, DOT)
  }

  /** Every leaf sits at an allowed path, and every object below the root leads to one. */
  ghost predicate Covered(filtered: Fields, allowed: set<string>) {
    && (forall p: Path, x: Value | LeafAt(Object(filtered), p, x) ::
          Strings.Join(p, DOT) in allowed && Strings.Split(Strings.Join(p, DOT), DOT) == p)
    && forall p: Path | p != [] && BranchAt(Object(filtered), p) :: LeadsToAllowed(p, allowed)
  }

  /** No empty object below the root. */
  predicate NoHollow(fields: Fields)
    decreases Object(fields)
  {
    forall k <- fields :: fields[k].Object? ==>
      fields[k].fields != map[] && Object(fields[k].fields) == fields[k] && NoHollow(fields[k].fields)
  }

  /** Non-empty keys without dots, at every depth. */
  predicate CleanKeys(v: Value) {
    v.Object? ==> forall k <- v.fields :: k != "" && DOT !in k && CleanKeys(v.fields[k])
  }

  /** The leaf of the value, mounted at `at`, that the allow-list keeps. */
  predicate Kept(value: Value, at: Path, allowed: set<string>, q: Path, leaf: Value) {
    at <= q && LeafAt(value, q[|at|..], leaf) && Strings.Join(q, DOT) in allowed
  }

  predicate Comparable(p: Path, q: Path) {
    p <= q || q <= p
  }

  ghost predicate Apart(filtered: Fields, at: Path) {
    forall q: Path, x: Value | LeafAt(Object(filtered), q, x) :: !Comparable(at, q)
  }

  ghost predicate Gathered(after: Fields, before: Fields, value: Value, at: Path, allowed: set<string>) {
    forall q: Path, x: Value ::
      LeafAt(Object(after), q, x) <==> LeafAt(Object(before), q, x) || Kept(value, at, allowed, q, x)
  }

  // ----- writing one leaf -----

  lemma {:induction false} LeafShape(leaf: Value, p: Path)
    requires !leaf.Object?
    ensures Shape(leaf, p) == if p == [] then Some(Leaf(leaf)) else None
  {
  }

  lemma {:induction false} WriteCovers(filtered: Fields, a: string, leaf: Value, allowed: set<string>)
    requires Covered(filtered, allowed) && a in allowed && !leaf.Object?
    ensures Covered(SetPath(filtered, Strings.Split(a, DOT), leaf), allowed)
  {
    var path := Strings.Split(a, DOT);
    var after := SetPath(filtered, path, leaf);
    Strings.JoinOfSplit(a, DOT);
    forall p: Path, x: Value | LeafAt(Object(after), p, x)
      ensures Strings.Join(p, DOT) in allowed && Strings.Split(Strings.Join(p, DOT), DOT) == p
    {
      SetPathShape(filtered, path, leaf, p);
      if path <= p {
        LeafShape(leaf, p[|path|..]);
        assert p == path;
      } else {
        assert LeafAt(Object(filtered), p, x);
      }
    }
    forall p: Path | p != [] && BranchAt(Object(after), p) ensures LeadsToAllowed(p, allowed) {
      SetPathShape(filtered, path, leaf, p);
      if path <= p {
        LeafShape(leaf, p[|path|..]);
      } else if p <= path {
        assert p <= Strings.Split(a, DOT);
      } else {
        assert BranchAt(Object(filtered), p);
      }
    }
  }

  lemma {:induction false} WriteNoHollow(filtered: Fields, path: Path, leaf: Value)
    requires NoHollow(filtered) && !leaf.Object?
    ensures NoHollow(SetPath(filtered, path, leaf))
    ensures path != [] ==> SetPath(filtered, path, leaf) != map[]
    decreases path
  {
    if |path| > 1 {
      var next := Child(filtered, path[0]);
      WriteNoHollow(if next.Object? then next.fields else map[], path[1..], leaf);
    }
    if path == [] {
    } else {
      assert path[0] in SetPath(filtered, path, leaf);
    }
  }

  lemma {:induction false} WriteGathers(filtered: Fields, at: Path, leaf: Value, allowed: set<string>)
    requires at != [] && !leaf.Object? && Strings.Join(at, DOT) in allowed
    requires Apart(filtered, at)
    ensures Gathered(SetPath(filtered, at, leaf), filtered, leaf, at, allowed)
  {
    forall q: Path, x: Value
      ensures LeafAt(Object(SetPath(filtered, at, leaf)), q, x) <==>
        LeafAt(Object(filtered), q, x) || Kept(leaf, at, allowed, q, x)
    {
      SetPathShape(filtered, at, leaf, q);
      if at <= q {
        LeafShape(leaf, q[|at|..]);
        assert q[|at|..] == [] ==> q == at;
      }
    }
  }

  lemma {:induction false} DeniedGathers(filtered: Fields, at: Path, leaf: Value, allowed: set<string>)
    requires !leaf.Object? && Strings.Join(at, DOT) !in allowed
    ensures Gathered(filtered, filtered, leaf, at, allowed)
  {
    forall q: Path, x: Value ensures !Kept(leaf, at, allowed, q, x) {
      if at <= q {
        LeafShape(leaf, q[|at|..]);
        assert q[|at|..] == [] ==> q == at;
      }
    }
  }

  // ----- one object, key by key -----

  ghost predicate GatheredKeys(after: Fields, before: Fields, fields: Fields, keys: set<string>,
                               at: Path, allowed: set<string>)
  {
    forall q: Path, x: Value ::
      LeafAt(Object(after), q, x) <==> LeafAt(Object(before), q, x) || KeptBelow(fields, keys, at, allowed, q, x)
  }

  predicate KeptBelow(fields: Fields, keys: set<string>, at: Path, allowed: set<string>, q: Path, leaf: Value) {
    at < q && q[|at|] in keys && q[|at|] in fields && Kept(fields[q[|at|]], at + [q[|at|]], allowed, q, leaf)
  }

  lemma {:induction false} KeptOfObject(fields: Fields, at: Path, allowed: set<string>, q: Path, leaf: Value)
    ensures Kept(Object(fields), at, allowed, q, leaf) <==> KeptBelow(fields, fields.Keys, at, allowed, q, leaf)
  {
    if at < q {
      var rest := q[|at|..];
      assert rest[0] == q[|at|] && rest[1..] == q[|at| + 1..];
      assert at + [q[|at|]] <= q;
    } else if at <= q {
      assert q[|at|..] == [];
    }
  }

  lemma {:induction false} ComparableAbove(at: Path, k: string, q: Path)
    ensures Comparable(at + [k], q) ==> Comparable(at, q)
  {
    if at + [k] <= q {
      assert at <= q;
    } else if q <= at + [k] {
      assert q == at + [k] || q <= at;
    }
  }

  lemma {:induction false} ApartBelow(current: Fields, before: Fields, fields: Fields, keys: set<string>,
                                      at: Path, allowed: set<string>, k: string)
    requires Apart(before, at) && k !in keys
    requires GatheredKeys(current, before, fields, keys, at, allowed)
    ensures Apart(current, at + [k])
  {
    var below := at + [k];
    forall q: Path, x: Value | LeafAt(Object(current), q, x) ensures !Comparable(below, q) {
      if KeptBelow(fields, keys, at, allowed, q, x) {
        assert q[|at|] != below[|at|];
      } else {
        assert LeafAt(Object(before), q, x);
        ComparableAbove(at, k, q);
      }
    }
  }

  lemma {:induction false} GatherOneMore(after: Fields, current: Fields, before: Fields, fields: Fields,
                                         keys: set<string>, at: Path, allowed: set<string>, k: string)
    requires k in fields && k !in keys
    requires GatheredKeys(current, before, fields, keys, at, allowed)
    requires Gathered(after, current, fields[k], at + [k], allowed)
    ensures GatheredKeys(after, before, fields, keys + {k}, at, allowed)
  {
    forall q: Path, x: Value
      ensures KeptBelow(fields, keys + {k}, at, allowed, q, x) <==>
        KeptBelow(fields, keys, at, allowed, q, x) || Kept(fields[k], at + [k], allowed, q, x)
    {
      if at + [k] <= q {
        assert q[|at|] == (at + [k])[|at|] == k;
        assert at < q;
      }
    }
  }

  lemma {:induction false} GatheredAll(after: Fields, before: Fields, fields: Fields, at: Path, allowed: set<string>)
    requires GatheredKeys(after, before, fields, fields.Keys, at, allowed)
    ensures Gathered(after, before, Object(fields), at, allowed)
  {
    forall q: Path, x: Value
      ensures Kept(Object(fields), at, allowed, q, x) <==> KeptBelow(fields, fields.Keys, at, allowed, q, x)
    {
      KeptOfObject(fields, at, allowed, q, x);
    }
  }

  // ----- collect_allowed_leaf_paths and filter_patch -----

  /** The value can be mounted at the prefix without colliding with anything already collected. */
  ghost predicate Mountable(value: Value, prefix: string, filtered: Fields) {
    CleanKeys(value) && (value.Object? || prefix != "") && Apart(filtered, PathOf(prefix))
  }

  lemma {:induction false} MountBelow(prefix: string, fields: Fields, before: Fields, current: Fields,
                                      keys: set<string>, allowed: set<string>, k: string)
    requires Mountable(Object(fields), prefix, before) && k in fields && k !in keys
    requires GatheredKeys(current, before, fields, keys, PathOf(prefix), allowed)
    ensures PathOf(Dotted(prefix, k)) == PathOf(prefix) + [k]
    ensures Mountable(fields[k], Dotted(prefix, k), current)
  {
    assert CleanKeys(fields[k]);
    PathOfDotted(prefix, k);
    ApartBelow(current, before, fields, keys, PathOf(prefix), allowed, k);
    hide PathOf, Apart, GatheredKeys, CleanKeys;
  }

  /** What collecting into `before` keeps, and what it adds if the value can be mounted. */
  ghost predicate Collected(after: Fields, before: Fields, value: Value, prefix: string, allowed: set<string>) {
    && (Covered(before, allowed) ==> Covered(after, allowed))
    && (NoHollow(before) ==> NoHollow(after))
    && (Mountable(value, prefix, before) ==> Gathered(after, before, value, PathOf(prefix), allowed))
  }

  /** The same, after only some keys of an object. */
  ghost predicate CollectedKeys(after: Fields, before: Fields, fields: Fields, keys: set<string>, prefix: string,
                                allowed: set<string>)
  {
    && (Covered(before, allowed) ==> Covered(after, allowed))
    && (NoHollow(before) ==> NoHollow(after))
    && (Mountable(Object(fields), prefix, before) ==>
          GatheredKeys(after, before, fields, keys, PathOf(prefix), allowed))
  }

  lemma {:induction false} CollectedOneMore(after: Fields, current: Fields, before: Fields, fields: Fields,
                                            keys: set<string>, prefix: string, allowed: set<string>, k: string)
    requires k in fields && k !in keys
    requires CollectedKeys(current, before, fields, keys, prefix, allowed)
    requires Collected(after, current, fields[k], Dotted(prefix, k), allowed)
    ensures CollectedKeys(after, before, fields, keys + {k}, prefix, allowed)
  {
    hide Covered, NoHollow, Mountable, Gathered, GatheredKeys, PathOf, Dotted;
    if Mountable(Object(fields), prefix, before) {
      MountBelow(prefix, fields, before, current, keys, allowed, k);
      GatherOneMore(after, current, before, fields, keys, PathOf(prefix), allowed, k);
    }
  }

  lemma {:induction false} CollectedAll(after: Fields, before: Fields, fields: Fields, prefix: string,
                                        allowed: set<string>)
    ensures CollectedKeys(before, before, fields, {}, prefix, allowed)
    ensures CollectedKeys(after, before, fields, fields.Keys, prefix, allowed) ==>
              Collected(after, before, Object(fields), prefix, allowed)
  {
    NothingGathered(before, fields, PathOf(prefix), allowed);
    hide Covered, NoHollow, Mountable, Gathered, GatheredKeys, PathOf;
    if GatheredKeys(after, before, fields, fields.Keys, PathOf(prefix), allowed) {
      GatheredAll(after, before, fields, PathOf(prefix), allowed);
    }
  }

  method CollectAllowed(prefix: string, value: Value, filtered: Fields, allowed: set<string>) returns (r: Fields)
    ensures Collected(r, filtered, value, prefix, allowed)
    decreases value
  {
    hide *;
    r := filtered;
    if !value.Object? {
      if prefix in allowed {
        r := SetPath(filtered, Strings.Split(prefix, DOT), value);
      }
      LeafCollected(prefix, value, filtered, allowed);
      return;
    }
    var todo := value.fields.Keys;
    ghost var done: set<string> := {};
    CollectedAll(filtered, filtered, value.fields, prefix, allowed);
    while todo != {}
      invariant todo !! done && todo + done == value.fields.Keys
      invariant CollectedKeys(r, filtered, value.fields, done, prefix, allowed)
      decreases |todo|
    {
      var k :| k in todo;
      ghost var current := r;
      r := CollectAllowed(Dotted(prefix, k), value.fields[k], r, allowed);
      CollectedOneMore(r, current, filtered, value.fields, done, prefix, allowed, k);
      todo, done := todo - {k}, done + {k};
    }
    assert done == value.fields.Keys;
    CollectedAll(r, filtered, value.fields, prefix, allowed);
  }

  lemma {:induction false} NothingGathered(filtered: Fields, fields: Fields, at: Path, allowed: set<string>)
    ensures GatheredKeys(filtered, filtered, fields, {}, at, allowed)
  {
  }

  lemma {:induction false} LeafCollected(prefix: string, value: Value, filtered: Fields, allowed: set<string>)
    requires !value.Object?
    ensures
      var r := if prefix in allowed then SetPath(filtered, Strings.Split(prefix, DOT), value) else filtered;
      Collected(r, filtered, value, prefix, allowed)
  {
    Strings.JoinOfSplit(prefix, DOT);
    if prefix in allowed {
      if Covered(filtered, allowed) { WriteCovers(filtered, prefix, value, allowed); }
      if NoHollow(filtered) { WriteNoHollow(filtered, Strings.Split(prefix, DOT), value); }
      if Mountable(value, prefix, filtered) { WriteGathers(filtered, PathOf(prefix), value, allowed); }
    } else if Mountable(value, prefix, filtered) {
      DeniedGathers(filtered, PathOf(prefix), value, allowed);
    }
    hide Covered, NoHollow, Gathered;
  }

  /** The filtered patch holds exactly the patch's leaves whose dotted path is allowed. */
  ghost predicate Exact(filtered: Fields, patch: Value, allowed: set<string>) {
    forall q: Path, x: Value ::
      LeafAt(Object(filtered), q, x) <==> LeafAt(patch, q, x) && Strings.Join(q, '.') in allowed
  }

  method FilterPatch(patch: Value, allowed: set<string>) returns (filtered: Fields)
    ensures Covered(filtered, allowed) && NoHollow(filtered)
    ensures patch.Object? && CleanKeys(patch) ==> Exact(filtered, patch, allowed)
  {
    EmptyShape();
    filtered := CollectAllowed("", patch, map[], allowed);
    if patch.Object? && CleanKeys(patch) {
      assert Mountable(patch, "", map[]);
      forall q: Path, x: Value
        ensures LeafAt(Object(filtered), q, x) <==> LeafAt(patch, q, x) && Strings.Join(q, DOT) in allowed
      {
        assert q[|PathOf("")|..] == q;
        assert LeafAt(Object(filtered), q, x) <==>
          LeafAt(Object(map[]), q, x) || Kept(patch, PathOf(""), allowed, q, x);
      }
    }
  }

  lemma {:induction false} EmptyShape()
    ensures forall p: Path :: Shape(Object(map[]), p) == if p == [] then Some(Branch) else None
  {
  }

  // ----- merging the filtered patch -----

  lemma {:induction false} DecidedNearAllowed(filtered: Fields, allowed: set<string>, q: Path)
    requires Covered(filtered, allowed) && q != [] && Decides(Object(filtered), q)
    ensures exists a <- allowed :: Comparable(q, Strings.Split(a, DOT))
  {
    DecidesMeaning(Object(filtered), q);
    if BranchAt(Object(filtered), q) {
      var a :| a in allowed && q <= Strings.Split(a, DOT);
    } else {
      var p, x := LeafOver(Object(filtered), q);
      assert Strings.Join(p, DOT) in allowed && Strings.Split(Strings.Join(p, DOT), DOT) == p;
    }
  }

  /** A decided path that is not an object lies at or below a leaf. */
  lemma {:induction false} LeafOver(v: Value, q: Path) returns (p: Path, x: Value)
    requires Decides(v, q) && !BranchAt(v, q)
    ensures p <= q && LeafAt(v, p, x)
  {
    DecidesMeaning(v, q);
    if Shape(v, q).Some? {
      p, x := q, Shape(v, q).value.value;
    } else {
      var n :| 0 <= n < |q| && Shape(v, q[..n]).Some? && Shape(v, q[..n]).value.Leaf?;
      p, x := q[..n], Shape(v, q[..n]).value.value;
    }
  }

  /** A remote layer leaves every path alone that neither leads to nor extends an allowed path. */
  lemma {:induction false} FilteredMergeFrame(config: Value, filtered: Fields, allowed: set<string>, q: Path)
    requires config.Object? && Covered(filtered, allowed)
    requires forall a <- allowed :: !Comparable(q, Strings.Split(a, DOT))
    ensures Shape(Merge(config, Object(filtered)), q) == Shape(config, q)
  {
    MergeShape(config, Object(filtered), q);
    if q != [] && Decides(Object(filtered), q) {
      DecidedNearAllowed(filtered, allowed, q);
    }
  }

  lemma {:induction false} LeafBelow(fields: Fields, q: Path) returns (p: Path, x: Value)
    requires NoHollow(fields) && BranchAt(Object(fields), q) && (q != [] || fields != map[])
    ensures q <= p && LeafAt(Object(fields), p, x)
    decreases Object(fields)
  {
    var k: string;
    if q == [] { k :| k in fields; } else { k := q[0]; }
    var next := fields[k];
    var rest: Path, below: Path := if q == [] then [] else q[1..], [];
    if next.Object? {
      below, x := LeafBelow(next.fields, rest);
    } else {
      x := next;
      LeafShape(next, rest);
    }
    p := [k] + below;
    assert p[0] == k && p[1..] == below;
    if q != [] { assert q == [k] + rest; }
  }

  /** With clean keys, a path changes only where an allowed leaf of the patch lands on, above or below it. */
  lemma {:induction false} RemoteOverlay(config: Value, patch: Value, filtered: Fields, allowed: set<string>, q: Path)
    requires config.Object? && NoHollow(filtered) && Exact(filtered, patch, allowed)
    ensures forall x: Value :: LeafAt(patch, q, x) && Strings.Join(q, '.') in allowed ==>
              LeafAt(Merge(config, Object(filtered)), q, x)
    ensures Shape(Merge(config, Object(filtered)), q) != Shape(config, q) ==>
              exists p: Path, x: Value :: Comparable(p, q) && LeafAt(patch, p, x) && Strings.Join(p, '.') in allowed
  {
    var over := Object(filtered);
    MergeShape(config, over, q);
    DecidesMeaning(over, q);
    forall x: Value | LeafAt(patch, q, x) && Strings.Join(q, '.') in allowed
      ensures LeafAt(Merge(config, over), q, x)
    {
      assert LeafAt(over, q, x);
    }
    if q != [] && Decides(over, q) {
      var p: Path, x: Value;
      if BranchAt(over, q) {
        p, x := LeafBelow(filtered, q);
      } else {
        p, x := LeafOver(over, q);
      }
      assert LeafAt(over, p, x) && Comparable(p, q);
      assert LeafAt(patch, p, x) && Strings.Join(p, '.') in allowed;
    }
  }

  /** The leaves determine a filtered patch, so the order in which keys are visited does not matter. */
  lemma {:induction false} LeavesDetermine(a: Fields, b: Fields)
    requires NoHollow(a) && NoHollow(b)
    requires forall q: Path, x: Value :: LeafAt(Object(a), q, x) <==> LeafAt(Object(b), q, x)
    ensures a == b
  {
    forall q: Path ensures Shape(Object(a), q) == Shape(Object(b), q) {
      if Shape(Object(a), q) != Shape(Object(b), q) {
        ShapeFromLeaves(a, b, q);
        ShapeFromLeaves(b, a, q);
      }
    }
    SameShape(Object(a), Object(b));
  }

  lemma {:induction false} ShapeFromLeaves(a: Fields, b: Fields, q: Path)
    requires NoHollow(a) && NoHollow(b)
    requires forall p: Path, x: Value :: LeafAt(Object(a), p, x) <==> LeafAt(Object(b), p, x)
    ensures Shape(Object(a), q).Some? ==> Shape(Object(b), q) == Shape(Object(a), q)
  {
    if Shape(Object(a), q).Some? && q != [] {
      match Shape(Object(a), q).value {
        case Leaf(x) => assert LeafAt(Object(a), q, x);
        case Branch =>
          var p, x := LeafBelow(a, q);
          assert LeafAt(Object(b), p, x);
          if p == q {
            assert false;
          } else {
            AboveLeaf(Object(b), q, p, x);
          }
      }
    }
  }

  lemma {:induction false} AboveLeaf(v: Value, q: Path, p: Path, x: Value)
    requires q < p && LeafAt(v, p, x)
    ensures BranchAt(v, q)
  {
    if q == [] {
    } else {
      assert q[1..] < p[1..];
      AboveLeaf(v.fields[q[0]], q[1..], p[1..], x);
    }
  }
}

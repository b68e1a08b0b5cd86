/**
 Layered configuration: deep merge of JSON trees, path assignment, and the fold of the
 loader. A tree is read through `Shape`, which says what sits at a path; two trees are equal
 when they have the same shape at every path.
 */
module ConfigMerge {
  import opened Json
  import opened Prelude

  type Path = seq<string>

  datatype Node = Leaf(value: Value) | Branch

  /** What sits at a path; arrays are leaves. */
  function Shape(v: Value, p: Path): Option<Node> {
    if p == [] then Some(if v.Object? then Branch else Leaf(v))
    else if v.Object? && p[0] in v.fields then Shape(v.fields[p[0]], p[1..])
    else None
  }

  lemma {:induction false} KeyShape(v: Value, k: string)
    requires v.Object?
    ensures k in v.fields <==> Shape(v, [k]).Some?
  {
    assert [k][1..] == [];
  }

  /** A tree is determined by its shape. */
  lemma {:induction false} SameShape(a: Value, b: Value)
    requires forall p: Path :: Shape(a, p) == Shape(b, p)
    ensures a == b
  {
    assert Shape(a, []) == Shape(b, []);
    if a.Object? {
      forall k ensures k in a.fields <==> k in b.fields {
        KeyShape(a, k);
        KeyShape(b, k);
        assert Shape(a, [k]) == Shape(b, [k]);
      }
      forall k <- a.fields ensures a.fields[k] == b.fields[k] {
        forall p: Path ensures Shape(a.fields[k], p) == Shape(b.fields[k], p) {
          assert ([k] + p)[1..] == p;
          assert Shape(a, [k] + p) == Shape(b, [k] + p);
        }
        SameShape(a.fields[k], b.fields[k]);
      }
      assert a.fields == b.fields;
    }
  }

  // ----- deep_merge -----

  function Child(fields: Fields, k: string): Value {
    if k in fields then fields[k] else Null
  }

  function Merge(base: Value, patch: Value): Value
    decreases patch
  {
    if base.Object? && patch.Object? then
      Object(map k | k in base.fields.Keys + patch.fields.Keys ::
               if k in patch.fields then Merge(Child(base.fields, k), patch.fields[k]) else base.fields[k])
    else patch
  }

  /** Merging only some of the patch's keys. */
  function MergeKeys(base: Fields, patch: Fields, keys: set<string>): Fields
    requires keys <= patch.Keys
  {
    map k | k in base.Keys + keys :: if k in keys then Merge(Child(base, k), patch[k]) else base[k]
  }

  lemma {:induction false} MergeNoKey(base: Fields, patch: Fields)
    ensures MergeKeys(base, patch, {}) == base
  {
  }

  lemma {:induction false} MergeOneMoreKey(base: Fields, patch: Fields, keys: set<string>, k: string)
    requires keys <= patch.Keys && k in patch && k !in keys
    ensures MergeKeys(base, patch, keys + {k}) ==
      MergeKeys(base, patch, keys)[k := Merge(Child(base, k), patch[k])]
    ensures Child(MergeKeys(base, patch, keys), k) == Child(base, k)
  {
  }

  lemma {:induction false} MergeEveryKey(base: Fields, patch: Fields)
    ensures Object(MergeKeys(base, patch, patch.Keys)) == Merge(Object(base), Object(patch))
  {
    var merged := Merge(Object(base), Object(patch)).fields;
    assert merged.Keys == MergeKeys(base, patch, patch.Keys).Keys;
  }

  /** The merge as the code performs it: key by key, in whatever order the patch is iterated. */
  method DeepMerge(base: Value, patch: Value) returns (merged: Value)
    ensures merged == Merge(base, patch)
    decreases patch
  {
    if !base.Object? || !patch.Object? { return patch; }
    var fields := base.fields;
    var todo := patch.fields.Keys;
    MergeNoKey(base.fields, patch.fields);
    MergeEveryKey(base.fields, patch.fields);
    ghost var done: set<string> := {};
    hide MergeKeys, Merge;
    while todo != {}
      invariant todo !! done && todo + done == patch.fields.Keys
      invariant fields == MergeKeys(base.fields, patch.fields, done)
      decreases |todo|
    {
      var k :| k in todo;
      MergeOneMoreKey(base.fields, patch.fields, done, k);
      var v := DeepMerge(Child(fields, k), patch.fields[k]);
      fields := fields[k := v];
      todo, done := todo - {k}, done + {k};
    }
    assert done == patch.fields.Keys;
    return Object(fields);
  }

  lemma {:induction false} MergeField(base: Fields, patch: Fields, k: string)
    ensures Merge(Object(base), Object(patch)).Object?
    ensures k in Merge(Object(base), Object(patch)).fields <==> k in base || k in patch
    ensures k in patch ==>
      Merge(Object(base), Object(patch)).fields[k] == Merge(Child(base, k), patch[k])
    ensures k in base && k !in patch ==> Merge(Object(base), Object(patch)).fields[k] == base[k]
  {
  }

  /** A patch settles a path when it has something there, or a non-object above it. */
  predicate Decides(v: Value, p: Path) {
    !v.Object? || p == [] || (p[0] in v.fields && Decides(v.fields[p[0]], p[1..]))
  }

  lemma {:induction false} DecidesMeaning(v: Value, p: Path)
    ensures Decides(v, p) <==>
      Shape(v, p).Some? || exists n :: 0 <= n < |p| && Shape(v, p[..n]).Some? && Shape(v, p[..n]).value.Leaf?
  {
    if p == [] {
    } else {
      assert Shape(v, p[..0]) == Shape(v, []);
      if v.Object? && p[0] in v.fields {
        DecidesMeaning(v.fields[p[0]], p[1..]);
        if n :| 0 <= n < |p| && Shape(v, p[..n]).Some? && Shape(v, p[..n]).value.Leaf? {
          assert p[..n][1..] == p[1..][..n - 1];
        }
        var child, rest := v.fields[p[0]], p[1..];
        if n :| 0 <= n < |rest| && Shape(child, rest[..n]).Some? && Shape(child, rest[..n]).value.Leaf? {
          assert p[..n + 1][1..] == p[1..][..n];
          assert Shape(v, p[..n + 1]).Some? && Shape(v, p[..n + 1]).value.Leaf?;
        }
      } else if v.Object? {
        forall n | 0 <= n < |p| ensures !(Shape(v, p[..n]).Some? && Shape(v, p[..n]).value.Leaf?) {
          if n > 0 { assert p[..n][0] == p[0]; }
        }
      }
    }
  }

  /** At every path the patch wins where it decides, and the base shows through elsewhere. */
  lemma {:induction false} MergeShape(base: Value, patch: Value, p: Path)
    ensures Shape(Merge(base, patch), p) == if Decides(patch, p) then Shape(patch, p) else Shape(base, p)
    decreases p
  {
    if !base.Object? {
      DecidesMeaning(patch, p);
    } else if patch.Object? && p != [] {
      MergeField(base.fields, patch.fields, p[0]);
      if p[0] in patch.fields {
        MergeShape(Child(base.fields, p[0]), patch.fields[p[0]], p[1..]);
      }
    }
  }

  /** Applying a layer twice is applying it once. */
  lemma {:induction false} MergeIsIdempotent(base: Value, patch: Value)
    ensures Merge(Merge(base, patch), patch) == Merge(base, patch)
  {
    forall p: Path ensures Shape(Merge(Merge(base, patch), patch), p) == Shape(Merge(base, patch), p) {
      MergeShape(base, patch, p);
      MergeShape(Merge(base, patch), patch, p);
    }
    SameShape(Merge(Merge(base, patch), patch), Merge(base, patch));
  }

  lemma {:induction false} ShapeOfTwo(base: Value, a: Value, b: Value, p: Path)
    ensures Shape(Merge(Merge(base, a), b), p) ==
      if Decides(b, p) then Shape(b, p) else if Decides(a, p) then Shape(a, p) else Shape(base, p)
  {
    MergeShape(base, a, p);
    MergeShape(Merge(base, a), b, p);
  }

  predicate Agree(a: Value, b: Value, p: Path) {
    Decides(a, p) && Decides(b, p) ==> Shape(a, p) == Shape(b, p)
  }

  /** Two patches commute, over every base alike, exactly when they agree wherever both decide. */
  lemma {:induction false} PatchesCommute(base: Value, a: Value, b: Value)
    ensures Merge(Merge(base, a), b) == Merge(Merge(base, b), a) <==> forall p: Path :: Agree(a, b, p)
  {
    var ab, ba := Merge(Merge(base, a), b), Merge(Merge(base, b), a);
    forall p: Path ensures Agree(a, b, p) <==> Shape(ab, p) == Shape(ba, p) {
      ShapeOfTwo(base, a, b, p);
      ShapeOfTwo(base, b, a, p);
    }
    if forall p: Path :: Agree(a, b, p) {
      SameShape(ab, ba);
    }
  }

  // ----- associativity -----

  /** The second patch puts an object where the first has a non-object. */
  predicate Revives(b: Value, c: Value)
    decreases c
  {
    c.Object? && (!b.Object? || exists k <- c.fields :: k in b.fields && Revives(b.fields[k], c.fields[k]))
  }

  /** Both groupings, one key down. */
  lemma {:induction false} AssociativeField(a: Fields, b: Fields, c: Fields, k: string)
    ensures var left := Merge(Merge(Object(a), Object(b)), Object(c));
      var right := Merge(Object(a), Merge(Object(b), Object(c)));
      && left.Object? && right.Object?
      && (k in left.fields <==> k in a || k in b || k in c)
      && (k in right.fields <==> k in a || k in b || k in c)
      && (k in b && k in c ==> left.fields[k] == Merge(Merge(Child(a, k), b[k]), c[k]))
      && (k in b && k in c ==> right.fields[k] == Merge(Child(a, k), Merge(b[k], c[k])))
      && (k in left.fields && !(k in b && k in c) ==> left.fields[k] == right.fields[k])
  {
    var ab, bc := Merge(Object(a), Object(b)), Merge(Object(b), Object(c));
    MergeField(a, b, k);
    MergeField(b, c, k);
    MergeField(ab.fields, c, k);
    MergeField(a, bc.fields, k);
    assert Merge(Null, Child(c, k)) == Child(c, k);
    hide Merge;
  }

  lemma {:induction false} AssociativeUnlessRevived(a: Value, b: Value, c: Value)
    requires !Revives(b, c)
    ensures Merge(Merge(a, b), c) == Merge(a, Merge(b, c))
    decreases c
  {
    if a.Object? && b.Object? && c.Object? {
      var left, right := Merge(Merge(a, b), c).fields, Merge(a, Merge(b, c)).fields;
      forall k ensures (k in left <==> k in right) && (k in left ==> left[k] == right[k]) {
        AssociativeField(a.fields, b.fields, c.fields, k);
        if k in c.fields && k in b.fields {
          AssociativeUnlessRevived(Child(a.fields, k), b.fields[k], c.fields[k]);
        }
      }
      assert left == right;
    }
  }

  lemma {:induction false} LengthBound(keys: set<string>) returns (n: nat)
    ensures forall k <- keys :: |k| <= n
    decreases keys
  {
    if keys == {} {
      n := 0;
    } else {
      var k :| k in keys;
      var m := LengthBound(keys - {k});
      n := if |k| > m then |k| else m;
    }
  }

  lemma {:induction false} FreshKey(keys: set<string>) returns (k: string)
    ensures k !in keys
  {
    var n := LengthBound(keys);
    k := seq(n + 1, _ => 'a');
  }

  lemma {:induction false} RevivalBreaksAssociativity(b: Value, c: Value) returns (a: Value)
    requires Revives(b, c)
    ensures Merge(Merge(a, b), c) != Merge(a, Merge(b, c))
    decreases c
  {
    if !b.Object? {
      var k := FreshKey(c.fields.Keys);
      a := Object(map[k := Null]);
      assert k in Merge(a, c).fields;
    } else {
      var k :| k in c.fields && k in b.fields && Revives(b.fields[k], c.fields[k]);
      var below := RevivalBreaksAssociativity(b.fields[k], c.fields[k]);
      a := Object(map[k := below]);
      AssociativeField(a.fields, b.fields, c.fields, k);
    }
  }

  /**
   Applying two patches in turn equals applying their merge, for every base, exactly when the later
   revives nothing.
   */
  lemma {:induction false} MergeIsAssociative(b: Value, c: Value)
    ensures (forall a: Value :: Merge(Merge(a, b), c) == Merge(a, Merge(b, c))) <==> !Revives(b, c)
  {
    if Revives(b, c) {
      var a := RevivalBreaksAssociativity(b, c);
    } else {
      forall a: Value ensures Merge(Merge(a, b), c) == Merge(a, Merge(b, c)) {
        AssociativeUnlessRevived(a, b, c);
      }
    }
  }

  // ----- the loader's fold -----

  predicate IsEmptyPatch(patch: Value) {
    !patch.Object? || patch.fields == map[]
  }

  function Load(defaults: Value, patches: seq<Value>): Value {
    if patches == [] then defaults
    else
      var merged := Load(defaults, patches[..|patches| - 1]);
      var patch := patches[|patches| - 1];
      if IsEmptyPatch(patch) then merged else Merge(merged, patch)
  }

  method LoadLayers(defaults: Value, patches: seq<Value>) returns (merged: Value)
    ensures merged == Load(defaults, patches)
  {
    merged := defaults;
    for i := 0 to |patches|
      invariant merged == Load(defaults, patches[..i])
    {
      assert patches[..i + 1][..i] == patches[..i];
      if IsEmptyPatch(patches[i]) { continue; }
      merged := DeepMerge(merged, patches[i]);
    }
    assert patches[..|patches|] == patches;
  }

  predicate Settles(patch: Value, p: Path) {
    !IsEmptyPatch(patch) && Decides(patch, p)
  }

  /** The last layer that settles the path, or the defaults. */
  function Winner(defaults: Value, patches: seq<Value>, p: Path): Value {
    if patches == [] then defaults
    else
      var patch := patches[|patches| - 1];
      if Settles(patch, p) then patch else Winner(defaults, patches[..|patches| - 1], p)
  }

  /** The loaded tree shows, at each path, what the winning layer has there. */
  lemma {:induction false} LoadShape(defaults: Value, patches: seq<Value>, p: Path)
    ensures Shape(Load(defaults, patches), p) == Shape(Winner(defaults, patches, p), p)
  {
    if patches == [] {
    } else {
      var before := patches[..|patches| - 1];
      LoadShape(defaults, before, p);
      MergeShape(Load(defaults, before), patches[|patches| - 1], p);
    }
  }

  /** Index of the winning layer, or -1 for the defaults. */
  lemma {:induction false} WinnerIsLast(defaults: Value, patches: seq<Value>, p: Path) returns (w: int)
    ensures -1 <= w < |patches|
    ensures Winner(defaults, patches, p) == if w < 0 then defaults else patches[w]
    ensures w >= 0 ==> Settles(patches[w], p)
    ensures forall j | w < j < |patches| :: !Settles(patches[j], p)
  {
    if patches == [] {
      w := -1;
    } else {
      var n := |patches| - 1;
      if Settles(patches[n], p) {
        w := n;
      } else {
        w := WinnerIsLast(defaults, patches[..n], p);
        assert forall j | 0 <= j < n :: patches[j] == patches[..n][j];
      }
    }
  }

  /** An object with at least one key that decides the path; a patch without keys, or no object, is skipped. */
  predicate Sets(patch: Value, p: Path) {
    patch.Object? && (exists k :: k in patch.fields) && Decides(patch, p)
  }

  lemma {:induction false} SettlesMeaning(patch: Value, p: Path)
    ensures Settles(patch, p) <==> Sets(patch, p)
  {
    if patch.Object? && patch.fields != map[] { assert exists k :: k in patch.fields.Keys; }
  }

  /** Every leaf comes from the last layer that sets its path, or from the defaults when none does. */
  lemma {:induction false} LeafFromLastLayer(defaults: Value, patches: seq<Value>, p: Path, leaf: Value)
    ensures Shape(Load(defaults, patches), p) == Some(Leaf(leaf)) <==>
      || (exists i :: 0 <= i < |patches| && Sets(patches[i], p) && Shape(patches[i], p) == Some(Leaf(leaf))
            && forall j | i < j < |patches| :: !Sets(patches[j], p))
      || (Shape(defaults, p) == Some(Leaf(leaf)) && forall j | 0 <= j < |patches| :: !Sets(patches[j], p))
  {
    LoadShape(defaults, patches, p);
    var w := WinnerIsLast(defaults, patches, p);
    forall i | 0 <= i < |patches| ensures Settles(patches[i], p) <==> Sets(patches[i], p) {
      SettlesMeaning(patches[i], p);
    }
    hide Shape, Settles, Sets, Load, Winner;
  }

  // ----- set_path -----

  function SetPath(fields: Fields, path: Path, value: Value): Fields
    decreases path
  {
    if path == [] then fields
    else if |path| == 1 then fields[path[0] := value]
    else
      var next := Child(fields, path[0]);
      fields[path[0] := Object(SetPath(if next.Object? then next.fields else map[], path[1..], value))]
  }

  /**
   The empty path writes nothing; otherwise the value sits at its path, objects lead to it, and every
   path that branches off is as before.
   */
  lemma {:induction false} SetPathShape(fields: Fields, path: Path, value: Value, q: Path)
    ensures Shape(Object(SetPath(fields, path, value)), q) ==
      if path == [] then Shape(Object(fields), q)
      else if path <= q then Shape(value, q[|path|..])
      else if q <= path then Some(Branch)
      else Shape(Object(fields), q)
    decreases path
  {
    if path == [] {
    } else if q != [] && q[0] == path[0] {
      if |path| > 1 {
        var next := Child(fields, path[0]);
        SetPathShape(if next.Object? then next.fields else map[], path[1..], value, q[1..]);
        assert path <= q <==> path[1..] <= q[1..];
        assert q <= path <==> q[1..] <= path[1..];
        if path <= q { assert q[1..][|path[1..]|..] == q[|path|..]; }
      } else {
        assert path == [path[0]];
        assert path <= q && q[|path|..] == q[1..];
      }
    } else if q != [] {
      assert !(path <= q) && !(q <= path);
    }
  }
}

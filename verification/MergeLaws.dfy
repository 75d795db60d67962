/**
Laws of the configuration merge, observed through the path lookup of `ConfigManager.get`.
*/
module MergeLaws {
  import opened Wrappers
  import opened PyHeap
  import opened ConfigMerge

  // ---------------------------------------------------------------- path lookup

  /** What a path of keys leads to. */
  function Lookup(t: Tree, path: seq<string>): Option<Tree> {
    if path == [] then Some(t)
    else if t.DictTree? && path[0] in t.fields then Lookup(t.fields[path[0]], path[1..])
    else None
  }

  /** `ConfigManager.get` */
  method Get(data: Ref, keys: seq<string>, fallback: Ref) returns (r: Ref)
    requires Valid(data)
    ensures match Lookup(TreeOf(data), keys)
            case Some(t) => Valid(r) && TreeOf(r) == t && Footprint(r) <= Footprint(data)
            case None => r == fallback
  {
    r := data;
    for i := 0 to |keys|
      invariant Valid(r) && Footprint(r) <= Footprint(data)
      invariant Lookup(TreeOf(data), keys) == Lookup(TreeOf(r), keys[i..])
    {
      if !r.DictRef? || keys[i] !in r.d.entries {
        return fallback;
      }
      assert keys[i..][1..] == keys[i + 1..];
      r := r.d.entries[keys[i]];
    }
  }

  // ---------------------------------------------------------------- lookup after merge

  /** A path ends in the source at a value, leaves it where a key is missing, or runs into a value that is no dict. */
  datatype Trail = Ends(value: Tree) | MissingKey | Blocked

  function Follow(s: Tree, path: seq<string>): Trail {
    if path == [] then Ends(s)
    else if !s.DictTree? then Blocked
    else if path[0] !in s.fields then MissingKey
    else Follow(s.fields[path[0]], path[1..])
  }

  /**
  Every path through a merge: a value of the source wins (merged with the target's if both are dicts),
  a path that leaves the source at a missing key sees the target, and nothing is found below a non-dict of the source.
  */
  lemma {:induction false} LookupMerge(t: Tree, s: Tree, path: seq<string>)
    ensures Lookup(Merge(t, s), path) ==
            match Follow(s, path)
            case Ends(v) => (match Lookup(t, path) case None => Some(v) case Some(u) => Some(Merge(u, v)))
            case MissingKey => Lookup(t, path)
            case Blocked => None
  {
    if path != [] && s.DictTree? {
      var k, rest := path[0], path[1..];
      if t.DictTree? && k in t.fields && k in s.fields {
        LookupMerge(t.fields[k], s.fields[k], rest);
      } else if k in s.fields {
        FollowIsLookup(s.fields[k], rest);
      }
    }
  }

  /** A path ends in a tree iff the lookup finds that value. */
  lemma {:induction false} FollowIsLookup(s: Tree, path: seq<string>)
    ensures Lookup(s, path) == if Follow(s, path).Ends? then Some(Follow(s, path).value) else None
  {
    if path != [] && s.DictTree? && path[0] in s.fields {
      FollowIsLookup(s.fields[path[0]], path[1..]);
    }
  }

  /** The source's non-dict values are exactly what a reader finds at their paths. */
  lemma SourceLeavesWin(t: Tree, s: Tree, path: seq<string>, v: Tree)
    requires Lookup(s, path) == Some(v) && !v.DictTree?
    ensures Lookup(Merge(t, s), path) == Some(v)
  {
    FollowIsLookup(s, path);
    LookupMerge(t, s, path);
  }

  // ---------------------------------------------------------------- algebra

  const EMPTY := DictTree(map[])

  /** `{}` changes nothing, on either side. */
  lemma MergeUnit(t: Tree)
    requires t.DictTree?
    ensures Merge(t, EMPTY) == t && Merge(EMPTY, t) == t
  {
    assert Merge(t, EMPTY).fields == t.fields;
    assert Merge(EMPTY, t).fields == t.fields;
  }

  lemma {:induction false} MergeSelf(s: Tree)
    ensures Merge(s, s) == s
    decreases s
  {
    if s.DictTree? {
      forall k | k in s.fields ensures Merge(s.fields[k], s.fields[k]) == s.fields[k] {
        MergeSelf(s.fields[k]);
      }
      assert Merge(s, s).fields == s.fields;
    }
  }

  /** Applying the same update twice is applying it once. */
  lemma {:induction false} MergeIdempotent(t: Tree, s: Tree)
    ensures Merge(Merge(t, s), s) == Merge(t, s)
    decreases s
  {
    if t.DictTree? && s.DictTree? {
      var m := Merge(t, s);
      forall k | k in s.fields ensures Merge(m.fields[k], s.fields[k]) == m.fields[k] {
        if k in t.fields {
          MergeIdempotent(t.fields[k], s.fields[k]);
        } else {
          MergeSelf(s.fields[k]);
        }
      }
      assert Merge(m, s).fields == m.fields;
    } else {
      MergeSelf(s);
    }
  }

  /** Every key of `a` is overwritten or matched by `c`, all the way down. */
  predicate Covers(c: Tree, a: Tree)
    decreases a
  {
    c.DictTree? && a.DictTree? ==> forall k :: k in a.fields ==> k in c.fields && Covers(c.fields[k], a.fields[k])
  }

  lemma {:induction false} CoversIffAbsorbs(c: Tree, a: Tree)
    ensures Covers(c, a) <==> Merge(a, c) == c
    decreases a
  {
    if a.DictTree? && c.DictTree? {
      var m := Merge(a, c);
      forall k | k in a.fields && k in c.fields
        ensures Covers(c.fields[k], a.fields[k]) <==> m.fields[k] == c.fields[k]
      {
        CoversIffAbsorbs(c.fields[k], a.fields[k]);
      }
      if Covers(c, a) {
        assert m.fields == c.fields;
      }
      if m == c {
        assert m.fields.Keys == c.fields.Keys;
      }
    }
  }

  /**
  The places where the order of merging shows: `a` and `c` hold dicts at a path where `b` holds something else.
  There the middle value cuts `a` off in one order and not in the other, unless `c` covers `a` anyway.
  */
  predicate NoCut(a: Tree, b: Tree, c: Tree)
    decreases b
  {
    if !a.DictTree? || !c.DictTree? then true
    else if !b.DictTree? then Covers(c, a)
    else forall k :: k in a.fields && k in b.fields && k in c.fields ==> NoCut(a.fields[k], b.fields[k], c.fields[k])
  }

  /** Merging three values is associative exactly when no value of `b` cuts `a` off from `c`. */
  lemma {:induction false} AssociativeIff(a: Tree, b: Tree, c: Tree)
    ensures Merge(Merge(a, b), c) == Merge(a, Merge(b, c)) <==> NoCut(a, b, c)
    decreases b
  {
    var left, right := Merge(Merge(a, b), c), Merge(a, Merge(b, c));
    if a.DictTree? && b.DictTree? && c.DictTree? {
      forall k | k in a.fields && k in b.fields && k in c.fields
        ensures left.fields[k] == right.fields[k] <==> NoCut(a.fields[k], b.fields[k], c.fields[k])
      {
        AssociativeIff(a.fields[k], b.fields[k], c.fields[k]);
      }
      assert left.fields.Keys == right.fields.Keys;
      if NoCut(a, b, c) {
        assert left.fields == right.fields;
      }
    } else if a.DictTree? && c.DictTree? {
      CoversIffAbsorbs(c, a);
    }
  }

  /** In particular where `b` holds dicts wherever both `a` and `c` do. */
  predicate DictsBetween(a: Tree, b: Tree, c: Tree)
    decreases b
  {
    a.DictTree? && c.DictTree? ==>
      b.DictTree?
      && forall k :: k in a.fields && k in b.fields && k in c.fields ==>
            DictsBetween(a.fields[k], b.fields[k], c.fields[k])
  }

  lemma {:induction false} AssociativeBetweenDicts(a: Tree, b: Tree, c: Tree)
    requires DictsBetween(a, b, c)
    ensures Merge(Merge(a, b), c) == Merge(a, Merge(b, c))
  {
    BetweenIsNoCut(a, b, c);
    AssociativeIff(a, b, c);
  }

  lemma {:induction false} BetweenIsNoCut(a: Tree, b: Tree, c: Tree)
    requires DictsBetween(a, b, c)
    ensures NoCut(a, b, c)
    decreases b
  {
    if a.DictTree? && c.DictTree? {
      forall k | k in a.fields && k in b.fields && k in c.fields ensures NoCut(a.fields[k], b.fields[k], c.fields[k]) {
        BetweenIsNoCut(a.fields[k], b.fields[k], c.fields[k]);
      }
    }
  }

  /** The counterexample: {x: {p: 1}}, {x: 0}, {x: {}} merge to {x: {}} one way and to {x: {p: 1}} the other. */
  lemma NotAssociative()
    ensures var a, b, c := DictTree(map["x" := DictTree(map["p" := Atom(1)])]),
                           DictTree(map["x" := Atom(0)]), DictTree(map["x" := EMPTY]);
            Merge(Merge(a, b), c) != Merge(a, Merge(b, c))
  {
    var a, b, c := DictTree(map["x" := DictTree(map["p" := Atom(1)])]),
                   DictTree(map["x" := Atom(0)]), DictTree(map["x" := EMPTY]);
    AssociativeIff(a, b, c);
    assert !Covers(EMPTY, a.fields["x"]) by {
      assert "p" in a.fields["x"].fields;
    }
    assert !NoCut(a.fields["x"], b.fields["x"], c.fields["x"]);
  }
}

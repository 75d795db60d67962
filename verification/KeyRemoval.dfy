/**
`DictGenerate.pop_keys_recursive`: removal of keys at every depth of a nested value, as a function on trees with
its laws, and as the in-place and the copying walk over the heap that both compute it.
*/
module KeyRemoval {
  import opened Wrappers
  import opened PyHeap

  /** The keys to remove, and whether case counts; `lower` is `str.lower`. */
  datatype Removal = Removal(keys: set<string>, caseSensitive: bool, lower: string -> string)

  predicate Hit(rm: Removal, k: string): (hit: bool)
    ensures rm.caseSensitive ==> (hit <==> k in rm.keys)
    ensures !rm.caseSensitive ==> (hit <==> exists x :: x in rm.keys && rm.lower(x) == rm.lower(k))
  {
    if rm.caseSensitive then k in rm.keys else rm.lower(k) in (set x | x in rm.keys :: rm.lower(x))
  }

  function Remove(t: Tree, rm: Removal): Tree
    decreases t
  {
    match t
    case Atom(_) => t
    case DictTree(m) => DictTree(map k | k in m && !Hit(rm, k) :: Remove(m[k], rm))
    case SeqTree(frozen, items) => SeqTree(frozen, seq(|items|, i requires 0 <= i < |items| => Remove(items[i], rm)))
  }

  // ---------------------------------------------------------------- laws

  /** The key is none of those to remove, or, where case does not count, none of them up to `lower`. */
  predicate Spared(rm: Removal, k: string) {
    if rm.caseSensitive then k !in rm.keys else forall x :: x in rm.keys ==> rm.lower(x) != rm.lower(k)
  }

  /** No dict at any depth holds a key to remove. */
  predicate Clean(t: Tree, rm: Removal)
    decreases t
  {
    match t
    case Atom(_) => true
    case DictTree(m) => forall k :: k in m ==> Spared(rm, k) && Clean(m[k], rm)
    case SeqTree(_, items) => forall i :: 0 <= i < |items| ==> Clean(items[i], rm)
  }

  lemma {:induction false} RemoveIsClean(t: Tree, rm: Removal)
    ensures Clean(Remove(t, rm), rm)
    decreases t
  {
    match t
    case Atom(_) =>
    case DictTree(m) =>
      forall k | k in m ensures Clean(Remove(m[k], rm), rm) { RemoveIsClean(m[k], rm); }
    case SeqTree(_, items) =>
      forall i | 0 <= i < |items| ensures Clean(Remove(items[i], rm), rm) { RemoveIsClean(items[i], rm); }
  }

  /** Removal leaves a value alone exactly if there is nothing to remove; hence it is idempotent. */
  lemma {:induction false} RemoveFixesClean(t: Tree, rm: Removal)
    ensures Remove(t, rm) == t <==> Clean(t, rm)
    ensures Remove(Remove(t, rm), rm) == Remove(t, rm)
    decreases t
  {
    RemoveIsClean(t, rm);
    CleanIsFixed(Remove(t, rm), rm);
    if Clean(t, rm) {
      CleanIsFixed(t, rm);
    }
  }

  lemma {:induction false} CleanIsFixed(t: Tree, rm: Removal)
    requires Clean(t, rm)
    ensures Remove(t, rm) == t
    decreases t
  {
    match t
    case Atom(_) =>
    case DictTree(m) =>
      forall k | k in m ensures Remove(m[k], rm) == m[k] { CleanIsFixed(m[k], rm); }
      assert Remove(t, rm).fields == m;
    case SeqTree(_, items) =>
      forall i | 0 <= i < |items| ensures Remove(items[i], rm) == items[i] { CleanIsFixed(items[i], rm); }
      assert Remove(t, rm).items == items;
  }

  /** One step into a nested value. */
  datatype Step = Key(k: string) | Index(i: nat)

  function At(t: Tree, path: seq<Step>): Option<Tree>
    decreases |path|
  {
    if path == [] then Some(t)
    else match (path[0], t)
      case (Key(k), DictTree(m)) => if k in m then At(m[k], path[1..]) else None
      case (Index(i), SeqTree(_, items)) => if i < |items| then At(items[i], path[1..]) else None
      case _ => None
  }

  predicate Avoids(path: seq<Step>, rm: Removal) {
    forall i :: 0 <= i < |path| && path[i].Key? ==> Spared(rm, path[i].k)
  }

  /**
  Every path: one that avoids the removed keys leads to the cleaned value it led to before, any other leads
  nowhere.
  */
  lemma {:induction false} RemoveAt(t: Tree, rm: Removal, path: seq<Step>)
    ensures At(Remove(t, rm), path) ==
            if !Avoids(path, rm) then None
            else match At(t, path) case None => None case Some(v) => Some(Remove(v, rm))
    decreases |path|
  {
    if path != [] {
      assert Avoids(path, rm) <==> (path[0].Key? ==> Spared(rm, path[0].k)) && Avoids(path[1..], rm);
      match (path[0], t)
      case (Key(k), DictTree(m)) =>
        if k in m {
          RemoveAt(m[k], rm, path[1..]);
        }
      case (Index(i), SeqTree(_, items)) =>
        if i < |items| {
          RemoveAt(items[i], rm, path[1..]);
        }
      case _ =>
    }
  }

  /**
  What is left of a value, path by path: where case counts a path is cut exactly if one of its keys is to be removed,
  and otherwise exactly if one of its keys has the same lower case as a key to be removed. A path that is not cut leads
  to the same scalar, to a list or tuple of the same length, or to a dict, as it did before.
  */
  ghost predicate PathsCut(before: Tree, after: Tree, keys: set<string>, caseSensitive: bool, lower: string -> string) {
    forall path: seq<Step> ::
      var cut := exists i :: 0 <= i < |path| && path[i].Key?
                             && if caseSensitive then path[i].k in keys
                                else exists x :: x in keys && lower(x) == lower(path[i].k);
      match At(before, path)
      case None => At(after, path) == None
      case Some(v) =>
        match At(after, path)
        case None => cut
        case Some(w) =>
          && !cut && (v.Atom? ==> w == v) && (v.DictTree? ==> w.DictTree?)
          && (v.SeqTree? ==> w.SeqTree? && w.frozen == v.frozen && |w.items| == |v.items|)
  }

  lemma RemoveCutsPaths(t: Tree, rm: Removal)
    ensures PathsCut(t, Remove(t, rm), rm.keys, rm.caseSensitive, rm.lower)
  {
    forall path: seq<Step>
      ensures At(Remove(t, rm), path) ==
              if !Avoids(path, rm) then None
              else match At(t, path) case None => None case Some(v) => Some(Remove(v, rm))
    {
      RemoveAt(t, rm, path);
    }
  }

  /** Removing one set of keys and then another is removing their union. */
  lemma {:induction false} RemoveTwice(t: Tree, a: Removal, b: Removal)
    requires a.caseSensitive == b.caseSensitive && a.lower == b.lower
    ensures Remove(Remove(t, a), b) == Remove(t, a.(keys := a.keys + b.keys))
    decreases t
  {
    var both := a.(keys := a.keys + b.keys);
    forall k ensures Hit(both, k) <==> Hit(a, k) || Hit(b, k) {
      HitUnion(a, b, k);
    }
    match t
    case Atom(_) =>
    case DictTree(m) =>
      forall k | k in m ensures Remove(Remove(m[k], a), b) == Remove(m[k], both) { RemoveTwice(m[k], a, b); }
      assert Remove(Remove(t, a), b).fields == Remove(t, both).fields;
    case SeqTree(_, items) =>
      forall i | 0 <= i < |items| ensures Remove(Remove(items[i], a), b) == Remove(items[i], both) {
        RemoveTwice(items[i], a, b);
      }
      assert Remove(Remove(t, a), b).items == Remove(t, both).items;
  }

  lemma HitUnion(a: Removal, b: Removal, k: string)
    requires a.caseSensitive == b.caseSensitive && a.lower == b.lower
    ensures Hit(a.(keys := a.keys + b.keys), k) <==> Hit(a, k) || Hit(b, k)
  {
    var both := a.(keys := a.keys + b.keys);
    if !a.caseSensitive && Hit(both, k) {
      var x :| x in both.keys && a.lower(x) == a.lower(k);
      assert x in a.keys || x in b.keys;
    }
  }

  // ---------------------------------------------------------------- the walk over the heap

  /** What a walked reference may still own of what it owned before. */
  ghost function Reused(inPlace: bool, before: set<object>): set<object> { if inPlace then before else {} }

  /** Separate values: each is valid and owns objects of its own, none of them `owner`. */
  ghost predicate Row(refs: seq<Ref>, owner: object)
    reads set j, o | 0 <= j < |refs| && o in Cell(refs[j]) :: o
    reads set j, o | 0 <= j < |refs| && o in Footprint(refs[j]) :: o
  {
    && (forall j :: 0 <= j < |refs| ==> Valid(refs[j]) && owner !in Footprint(refs[j]))
    && (forall j, k :: 0 <= j < k < |refs| ==> Footprint(refs[j]) !! Footprint(refs[k]))
  }

  /** The first n trees are cleaned, the others are as given. */
  ghost predicate Cleaned(refs: seq<Ref>, trees: seq<Tree>, n: nat, rm: Removal)
    reads set j, o | 0 <= j < |refs| && o in Cell(refs[j]) :: o
  {
    |refs| == |trees|
    && forall j :: 0 <= j < |refs| ==> TreeOf(refs[j]) == if j < n then Remove(trees[j], rm) else trees[j]
  }

  lemma CleanedLength(refs: seq<Ref>, trees: seq<Tree>, n: nat, rm: Removal)
    requires Cleaned(refs, trees, n, rm)
    ensures |refs| == |trees|
  {}

  lemma CleanedNext(refs: seq<Ref>, trees: seq<Tree>, n: nat, rm: Removal, owner: object)
    requires Cleaned(refs, trees, n, rm) && n < |refs| && Row(refs, owner)
    ensures n < |trees| && TreeOf(refs[n]) == trees[n] && owner !in Footprint(refs[n])
  {}

  /** `_walk`. In place, dicts and lists are edited and returned; otherwise nothing that existed is changed. */
  method Walk(node: Ref, rm: Removal, inPlace: bool) returns (r: Ref)
    requires Valid(node)
    modifies Reused(inPlace, Footprint(node))
    ensures Valid(r) && TreeOf(r) == Remove(old(TreeOf(node)), rm)
    ensures fresh(Footprint(r) - Reused(inPlace, old(Footprint(node))))
    ensures inPlace && (node.DictRef? || (node.SeqRef? && !node.s.frozen)) ==> r == node
    decreases TreeOf(node), 2
  {
    match node {
      case Scalar(_) =>
        return node;
      case DictRef(d) =>
        r := WalkDict(d, rm, inPlace);
      case SeqRef(s) =>
        if !s.frozen && inPlace {
          WalkList(s, rm);
          return node;
        }
        ghost var trees := s.items;
        var row, owned := WalkAll(s, rm, inPlace);
        var out := NewSeq(s.frozen, row, trees, rm, s, owned);
        return SeqRef(out);
    }
  }

  /** One value of a row is walked, the others stay as they are and separate from it. */
  method WalkAt(v: Ref, rm: Removal, inPlace: bool,
                ghost refs: seq<Ref>, ghost i: nat, ghost owner: object, ghost trees: seq<Tree>)
    returns (w: Ref)
    requires i < |refs| && refs[i] == v && Row(refs, owner) && Cleaned(refs, trees, i, rm)
    modifies Reused(inPlace, Footprint(v))
    ensures Row(refs[i := w], owner) && Cleaned(refs[i := w], trees, i + 1, rm)
    ensures fresh(Footprint(w) - Reused(inPlace, old(Footprint(v))))
    ensures inPlace && (v.DictRef? || (v.SeqRef? && !v.s.frozen)) ==> w == v
    ensures forall j :: 0 <= j < |refs| && j != i ==> Footprint(refs[j]) == old(Footprint(refs[j]))
    decreases TreeOf(v), 3
  {
    hide Valid, TreeOf, Cell, Remove;
    forall j | 0 <= j < |refs| ensures Cell(refs[j]) <= Footprint(refs[j]) {
      CellOwned(refs[j]);
    }
    w := Walk(v, rm, inPlace);
    forall j | 0 <= j < |refs| && j != i
      ensures Valid(refs[j]) && TreeOf(refs[j]) == old(TreeOf(refs[j])) && Footprint(refs[j]) == old(Footprint(refs[j]))
      ensures Footprint(refs[j]) !! Footprint(w)
    {
      Untouched(refs[j]);
    }
  }

  /** `node[i] = w`: the values of the row are not concerned. */
  method PutElem(s: PySeq, i: nat, w: Ref, ghost row: seq<Ref>, ghost trees: seq<Tree>, ghost n: nat, rm: Removal)
    requires i < |s.elems| && Row(row, s) && Cleaned(row, trees, n, rm)
    modifies s`elems
    ensures s.elems == old(s.elems)[i := w]
    ensures Row(row, s) && Cleaned(row, trees, n, rm)
    ensures forall j :: 0 <= j < |row| ==> Footprint(row[j]) == old(Footprint(row[j]))
  {
    hide Valid, TreeOf, Cell, Remove;
    forall j | 0 <= j < |row| ensures Cell(row[j]) <= Footprint(row[j]) {
      CellOwned(row[j]);
    }
    s.elems := s.elems[i := w];
    forall j | 0 <= j < |row|
      ensures Valid(row[j]) && TreeOf(row[j]) == old(TreeOf(row[j])) && Footprint(row[j]) == old(Footprint(row[j]))
    {
      Untouched(row[j]);
    }
  }

  /** `node[i] = _walk(v)` for one element. */
  method WalkElem(s: PySeq, i: nat, rm: Removal, ghost trees: seq<Tree>)
    requires i < |s.elems| && Row(s.elems, s) && Cleaned(s.elems, trees, i, rm)
    modifies s`elems, Footprint(s.elems[i])
    ensures |s.elems| == |old(s.elems)| && Row(s.elems, s) && Cleaned(s.elems, trees, i + 1, rm)
    ensures fresh(Footprint(s.elems[i]) - old(Footprint(s.elems[i])))
    ensures forall j :: 0 <= j < |s.elems| && j != i ==> Footprint(s.elems[j]) == old(Footprint(s.elems[j]))
    decreases TreeOf(s.elems[i]), 4
  {
    hide Valid, TreeOf, Cell, Remove, Row, Cleaned;
    ghost var row := s.elems;
    CleanedNext(row, trees, i, rm, s);
    var w := WalkAt(s.elems[i], rm, true, row, i, s, trees);
    PutElem(s, i, w, row[i := w], trees, i + 1, rm);
    forall j | 0 <= j < |row| && j != i ensures Footprint(row[j]) == old(Footprint(row[j])) {
      assert row[i := w][j] == row[j];
    }
  }

  /** `node[i] = _walk(v)` for each element of a list, in place. */
  method WalkList(s: PySeq, rm: Removal)
    requires Valid(SeqRef(s))
    modifies s.Repr
    ensures Valid(SeqRef(s)) && TreeOf(SeqRef(s)) == Remove(old(TreeOf(SeqRef(s))), rm)
    ensures fresh(s.Repr - old(s.Repr))
    decreases TreeOf(SeqRef(s)), 1
  {
    hide Valid, TreeOf, Cell, Remove;
    ghost var trees, own, owned := s.items, s.Repr, {};
    OpenSeq(s);
    SeqFacts(s);
    WholeDecreases(s.frozen, trees);
    for i := 0 to |s.elems|
      invariant |s.elems| == |trees| && s in own && s.Repr == own
      invariant Row(s.elems, s) && Cleaned(s.elems, trees, i, rm)
      invariant fresh(owned - own)
      invariant forall j :: 0 <= j < i ==> Footprint(s.elems[j]) <= owned
      invariant forall j :: i <= j < |trees| ==> Footprint(s.elems[j]) <= own
    {
      ghost var before := Footprint(s.elems[i]);
      assert before <= own;
      WalkElem(s, i, rm, trees);
      assert fresh(Footprint(s.elems[i]) - before);
      owned := owned + Footprint(s.elems[i]);
    }
    SealSeq(s, trees, rm, owned);
    assert s.Repr - own <= owned - own;
  }

  lemma WholeDecreases(frozen: bool, trees: seq<Tree>)
    ensures forall j :: 0 <= j < |trees| ==> (SeqTree(frozen, trees) decreases to trees[j])
  {}

  /** The ghost view of a list whose elements are all walked. */
  ghost method SealSeq(s: PySeq, trees: seq<Tree>, rm: Removal, owned: set<object>)
    requires Row(s.elems, s) && Cleaned(s.elems, trees, |s.elems|, rm)
    requires forall j :: 0 <= j < |s.elems| ==> Footprint(s.elems[j]) <= owned
    modifies s`items, s`Repr
    ensures Valid(SeqRef(s)) && TreeOf(SeqRef(s)) == Remove(SeqTree(s.frozen, trees), rm) && s.Repr == {s} + owned
  {
    hide Valid, TreeOf, Cell, Remove;
    var row := s.elems;
    forall j | 0 <= j < |row| ensures Cell(row[j]) <= Footprint(row[j]) {
      CellOwned(row[j]);
    }
    s.items, s.Repr := seq(|trees|, j requires 0 <= j < |trees| => Remove(trees[j], rm)), {s} + owned;
    forall j | 0 <= j < |row|
      ensures Valid(row[j]) && TreeOf(row[j]) == old(TreeOf(row[j])) && Footprint(row[j]) == old(Footprint(row[j]))
    {
      Untouched(row[j]);
    }
    CloseSeq(s);
    SeqFacts(s);
    RemoveSeq(s.frozen, trees, s.items, rm);
  }

  lemma RemoveSeq(frozen: bool, trees: seq<Tree>, cleaned: seq<Tree>, rm: Removal)
    requires |cleaned| == |trees|
    requires forall j :: 0 <= j < |trees| ==> cleaned[j] == Remove(trees[j], rm)
    ensures Remove(SeqTree(frozen, trees), rm) == SeqTree(frozen, cleaned)
  {
    assert Remove(SeqTree(frozen, trees), rm).items == cleaned;
  }

  /** `[_walk(v) for v in node]`: the walked values in order; `owned` is what they own. */
  method WalkAll(s: PySeq, rm: Removal, inPlace: bool) returns (row: seq<Ref>, ghost owned: set<object>)
    requires Valid(SeqRef(s))
    modifies Reused(inPlace, s.Repr)
    ensures Row(row, s) && Cleaned(row, old(s.items), |row|, rm)
    ensures fresh(owned - Reused(inPlace, old(s.Repr)))
    ensures forall j :: 0 <= j < |row| ==> Footprint(row[j]) <= owned
    decreases TreeOf(SeqRef(s)), 1
  {
    hide Valid, TreeOf, Cell, Remove;
    OpenSeq(s);
    SeqFacts(s);
    ghost var trees, own, frozen := s.items, s.Repr, s.frozen;
    row, owned := s.elems, {};
    for i := 0 to |row|
      invariant |row| == |trees| && Row(row, s) && Cleaned(row, trees, i, rm)
      invariant fresh(owned - Reused(inPlace, own))
      invariant forall j :: 0 <= j < i ==> Footprint(row[j]) <= owned
      invariant forall j :: i <= j < |trees| ==> Footprint(row[j]) <= own
    {
      assert TreeOf(row[i]) == trees[i];
      assert SeqTree(frozen, trees) decreases to trees[i];
      var w := WalkAt(row[i], rm, inPlace, row, i, s, trees);
      row := row[i := w];
      owned := owned + Footprint(w);
    }
  }

  /** A new list or tuple of walked values. */
  method NewSeq(frozen: bool, row: seq<Ref>, ghost trees: seq<Tree>, rm: Removal, ghost owner: object,
                ghost owned: set<object>)
    returns (out: PySeq)
    requires Row(row, owner) && Cleaned(row, trees, |row|, rm)
    requires forall j :: 0 <= j < |row| ==> Footprint(row[j]) <= owned
    ensures Valid(SeqRef(out)) && TreeOf(SeqRef(out)) == Remove(SeqTree(frozen, trees), rm)
    ensures fresh(out) && out.Repr == {out} + owned
  {
    hide Valid, TreeOf, Cell;
    forall j | 0 <= j < |row| ensures Cell(row[j]) <= Footprint(row[j]) {
      CellOwned(row[j]);
    }
    out := new PySeq(frozen);
    out.elems := row;
    forall j | 0 <= j < |row|
      ensures Valid(row[j]) && TreeOf(row[j]) == old(TreeOf(row[j])) && Footprint(row[j]) == old(Footprint(row[j]))
    {
      Untouched(row[j]);
    }
    SealSeq(out, trees, rm, owned);
  }

  /** `list(d.keys())` */
  method InOrder(s: set<string>) returns (keys: seq<string>)
    ensures forall k :: k in keys <==> k in s
    ensures forall i, j :: 0 <= i < j < |keys| ==> keys[i] != keys[j]
  {
    keys := [];
    var todo := s;
    while todo != {}
      invariant todo <= s && forall k :: k in keys <==> k in s - todo
      invariant forall i, j :: 0 <= i < j < |keys| ==> keys[i] != keys[j]
      decreases |todo|
    {
      var k :| k in todo;
      ghost var taken := keys;
      keys := keys + [k];
      todo := todo - {k};
      assert forall x :: x in keys <==> x in taken || x == k;
    }
  }

  /** The ghost view of a dict that holds separate values. */
  ghost method SealDict(r: PyDict, keys: seq<string>, row: seq<Ref>, fields: map<string, Tree>, owned: set<object>)
    requires |keys| == |row| && Row(row, r)
    requires forall k :: k in keys <==> k in r.entries
    requires r.entries.Keys == fields.Keys
    requires forall i, j :: 0 <= i < j < |keys| ==> keys[i] != keys[j]
    requires forall j :: 0 <= j < |row| ==> r.entries[keys[j]] == row[j] && TreeOf(row[j]) == fields[keys[j]]
    requires forall j :: 0 <= j < |row| ==> Footprint(row[j]) <= owned
    modifies r`fields, r`Repr
    ensures Valid(DictRef(r)) && r.fields == fields && r.Repr == {r} + owned
  {
    hide Valid, TreeOf, Cell;
    forall j | 0 <= j < |row| ensures Cell(row[j]) <= Footprint(row[j]) {
      CellOwned(row[j]);
    }
    r.fields, r.Repr := fields, {r} + owned;
    forall j | 0 <= j < |row|
      ensures Valid(row[j]) && TreeOf(row[j]) == old(TreeOf(row[j])) && Footprint(row[j]) == old(Footprint(row[j]))
    {
      Untouched(row[j]);
    }
    forall k | k in r.entries
      ensures exists j :: 0 <= j < |keys| && keys[j] == k && r.entries[k] == row[j]
    {
      var j :| 0 <= j < |keys| && keys[j] == k;
    }
    CloseDict(r);
  }

  /** `d[k] = w`: the values of the row are not concerned. */
  method PutEntry(r: PyDict, k: string, w: Ref, ghost row: seq<Ref>, ghost trees: seq<Tree>, ghost n: nat, rm: Removal)
    requires Row(row, r) && Cleaned(row, trees, n, rm)
    modifies r`entries
    ensures r.entries == old(r.entries)[k := w]
    ensures Row(row, r) && Cleaned(row, trees, n, rm)
    ensures forall j :: 0 <= j < |row| ==> Footprint(row[j]) == old(Footprint(row[j]))
  {
    hide Valid, TreeOf, Cell, Remove;
    forall j | 0 <= j < |row| ensures Cell(row[j]) <= Footprint(row[j]) {
      CellOwned(row[j]);
    }
    r.entries := r.entries[k := w];
    forall j | 0 <= j < |row|
      ensures Valid(row[j]) && TreeOf(row[j]) == old(TreeOf(row[j])) && Footprint(row[j]) == old(Footprint(row[j]))
    {
      Untouched(row[j]);
    }
  }

  /** `d[k] = _walk(v)` for one key. */
  method WalkKey(r: PyDict, k: string, rm: Removal, inPlace: bool,
                 ghost row: seq<Ref>, ghost i: nat, ghost trees: seq<Tree>)
    returns (ghost w: Ref)
    requires k in r.entries && i < |row| && r.entries[k] == row[i] && Row(row, r) && Cleaned(row, trees, i, rm)
    modifies r`entries, Reused(inPlace, Footprint(row[i]))
    ensures r.entries == old(r.entries)[k := w]
    ensures Row(row[i := w], r) && Cleaned(row[i := w], trees, i + 1, rm)
    ensures fresh(Footprint(w) - Reused(inPlace, old(Footprint(row[i]))))
    ensures forall j :: 0 <= j < |row| && j != i ==> Footprint(row[j]) == old(Footprint(row[j]))
    decreases TreeOf(row[i]), 4
  {
    hide Valid, TreeOf, Cell, Remove, Row, Cleaned;
    CleanedNext(row, trees, i, rm, r);
    var walked := WalkAt(r.entries[k], rm, inPlace, row, i, r, trees);
    PutEntry(r, k, walked, row[i := walked], trees, i + 1, rm);
    w := walked;
    forall j | 0 <= j < |row| && j != i ensures Footprint(row[j]) == old(Footprint(row[j])) {
      assert row[i := walked][j] == row[j];
    }
  }

  /** The dict holds the row under the keys. */
  ghost predicate Keyed(entries: map<string, Ref>, keys: seq<string>, row: seq<Ref>) {
    |row| == |keys| && forall j :: 0 <= j < |keys| ==> keys[j] in entries && entries[keys[j]] == row[j]
  }

  lemma KeyedUpdate(entries: map<string, Ref>, keys: seq<string>, row: seq<Ref>, i: nat, w: Ref)
    requires i < |keys| && Keyed(entries, keys, row)
    requires forall i, j :: 0 <= i < j < |keys| ==> keys[i] != keys[j]
    ensures keys[i] in entries && entries[keys[i]] == row[i]
    ensures Keyed(entries[keys[i] := w], keys, row[i := w]) && entries[keys[i] := w].Keys == entries.Keys
  {}

  /** `d[k] = _walk(v)` for the keys of a dict, over values that are separate. */
  method WalkEntries(r: PyDict, keys: seq<string>, rm: Removal, inPlace: bool,
                     ghost values: seq<Ref>, ghost trees: seq<Tree>, ghost whole: Tree, ghost own: set<object>)
    returns (ghost row: seq<Ref>, ghost owned: set<object>)
    requires |keys| == |values| && Keyed(r.entries, keys, values) && Row(values, r) && Cleaned(values, trees, 0, rm)
    requires forall j :: 0 <= j < |trees| ==> (whole decreases to trees[j])
    requires forall i, j :: 0 <= i < j < |keys| ==> keys[i] != keys[j]
    requires forall j :: 0 <= j < |values| ==> Footprint(values[j]) <= own
    modifies r`entries, Reused(inPlace, own)
    ensures |row| == |keys| && Keyed(r.entries, keys, row) && Row(row, r) && Cleaned(row, trees, |row|, rm)
    ensures r.entries.Keys == old(r.entries).Keys
    ensures fresh(owned - Reused(inPlace, own))
    ensures forall j :: 0 <= j < |row| ==> Footprint(row[j]) <= owned
    decreases whole, 0, 0
  {
    hide Valid, TreeOf, Cell, Remove, Row, Cleaned, Keyed;
    row, owned := values, {};
    ghost var reuse := Reused(inPlace, own);
    CleanedLength(row, trees, 0, rm);
    for i := 0 to |keys|
      invariant |row| == |trees| == |keys| && Row(row, r) && Cleaned(row, trees, i, rm)
      invariant r.entries.Keys == old(r.entries).Keys && Keyed(r.entries, keys, row)
      invariant fresh(owned - reuse)
      invariant forall j :: 0 <= j < i ==> Footprint(row[j]) <= owned
      invariant forall j :: i <= j < |row| ==> Footprint(row[j]) <= own
    {
      CleanedNext(row, trees, i, rm, r);
      ghost var before := Reused(inPlace, Footprint(row[i]));
      assert before <= reuse;
      KeyedUpdate(r.entries, keys, row, i, row[i]);
      ghost var was := r.entries;
      ghost var w := WalkKey(r, keys[i], rm, inPlace, row, i, trees);
      KeyedUpdate(was, keys, row, i, w);
      assert fresh(Footprint(w) - before);
      row := row[i := w];
      owned := owned + Footprint(w);
    }
  }

  /** The dict, or its shallow copy (`dict(node)`), with the hit keys popped. */
  method Prune(d: PyDict, rm: Removal, inPlace: bool) returns (out: PyDict)
    requires Valid(DictRef(d))
    modifies if inPlace then {d} else {}
    ensures if inPlace then out == d else fresh(out)
    ensures out.entries == map k | k in old(d.entries) && Spared(rm, k) :: old(d.entries)[k]
    ensures Separate(out.entries, old(d.fields), old(d.Repr), out)
  {
    hide Valid, TreeOf, Cell, Hit, Separate;
    OpenDict(d);
    ghost var e0, fields, own := d.entries, d.fields, d.Repr;
    out := d;
    if !inPlace {
      out := new PyDict();
      out.entries := d.entries;
    }
    var toDelete := set k | k in out.entries && Hit(rm, k);
    out.entries := out.entries - toDelete;
    forall k | k in e0
      ensures Valid(e0[k]) && TreeOf(e0[k]) == old(TreeOf(e0[k])) && Footprint(e0[k]) == old(Footprint(e0[k]))
    {
      Untouched(e0[k]);
    }
    SeparatePart(e0, out.entries, fields, own, out);
  }

  /** Some of the separate values. */
  lemma SeparatePart(all: map<string, Ref>, part: map<string, Ref>, fields: map<string, Tree>, own: set<object>,
                     owner: object)
    requires forall k :: k in all ==> k in fields && Valid(all[k]) && TreeOf(all[k]) == fields[k]
    requires forall k :: k in all ==> Footprint(all[k]) <= own && owner !in Footprint(all[k])
    requires forall j, k :: (j in all && k in all && j != k) ==> Footprint(all[j]) !! Footprint(all[k])
    requires forall k :: k in part ==> k in all && part[k] == all[k]
    ensures Separate(part, fields, own, owner)
  {
    hide Valid, TreeOf, Cell, Footprint;
  }

  /**
  The values under the keys are valid, hold the given trees, and own separate parts of `own`, none of them `owner`.
  */
  ghost predicate Separate(entries: map<string, Ref>, fields: map<string, Tree>, own: set<object>, owner: object)
    reads set k, o | k in entries && o in Cell(entries[k]) :: o
    reads set k, o | k in entries && o in Footprint(entries[k]) :: o
  {
    && (forall k :: k in entries ==> k in fields && Valid(entries[k]) && TreeOf(entries[k]) == fields[k])
    && (forall k :: k in entries ==> Footprint(entries[k]) <= own && owner !in Footprint(entries[k]))
    && (forall j, k :: (j in entries && k in entries && j != k) ==> Footprint(entries[j]) !! Footprint(entries[k]))
  }

  /** The same values in a row. */
  lemma RowOfEntries(entries: map<string, Ref>, fields: map<string, Tree>, own: set<object>, owner: object,
                     keys: seq<string>, rm: Removal)
    returns (values: seq<Ref>, trees: seq<Tree>)
    requires Separate(entries, fields, own, owner)
    requires forall k :: k in keys <==> k in entries
    requires forall i, j :: 0 <= i < j < |keys| ==> keys[i] != keys[j]
    ensures |values| == |keys| == |trees|
    ensures forall j :: 0 <= j < |keys| ==>
              keys[j] in fields && entries[keys[j]] == values[j] && trees[j] == fields[keys[j]]
    ensures Row(values, owner) && Cleaned(values, trees, 0, rm)
    ensures forall j :: 0 <= j < |values| ==> Footprint(values[j]) <= own
  {
    hide Valid, Footprint, TreeOf, Cell;
    values := seq(|keys|, j requires 0 <= j < |keys| => entries[keys[j]]);
    trees := seq(|keys|, j requires 0 <= j < |keys| => fields[keys[j]]);
  }

  /** The dict case of `_walk`: the hit keys are popped, then every remaining value is walked. */
  method WalkDict(d: PyDict, rm: Removal, inPlace: bool) returns (r: Ref)
    requires Valid(DictRef(d))
    modifies Reused(inPlace, d.Repr)
    ensures Valid(r) && TreeOf(r) == Remove(old(TreeOf(DictRef(d))), rm)
    ensures fresh(Footprint(r) - Reused(inPlace, old(d.Repr)))
    ensures inPlace ==> r == DictRef(d)
    decreases TreeOf(DictRef(d)), 1
  {
    hide Valid, TreeOf, Cell, Remove, Separate, Hit, Footprint;
    OpenDict(d);
    DictFacts(d);
    ghost var fields, own := d.fields, d.Repr;
    var out := Prune(d, rm, inPlace);
    var keys := InOrder(out.entries.Keys);
    WalkKept(out, keys, rm, inPlace, fields, own);
    RemoveDict(fields, out.fields, rm);
    DictFacts(out);
    assert out.Repr - Reused(inPlace, own)
        <= (out.Repr - {out} - Reused(inPlace, own)) + (if inPlace then {} else {out});
    return DictRef(out);
  }

  /** Every value of the pruned dict is walked. */
  method WalkKept(out: PyDict, keys: seq<string>, rm: Removal, inPlace: bool,
                  ghost fields: map<string, Tree>, ghost own: set<object>)
    requires Separate(out.entries, fields, own, out)
    requires forall k :: k in keys <==> k in out.entries
    requires forall i, j :: 0 <= i < j < |keys| ==> keys[i] != keys[j]
    modifies out, Reused(inPlace, own)
    ensures Valid(DictRef(out)) && out.fields.Keys == old(out.entries).Keys
    ensures forall k :: k in out.fields ==> k in fields && out.fields[k] == Remove(fields[k], rm)
    ensures fresh(out.Repr - {out} - Reused(inPlace, own))
    decreases DictTree(fields), 0
  {
    hide Valid, TreeOf, Cell, Row, Cleaned, Remove, Separate, Footprint;
    ghost var values, trees := RowOfEntries(out.entries, fields, own, out, keys, rm);
    DictDecreases(fields);
    ghost var row, owned := WalkEntries(out, keys, rm, inPlace, values, trees, DictTree(fields), own);
    ghost var cleaned := map k | k in out.entries.Keys :: Remove(fields[k], rm);
    CleanedAll(row, trees, rm);
    SealDict(out, keys, row, cleaned, owned);
  }

  lemma DictDecreases(fields: map<string, Tree>)
    ensures forall k :: k in fields ==> (DictTree(fields) decreases to fields[k])
  {}

  lemma CleanedAll(refs: seq<Ref>, trees: seq<Tree>, rm: Removal)
    requires Cleaned(refs, trees, |refs|, rm)
    ensures |refs| == |trees| && forall j :: 0 <= j < |refs| ==> TreeOf(refs[j]) == Remove(trees[j], rm)
  {}

  lemma RemoveDict(fields: map<string, Tree>, cleaned: map<string, Tree>, rm: Removal)
    requires cleaned.Keys == set k | k in fields && !Hit(rm, k)
    requires forall k :: k in cleaned ==> k in fields && cleaned[k] == Remove(fields[k], rm)
    ensures Remove(DictTree(fields), rm) == DictTree(cleaned)
  {
    assert Remove(DictTree(fields), rm).fields == cleaned;
  }

  /**
  `pop_keys_recursive`: the same value in both modes. In place, a dict or list is returned itself; otherwise the
  result shares nothing with the argument, which keeps its value.
  */
  method PopKeysRecursive(obj: Ref, keysToRemove: set<string>, caseSensitive: bool, lower: string -> string,
                          inPlace: bool)
    returns (r: Ref)
    requires Valid(obj)
    modifies Reused(inPlace, Footprint(obj))
    ensures Valid(r) && TreeOf(r) == Remove(old(TreeOf(obj)), Removal(keysToRemove, caseSensitive, lower))
    ensures PathsCut(old(TreeOf(obj)), TreeOf(r), keysToRemove, caseSensitive, lower)
    ensures inPlace && (obj.DictRef? || (obj.SeqRef? && !obj.s.frozen)) ==> r == obj
    ensures !inPlace ==> fresh(Footprint(r)) && Valid(obj) && TreeOf(obj) == old(TreeOf(obj))
  {
    hide Valid, TreeOf, Remove, PathsCut;
    CellOwned(obj);
    RemoveCutsPaths(TreeOf(obj), Removal(keysToRemove, caseSensitive, lower));
    label before:
    r := Walk(obj, Removal(keysToRemove, caseSensitive, lower), inPlace);
    if !inPlace {
      Untouched@before(obj);
    }
  }
}

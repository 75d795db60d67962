/**
Python's containers as the modelled code meets them: values as trees, and a heap of dicts, lists and tuples
that holds such a tree when it is tree-shaped.
*/
module PyHeap {
  /** A nested value; `frozen` tells a tuple from a list. */
  datatype Tree =
    | Atom(value: int)
    | DictTree(fields: map<string, Tree>)
    | SeqTree(frozen: bool, items: seq<Tree>)

  datatype Ref = Scalar(value: int) | DictRef(d: PyDict) | SeqRef(s: PySeq)

  class PyDict {
    var entries: map<string, Ref>
    ghost var fields: map<string, Tree>
    ghost var Repr: set<object>

    /** `{}` */
    constructor ()
      ensures entries == map[] && fields == map[] && Repr == {this}
      ensures Valid(DictRef(this))
    {
      entries, fields, Repr := map[], map[], {this};
    }
  }

  /** A list, or a tuple if frozen. */
  class PySeq {
    const frozen: bool
    var elems: seq<Ref>
    ghost var items: seq<Tree>
    ghost var Repr: set<object>

    constructor (frozen: bool)
      ensures this.frozen == frozen && elems == [] && items == [] && Repr == {this}
      ensures Valid(SeqRef(this))
    {
      this.frozen := frozen;
      elems, items, Repr := [], [], {this};
    }
  }

  /** The object a reference points to. */
  ghost function Cell(r: Ref): set<object> {
    match r
    case Scalar(_) => {}
    case DictRef(d) => {d}
    case SeqRef(s) => {s}
  }

  /** The objects a reference owns. */
  ghost function Footprint(r: Ref): set<object>
    reads Cell(r)
  {
    match r
    case Scalar(_) => {}
    case DictRef(d) => d.Repr
    case SeqRef(s) => s.Repr
  }

  ghost function TreeOf(r: Ref): Tree
    reads Cell(r)
  {
    match r
    case Scalar(v) => Atom(v)
    case DictRef(d) => DictTree(d.fields)
    case SeqRef(s) => SeqTree(s.frozen, s.items)
  }

  /** The reference holds a tree, and nothing in it is shared. */
  ghost predicate Valid(r: Ref)
    reads Cell(r), Footprint(r)
    decreases Footprint(r)
  {
    match r
    case Scalar(_) => true
    case DictRef(d) =>
      && d in d.Repr
      && d.entries.Keys == d.fields.Keys
      && (forall k :: k in d.entries ==> Cell(d.entries[k]) <= d.Repr - {d})
      && (forall k :: k in d.entries ==> Footprint(d.entries[k]) <= d.Repr - {d})
      && (forall k :: k in d.entries ==> Valid(d.entries[k]) && TreeOf(d.entries[k]) == d.fields[k])
      && (forall j, k :: j in d.entries && k in d.entries && j != k
            ==> Footprint(d.entries[j]) !! Footprint(d.entries[k]))
    case SeqRef(s) =>
      && s in s.Repr
      && |s.elems| == |s.items|
      && (forall i :: 0 <= i < |s.elems| ==> Cell(s.elems[i]) <= s.Repr - {s})
      && (forall i :: 0 <= i < |s.elems| ==> Footprint(s.elems[i]) <= s.Repr - {s})
      && (forall i :: 0 <= i < |s.elems| ==> Valid(s.elems[i]) && TreeOf(s.elems[i]) == s.items[i])
      && (forall i, j :: 0 <= i < j < |s.elems| ==> Footprint(s.elems[i]) !! Footprint(s.elems[j]))
  }

  /** What validity says of a dict's entries, one level deep. */
  lemma OpenDict(d: PyDict)
    requires Valid(DictRef(d))
    ensures d in d.Repr && d.entries.Keys == d.fields.Keys
    ensures forall k :: k in d.entries ==> Cell(d.entries[k]) <= Footprint(d.entries[k])
    ensures forall k :: k in d.entries ==> Footprint(d.entries[k]) <= d.Repr - {d}
    ensures forall k :: k in d.entries ==> Valid(d.entries[k]) && TreeOf(d.entries[k]) == d.fields[k]
    ensures forall j, k :: (j in d.entries && k in d.entries && j != k) ==>
              Footprint(d.entries[j]) !! Footprint(d.entries[k])
  {}

  lemma CloseDict(d: PyDict)
    requires d in d.Repr && d.entries.Keys == d.fields.Keys
    requires forall k :: k in d.entries ==> Cell(d.entries[k]) <= Footprint(d.entries[k])
    requires forall k :: k in d.entries ==> Footprint(d.entries[k]) <= d.Repr - {d}
    requires forall k :: k in d.entries ==> Valid(d.entries[k]) && TreeOf(d.entries[k]) == d.fields[k]
    requires forall j, k :: (j in d.entries && k in d.entries && j != k) ==>
              Footprint(d.entries[j]) !! Footprint(d.entries[k])
    ensures Valid(DictRef(d))
  {}

  lemma DictFacts(d: PyDict)
    ensures Cell(DictRef(d)) == {d} && Footprint(DictRef(d)) == d.Repr && TreeOf(DictRef(d)) == DictTree(d.fields)
  {}

  /** A reference whose objects are untouched is as it was. */
  twostate lemma Untouched(r: Ref)
    requires old(Valid(r)) && old(Cell(r) <= Footprint(r))
    requires unchanged(old(Footprint(r)))
    ensures Valid(r) && Footprint(r) == old(Footprint(r)) && TreeOf(r) == old(TreeOf(r))
  {
    hide *;
  }

  /** The same for a dict, with what it owns below each key. */
  twostate lemma UntouchedDict(d: PyDict)
    requires old(Valid(DictRef(d))) && unchanged(old(d.Repr))
    ensures Valid(DictRef(d)) && d.Repr == old(d.Repr)
    ensures d.entries == old(d.entries) && d.fields == old(d.fields)
    ensures forall k :: k in d.entries ==> Footprint(d.entries[k]) == old(Footprint(d.entries[k]))
  {
    forall k | k in d.entries ensures Footprint(d.entries[k]) == old(Footprint(d.entries[k])) {
    }
  }

  /** What validity says of a list or tuple, one level deep. */
  lemma OpenSeq(s: PySeq)
    requires Valid(SeqRef(s))
    ensures s in s.Repr && |s.elems| == |s.items|
    ensures forall i :: 0 <= i < |s.elems| ==> Cell(s.elems[i]) <= Footprint(s.elems[i])
    ensures forall i :: 0 <= i < |s.elems| ==> Footprint(s.elems[i]) <= s.Repr - {s}
    ensures forall i :: 0 <= i < |s.elems| ==> Valid(s.elems[i]) && TreeOf(s.elems[i]) == s.items[i]
    ensures forall i, j :: 0 <= i < j < |s.elems| ==> Footprint(s.elems[i]) !! Footprint(s.elems[j])
  {}

  lemma CloseSeq(s: PySeq)
    requires s in s.Repr && |s.elems| == |s.items|
    requires forall i :: 0 <= i < |s.elems| ==> Cell(s.elems[i]) <= Footprint(s.elems[i])
    requires forall i :: 0 <= i < |s.elems| ==> Footprint(s.elems[i]) <= s.Repr - {s}
    requires forall i :: 0 <= i < |s.elems| ==> Valid(s.elems[i]) && TreeOf(s.elems[i]) == s.items[i]
    requires forall i, j :: 0 <= i < j < |s.elems| ==> Footprint(s.elems[i]) !! Footprint(s.elems[j])
    ensures Valid(SeqRef(s))
  {}

  lemma SeqFacts(s: PySeq)
    ensures Cell(SeqRef(s)) == {s} && Footprint(SeqRef(s)) == s.Repr && TreeOf(SeqRef(s)) == SeqTree(s.frozen, s.items)
  {}

  lemma CellOwned(r: Ref)
    requires Valid(r)
    ensures Cell(r) <= Footprint(r)
  {}
}

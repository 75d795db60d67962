/**
`ConfigApplier._deep_merge` on the heap, and the merge of trees it computes.
*/
module ConfigMerge {
  import opened PyHeap

  // ---------------------------------------------------------------- merge of trees

  /** What a merged key holds: two dicts merge, anything else is replaced by the source's value. */
  function Merge(t: Tree, s: Tree): Tree
    decreases s
  {
    if t.DictTree? && s.DictTree? then
      DictTree(map k | k in t.fields.Keys + s.fields.Keys ::
                 if k !in s.fields then t.fields[k]
                 else if k in t.fields then Merge(t.fields[k], s.fields[k])
                 else s.fields[k])
    else s
  }

  /** The merge after only the source keys in `done`. */
  ghost function MergeOn(t: map<string, Tree>, s: map<string, Tree>, done: set<string>): map<string, Tree>
    requires done <= s.Keys
  {
    map k | k in t.Keys + done ::
      if k !in done then t[k]
      else if k in t then Merge(t[k], s[k])
      else s[k]
  }

  lemma MergeOnEnds(t: map<string, Tree>, s: map<string, Tree>)
    ensures MergeOn(t, s, {}) == t
    ensures DictTree(MergeOn(t, s, s.Keys)) == Merge(DictTree(t), DictTree(s))
  {}

  lemma MergeOnStep(t: map<string, Tree>, s: map<string, Tree>, done: set<string>, key: string)
    requires done <= s.Keys && key in s.Keys - done
    ensures key in MergeOn(t, s, done) <==> key in t
    ensures key in t ==> MergeOn(t, s, done)[key] == t[key]
    ensures MergeOn(t, s, done + {key})
         == MergeOn(t, s, done)[key := if key in t then Merge(t[key], s[key]) else s[key]]
  {}

  // ---------------------------------------------------------------- the heap

  /** Which object ends up under a key: a merged dict stays the target's, anything else is the source's own object. */
  function KeptRef(was: map<string, Ref>, key: string, value: Ref): Ref {
    if value.DictRef? && key in was && was[key].DictRef? then was[key] else value
  }

  /** The target's references once the source keys in `done` are merged. */
  function EntriesOn(was: map<string, Ref>, s: map<string, Ref>, done: set<string>): map<string, Ref>
    requires done <= s.Keys
  {
    map k | k in was.Keys + done :: if k in done then KeptRef(was, k, s[k]) else was[k]
  }

  lemma EntriesOnStep(was: map<string, Ref>, s: map<string, Ref>, done: set<string>, key: string)
    requires done <= s.Keys && key in s.Keys - done
    ensures EntriesOn(was, s, done + {key})
         == EntriesOn(was, s, done)[key := KeptRef(EntriesOn(was, s, done), key, s[key])]
  {}

  lemma EntriesAre(was: map<string, Ref>, s: map<string, Ref>)
    ensures var r := EntriesOn(was, s, s.Keys);
            && r.Keys == was.Keys + s.Keys && (forall k :: k in was && k !in s ==> r[k] == was[k])
            && forall k :: k in s ==>
                 r[k] == if s[k].DictRef? && k in was && was[k].DictRef? then was[k] else s[k]
  {}

  lemma EntriesOnStart(was: map<string, Ref>, s: map<string, Ref>)
    ensures EntriesOn(was, s, {}) == was
  {}

  method SetEntry(target: PyDict, key: string, value: Ref)
    requires Valid(DictRef(target)) && Valid(value) && Cell(value) <= Footprint(value)
    requires target !in Footprint(value)
    requires forall k :: k in target.entries && k != key ==> Footprint(target.entries[k]) !! Footprint(value)
    modifies target
    ensures Valid(DictRef(target))
    ensures target.entries == old(target.entries)[key := value]
    ensures target.fields == old(target.fields)[key := TreeOf(value)]
    ensures target.Repr == old(target.Repr) + Footprint(value)
    ensures Footprint(value) == old(Footprint(value)) && TreeOf(value) == old(TreeOf(value))
    ensures forall k :: k in target.entries && k != key ==>
              Footprint(target.entries[k]) == old(Footprint(target.entries[k]))
  {
    hide *;
    OpenDict(target);
    ghost var was := target.entries;
    target.entries := target.entries[key := value];
    target.fields := target.fields[key := TreeOf(value)];
    target.Repr := target.Repr + Footprint(value);
    Untouched(value);
    forall k | k in was
      ensures Valid(was[k]) && Footprint(was[k]) == old(Footprint(was[k])) && TreeOf(was[k]) == old(TreeOf(was[k]))
    {
      Untouched(was[k]);
    }
    CloseDict(target);
  }

  method MergeChild(target: PyDict, key: string, child: PyDict, value: PyDict)
    requires Valid(DictRef(target)) && Valid(DictRef(value))
    requires key in target.entries && target.entries[key] == DictRef(child)
    requires forall k :: k in target.entries ==> Footprint(target.entries[k]) !! value.Repr
    requires target !in value.Repr
    modifies target, child.Repr
    ensures Valid(DictRef(target))
    ensures target.entries == old(target.entries)
    ensures target.fields == old(target.fields)[key := Merge(old(TreeOf(DictRef(child))), old(TreeOf(DictRef(value))))]
    ensures target.Repr == old(target.Repr) + value.Repr
    ensures child.Repr <= old(child.Repr) + value.Repr
    ensures forall k :: k in target.entries && k != key ==>
              Footprint(target.entries[k]) == old(Footprint(target.entries[k]))
    decreases TreeOf(DictRef(value)), 3
  {
    hide *;
    OpenDict(target);
    ghost var was := target.entries;
    DictFacts(child);
    DictFacts(value);
    assert Footprint(was[key]) == child.Repr;
    DeepMerge(child, value);
    DictFacts(child);
    OpenDict(child);
    forall k | k in was && k != key
      ensures Valid(was[k]) && Footprint(was[k]) == old(Footprint(was[k])) && TreeOf(was[k]) == old(TreeOf(was[k]))
    {
      assert Footprint(was[k]) !! Footprint(was[key]);
      Untouched(was[k]);
    }
    AdoptChild(target, key, value.Repr);
  }

  /** The ghost view of a dict, one of whose children has grown. */
  ghost method AdoptChild(target: PyDict, key: string, extra: set<object>)
    requires target in target.Repr && target !in extra && target.entries.Keys == target.fields.Keys
              && key in target.entries
    requires forall k :: k in target.entries ==> Cell(target.entries[k]) <= Footprint(target.entries[k])
    requires forall k :: k in target.entries ==> Footprint(target.entries[k]) <= target.Repr + extra - {target}
    requires forall k :: k in target.entries ==> Valid(target.entries[k])
    requires forall k :: k in target.entries && k != key ==> TreeOf(target.entries[k]) == target.fields[k]
    requires forall j, k :: (j in target.entries && k in target.entries && j != k) ==>
              Footprint(target.entries[j]) !! Footprint(target.entries[k])
    modifies target`fields, target`Repr
    ensures Valid(DictRef(target))
    ensures target.fields == old(target.fields)[key := old(TreeOf(target.entries[key]))]
    ensures target.Repr == old(target.Repr) + extra
    ensures forall k :: k in target.entries ==> Footprint(target.entries[k]) == old(Footprint(target.entries[k]))
  {
    hide *;
    ghost var was := target.entries;
    target.fields := target.fields[key := TreeOf(was[key])];
    target.Repr := target.Repr + extra;
    forall k | k in was
      ensures Valid(was[k]) && Footprint(was[k]) == old(Footprint(was[k])) && TreeOf(was[k]) == old(TreeOf(was[k]))
    {
      Untouched(was[k]);
    }
    CloseDict(target);
  }

  lemma MergeLeaf(t: Ref, s: Ref)
    requires !(t.DictRef? && s.DictRef?)
    ensures Merge(TreeOf(t), TreeOf(s)) == TreeOf(s)
  {}

  /** One round of the loop of `_deep_merge`. */
  method MergeKey(target: PyDict, key: string, value: Ref)
    requires Valid(DictRef(target)) && Valid(value) && Cell(value) <= Footprint(value)
    requires target !in Footprint(value)
    requires forall k :: k in target.entries ==> Footprint(target.entries[k]) !! Footprint(value)
    modifies target, if key in target.entries then Footprint(target.entries[key]) else {}
    ensures Valid(DictRef(target))
    ensures target.fields == old(target.fields)[key :=
              if key in old(target.fields) then Merge(old(target.fields)[key], old(TreeOf(value)))
                  else old(TreeOf(value))]
    ensures target.Repr == old(target.Repr) + old(Footprint(value))
    ensures target.entries == old(target.entries)[key := KeptRef(old(target.entries), key, value)]
    ensures forall k :: k in old(target.entries) && k != key ==>
              Footprint(target.entries[k]) == old(Footprint(target.entries[k]))
    ensures Footprint(target.entries[key]) <=
              old(if key in target.entries then Footprint(target.entries[key]) else {}) + old(Footprint(value))
    decreases TreeOf(value), 4
  {
    hide Valid, Footprint, TreeOf, Cell, Merge;
    OpenDict(target);
    ghost var was := target.entries;
    if value.DictRef? && key in target.entries && target.entries[key].DictRef? {
      DictFacts(value.d);
      DictFacts(target.entries[key].d);
      MergeChild(target, key, target.entries[key].d, value.d);
      DictFacts(target.entries[key].d);
    } else {
      if key in was {
        MergeLeaf(was[key], value);
      }
      SetEntry(target, key, value);
    }
  }

  /** The objects that may stand below a key of the target while the keys in `todo` are still to come. */
  ghost function Allowed(own: set<object>, feet: map<string, set<object>>, todo: set<string>, k: string): set<object> {
    own + if k in feet && k !in todo then feet[k] else {}
  }

  lemma AllowedStep(own: set<object>, feet: map<string, set<object>>, todo: set<string>, key: string, k: string)
    requires key in todo && key in feet
    ensures Allowed(own, feet, todo, key) == own
    ensures Allowed(own, feet, todo - {key}, key) == own + feet[key]
    ensures k != key ==> Allowed(own, feet, todo - {key}, k) == Allowed(own, feet, todo, k)
    ensures feet[key] !! own && (k in feet && k != key ==> feet[k] !! feet[key]) ==>
              Allowed(own, feet, todo, k) !! feet[key]
  {}

  /** What stands below the keys while the loop of `_deep_merge` runs: `own` is the target's initial footprint. */
  ghost predicate Midway(target: PyDict, source: PyDict, own: set<object>, feet: map<string, set<object>>,
                         todo: set<string>)
    reads target, target.Repr, source, source.Repr
  {
    && target in own && own !! source.Repr && todo <= source.entries.Keys == feet.Keys
    && (forall k :: k in source.entries ==> Cell(source.entries[k]) <= source.Repr)
    && (forall k :: k in source.entries ==> Footprint(source.entries[k]) == feet[k])
    && (forall k :: k in target.entries ==> Cell(target.entries[k]) <= target.Repr)
    && (forall k :: k in target.entries ==> Footprint(target.entries[k]) <= Allowed(own, feet, todo, k))
  }

  ghost function Feet(d: PyDict): map<string, set<object>>
    requires Valid(DictRef(d))
    reads d, d.Repr
  {
    map k | k in d.entries :: Footprint(d.entries[k])
  }

  /** A round meets the demands of MergeKey, which changes nothing outside the target's own objects. */
  lemma RoundReady(target: PyDict, source: PyDict, own: set<object>, feet: map<string, set<object>>,
                   todo: set<string>, key: string)
    requires Valid(DictRef(target)) && Valid(DictRef(source)) && Midway(target, source, own, feet, todo)
    requires key in todo
    ensures target in own && own !! source.Repr && feet == Feet(source) && key in source.entries
    ensures var value := source.entries[key];
            && Valid(value) && Cell(value) <= Footprint(value) <= source.Repr
            && TreeOf(value) == source.fields[key]
            && feet[key] == Footprint(value) && feet[key] !! own
            && (forall k :: k in target.entries ==> Footprint(target.entries[k]) !! Footprint(value))
            && (key in target.entries ==> Footprint(target.entries[key]) <= own)
    ensures Feet(target).Keys == target.entries.Keys == target.fields.Keys
    ensures forall k :: k in target.entries ==> Feet(target)[k] == Footprint(target.entries[k])
    ensures forall k :: k in target.entries ==> Feet(target)[k] <= Allowed(own, feet, todo, k)
  {
    hide Valid, Footprint, TreeOf, Cell, Allowed;
    OpenDict(source);
    OpenDict(target);
    AllowedStep(own, feet, todo, key, key);
    forall k | k in target.entries ensures Footprint(target.entries[k]) !! Footprint(source.entries[key]) {
      assert k in feet && k != key ==> feet[k] !! feet[key];
      AllowedStep(own, feet, todo, key, k);
    }
  }

  /** After a round: `was` holds what stood below the target's keys before it. */
  lemma RoundDone(target: PyDict, source: PyDict, own: set<object>, feet: map<string, set<object>>,
                  todo: set<string>, key: string, was: map<string, set<object>>)
    requires Valid(DictRef(target)) && Valid(DictRef(source))
    requires target in own && own !! source.Repr && todo <= source.entries.Keys && feet == Feet(source)
    requires key in todo && target.entries.Keys == was.Keys + {key}
    requires forall k :: k in was ==> was[k] <= Allowed(own, feet, todo, k)
    requires forall k :: k in target.entries && k != key ==> Footprint(target.entries[k]) == was[k]
    requires Footprint(target.entries[key]) <= (if key in was then was[key] else {}) + feet[key]
    ensures Midway(target, source, own, feet, todo - {key})
  {
    hide Valid, Footprint, TreeOf, Cell, Allowed;
    OpenDict(target);
    OpenDict(source);
    AllowedStep(own, feet, todo, key, key);
    forall k | k in target.entries ensures Footprint(target.entries[k]) <= Allowed(own, feet, todo - {key}, k) {
      AllowedStep(own, feet, todo, key, k);
    }
  }

  /** One round of the loop of `_deep_merge`: the key's value is merged or replaced. */
  method MergeRound(target: PyDict, source: PyDict, key: string,
                    ghost own: set<object>, ghost feet: map<string, set<object>>, ghost todo: set<string>)
    requires Valid(DictRef(target)) && Valid(DictRef(source)) && Midway(target, source, own, feet, todo)
    requires key in todo && todo <= source.entries.Keys
    modifies own
    ensures Valid(DictRef(target)) && Valid(DictRef(source)) && Midway(target, source, own, feet, todo - {key})
    ensures source.Repr == old(source.Repr) && source.entries == old(source.entries)
              && source.fields == old(source.fields)
    ensures key in source.fields && key in source.entries
    ensures target.entries == old(target.entries)[key := KeptRef(old(target.entries), key, source.entries[key])]
    ensures target.fields == old(target.fields)[key :=
              if key in old(target.fields) then Merge(old(target.fields)[key], source.fields[key])
                  else source.fields[key]]
    ensures target.Repr <= old(target.Repr) + source.Repr
    decreases TreeOf(DictRef(source)), 1
  {
    hide *;
    RoundReady(target, source, own, feet, todo, key);
    OpenDict(source);
    RoundTerminates(source, key);
    ghost var was := Feet(target);
    label before:
    MergeKey(target, key, source.entries[key]);
    UntouchedDict@before(source);
    RoundDone(target, source, own, feet, todo, key, was);
  }

  lemma RoundTerminates(d: PyDict, key: string)
    requires Valid(DictRef(d)) && key in d.entries
    ensures TreeOf(DictRef(d)) decreases to TreeOf(d.entries[key])
  {}

  lemma MidwayStart(target: PyDict, source: PyDict)
    requires Valid(DictRef(target)) && Valid(DictRef(source)) && target.Repr !! source.Repr
    ensures Midway(target, source, target.Repr, Feet(source), source.entries.Keys)
    ensures source.entries.Keys == source.fields.Keys && source.fields.Keys - source.entries.Keys == {}
  {
    hide Valid;
    OpenDict(target);
    OpenDict(source);
  }

  /** `_deep_merge`, over any order of the source's keys. */
  method DeepMerge(target: PyDict, source: PyDict)
    requires Valid(DictRef(target)) && Valid(DictRef(source))
    requires target.Repr !! source.Repr
    modifies target.Repr
    ensures Valid(DictRef(target)) && Valid(DictRef(source))
    ensures TreeOf(DictRef(target)) == Merge(old(TreeOf(DictRef(target))), TreeOf(DictRef(source)))
    ensures TreeOf(DictRef(source)) == old(TreeOf(DictRef(source)))
    ensures target.entries == EntriesOn(old(target.entries), source.entries, source.entries.Keys)
    ensures target.entries.Keys == old(target.entries).Keys + source.entries.Keys
    ensures forall k :: k in old(target.entries) && k !in source.entries ==>
              target.entries[k] == old(target.entries)[k]
    ensures forall k :: k in source.entries ==>
              var merged := source.entries[k].DictRef? && k in old(target.entries) && old(target.entries)[k].DictRef?;
              target.entries[k] == if merged then old(target.entries)[k] else source.entries[k]
    ensures source.entries == old(source.entries)
    ensures source.Repr == old(source.Repr) && target.Repr <= old(target.Repr) + source.Repr
    decreases TreeOf(DictRef(source)), 2
  {
    hide *;
    DictFacts(target);
    DictFacts(source);
    ghost var keys, sf, t0, own, feet := source.entries.Keys, source.fields, target.fields, target.Repr, Feet(source);
    ghost var s, e0 := source.entries, target.entries;
    var todo := source.entries.Keys;
    MergeOnEnds(t0, sf);
    EntriesOnStart(e0, s);
    MidwayStart(target, source);
    while todo != {}
      invariant Valid(DictRef(target)) && Valid(DictRef(source)) && Midway(target, source, own, feet, todo)
      invariant todo <= keys == source.entries.Keys == sf.Keys
      invariant source.entries == s && target.entries == EntriesOn(e0, s, s.Keys - todo)
      invariant source.fields == sf && source.Repr == old(source.Repr)
      invariant target.fields == MergeOn(t0, sf, sf.Keys - todo)
      invariant target.Repr <= own + source.Repr
      decreases |todo|
    {
      var key :| key in todo;
      EntriesOnStep(e0, s, s.Keys - todo, key);
      MergeOnStep(t0, sf, sf.Keys - todo, key);
      assert sf.Keys - (todo - {key}) == sf.Keys - todo + {key};
      DictFacts(source);
      MergeRound(target, source, key, own, feet, todo);
      todo := todo - {key};
    }
    assert sf.Keys - todo == sf.Keys;
    DictFacts(target);
    DictFacts(source);
    EntriesAre(e0, s);
  }
}

/**
`Snmp_v2c.walk` and `Snmp_v2c.bulk_walk` over an agent that answers anything, and what they return
when the agent is a lexicographically ordered device (sections 4.2.2 and 4.2.3 of RFC 3416).
*/
module SnmpWalk {
  import opened Wrappers
  import opened Oids

  datatype SnmpValue = Data(content: int) | EndOfMibView

  datatype VarBind = VarBind(oid: NonEmptyOid, value: SnmpValue)

  type NonEmptyOid = o: Oid | o != [] witness [0]

  datatype Status = TooBig | NoSuchName | OtherStatus | Indication

  /** One item of the response stream: an error, or variable bindings. */
  datatype Item = Failed(status: Status) | Good(varBinds: seq<VarBind>)

  /** What `bulk_cmd` hands back: one response tuple, an async iterable of them, or something else. */
  datatype Reply = Single(item: Item) | Stream(items: seq<Item>) | Unexpected

  predicate Under(vb: VarBind, root: NonEmptyOid) { InSubtree(OidText(vb.oid), OidText(root)) }

  // ---------------------------------------------------------------- walk

  /** The bindings of a stream in order, failed items skipped. */
  function AllVarBinds(items: seq<Item>): seq<VarBind> {
    if items == [] then []
    else (if items[0].Good? then items[0].varBinds else []) + AllVarBinds(items[1..])
  }

  /** The longest prefix that stays in the subtree. */
  function TakeUnder(vbs: seq<VarBind>, root: NonEmptyOid): seq<VarBind> {
    if vbs == [] || !Under(vbs[0], root) then [] else [vbs[0]] + TakeUnder(vbs[1..], root)
  }

  lemma {:induction false} TakeUnderShape(vbs: seq<VarBind>, root: NonEmptyOid)
    ensures var r := TakeUnder(vbs, root);
            && r <= vbs
            && (forall vb :: vb in r ==> Under(vb, root))
            && (|r| < |vbs| ==> !Under(vbs[|r|], root))
  {
    if vbs != [] && Under(vbs[0], root) {
      TakeUnderShape(vbs[1..], root);
    }
  }

  lemma {:induction false} TakeUnderStops(inside: seq<VarBind>, rest: seq<VarBind>, root: NonEmptyOid)
    requires forall vb :: vb in inside ==> Under(vb, root)
    requires rest != [] ==> !Under(rest[0], root)
    ensures TakeUnder(inside + rest, root) == inside
  {
    if inside == [] {
      assert inside + rest == rest;
    } else {
      assert (inside + rest)[1..] == inside[1..] + rest;
      TakeUnderStops(inside[1..], rest, root);
    }
  }

  lemma {:induction false} AllVarBindsSnoc(items: seq<Item>, item: Item)
    ensures AllVarBinds(items + [item]) == AllVarBinds(items) + AllVarBinds([item])
  {
    if items == [] {
      assert items + [item] == [item];
    } else {
      var whole := items + [item];
      assert whole[0] == items[0] && whole[1..] == items[1..] + [item];
      AllVarBindsSnoc(items[1..], item);
      var head := if items[0].Good? then items[0].varBinds else [];
      assert AllVarBinds(items) == head + AllVarBinds(items[1..]);
      assert AllVarBinds(whole) == head + (AllVarBinds(items[1..]) + AllVarBinds([item]));
    }
  }

  /** Every item adds its bindings where it stands, and a failed one nothing. */
  lemma {:induction false} AllVarBindsAt(before: seq<Item>, item: Item, after: seq<Item>)
    ensures AllVarBinds([]) == [] && AllVarBinds(before + [item] + after)
                                     == AllVarBinds(before) + (if item.Good? then item.varBinds else [])
                                        + AllVarBinds(after)
  {
    hide AllVarBinds;
    AllVarBindsFirst(item, after);
    if before == [] {
      assert before + [item] + after == [item] + after;
    } else {
      AllVarBindsFirst(before[0], before[1..]);
      AllVarBindsFirst(before[0], before[1..] + [item] + after);
      AllVarBindsAt(before[1..], item, after);
      assert before == [before[0]] + before[1..];
      assert before + [item] + after == [before[0]] + (before[1..] + [item] + after);
    }
  }

  lemma AllVarBindsFirst(item: Item, rest: seq<Item>)
    ensures AllVarBinds([]) == []
    ensures AllVarBinds([item] + rest) == (if item.Good? then item.varBinds else []) + AllVarBinds(rest)
  {
    assert ([item] + rest)[1..] == rest;
  }

  lemma {:induction false} AllVarBindsPrefix(items: seq<Item>, n: nat)
    requires n <= |items|
    ensures AllVarBinds(items[..n]) <= AllVarBinds(items)
  {
    if n > 0 {
      assert items[..n][1..] == items[1..][..n - 1];
      AllVarBindsPrefix(items[1..], n - 1);
    }
  }

  /** A stream of good items with one binding each is these bindings. */
  lemma {:induction false} OneByOne(items: seq<Item>)
    requires forall i :: 0 <= i < |items| ==> items[i].Good? && |items[i].varBinds| == 1
    ensures |AllVarBinds(items)| == |items|
    ensures forall i :: 0 <= i < |items| ==> AllVarBinds(items)[i] == items[i].varBinds[0]
  {
    if items != [] {
      OneByOne(items[1..]);
    }
  }

  /** `walk`: failed items are skipped, and the first binding outside the subtree ends the walk. */
  method Walk(items: seq<Item>, root: NonEmptyOid) returns (r: Option<seq<VarBind>>)
    ensures r.Some? <==> TakeUnder(AllVarBinds(items), root) != []
    ensures r.Some? ==> r.value == TakeUnder(AllVarBinds(items), root)
  {
    hide Under, TakeUnder;
    var results: seq<VarBind> := [];
    for i := 0 to |items|
      invariant results == AllVarBinds(items[..i])
      invariant forall vb :: vb in results ==> Under(vb, root)
    {
      ghost var before := results;
      assert items[..i + 1] == items[..i] + [items[i]];
      AllVarBindsSnoc(items[..i], items[i]);
      if items[i].Failed? {
        continue;
      }
      var varBinds := items[i].varBinds;
      assert AllVarBinds([items[i]]) == varBinds;
      for j := 0 to |varBinds|
        invariant results == before + varBinds[..j]
        invariant forall vb :: vb in results ==> Under(vb, root)
      {
        if !Under(varBinds[j], root) {
          AllVarBindsPrefix(items, i + 1);
          var all := AllVarBinds(items);
          assert AllVarBinds(items[..i + 1]) == before + varBinds;
          assert all == results + all[|results|..];
          assert all[|results|] == varBinds[j];
          TakeUnderStops(results, all[|results|..], root);
          return if results == [] then None else Some(results);
        }
        results := results + [varBinds[j]];
      }
    }
    assert items[..|items|] == items;
    assert results + [] == results;
    TakeUnderStops(results, [], root);
    return if results == [] then None else Some(results);
  }

  // ---------------------------------------------------------------- bulk walk

  /** The bindings of a stream up to its first error. */
  function Delivered(items: seq<Item>): seq<VarBind> {
    if items == [] || items[0].Failed? then [] else items[0].varBinds + Delivered(items[1..])
  }

  function FirstError(items: seq<Item>): Option<Status> {
    if items == [] then None
    else match items[0]
      case Failed(status) => Some(status)
      case Good(_) => FirstError(items[1..])
  }

  /** What is delivered before the k-th item, the first that failed, or the end. */
  lemma {:induction false} DeliveredIs(items: seq<Item>, k: nat)
    requires k <= |items| && (forall i :: 0 <= i < k ==> items[i].Good?) && (k < |items| ==> items[k].Failed?)
    ensures Delivered(items) == AllVarBinds(items[..k])
    ensures FirstError(items) == if k < |items| then Some(items[k].status) else None
  {
    if k > 0 {
      DeliveredIs(items[1..], k - 1);
      assert items[..k][1..] == items[1..][..k - 1];
    }
  }

  function ItemsOf(reply: Reply): seq<Item> {
    match reply
    case Single(item) => [item]
    case Stream(items) => items
    case Unexpected => []
  }

  /** The bindings of a reply up to its first error. */
  function Received(reply: Reply): seq<VarBind> { Delivered(ItemsOf(reply)) }

  /** Those of them that a bulk walk keeps: up to the first outsider. */
  function Kept(reply: Reply, root: NonEmptyOid): seq<VarBind> { TakeUnder(Received(reply), root) }

  /** A reply that ends the attempts: of no known kind, or an error other than tooBig before any binding. */
  predicate HardError(reply: Reply) {
    reply.Unexpected?
    || (Received(reply) == [] && FirstError(ItemsOf(reply)).Some? && FirstError(ItemsOf(reply)) != Some(TooBig))
  }

  /** The repetition counts tried, in order. */
  function Attempts(maxRepetitions: int): seq<nat> { Fresh([maxRepetitions, 10, 5, 1], []) }

  function Fresh(values: seq<int>, kept: seq<nat>): seq<nat> {
    if values == [] then kept
    else Fresh(values[1..], Extended(values[0], kept))
  }

  /**
  At most four attempts, all positive, no count twice; the caller's count first when it is usable, and 10, 5, 1
  always.
  */
  lemma AttemptsShape(maxRepetitions: int)
    ensures var a := Attempts(maxRepetitions);
            && 3 <= |a| <= 4
            && (forall i :: 0 <= i < |a| ==> a[i] > 0)
            && (forall i, j :: 0 <= i < j < |a| ==> a[i] != a[j])
            && (maxRepetitions > 0 ==> a[0] == maxRepetitions)
            && 10 in a && 5 in a && 1 in a
  {
    AttemptsAre(maxRepetitions);
  }

  lemma AttemptsAre(m: int)
    ensures Attempts(m) == if m <= 0 || m == 10 then [10, 5, 1]
                           else if m == 5 then [5, 10, 1]
                           else if m == 1 then [1, 10, 5]
                           else [m, 10, 5, 1]
  {
    hide Fresh;
    var k1 := Extended(m, []);
    var k2 := Extended(10, k1);
    var k3 := Extended(5, k2);
    FreshStep(m, [10, 5, 1], []);
    FreshStep(10, [5, 1], k1);
    FreshStep(5, [1], k2);
    FreshStep(1, [], k3);
    assert [m] + [10, 5, 1] == [m, 10, 5, 1] && [10] + [5, 1] == [10, 5, 1] && [5] + [1] == [5, 1] && [1] + [] == [1];
    FreshNone(Extended(1, k3));
  }

  function Extended(value: int, kept: seq<nat>): seq<nat> {
    if value > 0 && value !in kept then kept + [value] else kept
  }

  lemma FreshNone(kept: seq<nat>)
    ensures Fresh([], kept) == kept
  {}

  lemma FreshStep(value: int, values: seq<int>, kept: seq<nat>)
    ensures Fresh([value] + values, kept) == Fresh(values, Extended(value, kept))
  {}

  lemma TakeUnderFrom(vbs: seq<VarBind>, j: nat, root: NonEmptyOid)
    requires j < |vbs|
    ensures TakeUnder(vbs[j..], root)
         == if Under(vbs[j], root) then [vbs[j]] + TakeUnder(vbs[j + 1..], root) else []
  {
    assert vbs[j..][1..] == vbs[j + 1..];
  }

  /** `_process_item` */
  method ProcessItem(item: Item, root: NonEmptyOid, results: seq<VarBind>)
    returns (done: bool, hardError: bool, results': seq<VarBind>)
    ensures item.Failed? ==> done && hardError == !item.status.TooBig? && results' == results
    ensures item.Good? ==> !hardError && results' == results + TakeUnder(item.varBinds, root)
    ensures item.Good? ==> (done <==> |TakeUnder(item.varBinds, root)| < |item.varBinds|)
  {
    hide Under, TakeUnder;
    TakeUnderNone(root);
    results' := results;
    if item.Failed? {
      return true, !item.status.TooBig?, results;
    }
    var varBinds := item.varBinds;
    for j := 0 to |varBinds|
      invariant results' == results + varBinds[..j]
      invariant TakeUnder(varBinds, root) == varBinds[..j] + TakeUnder(varBinds[j..], root)
    {
      TakeUnderFrom(varBinds, j, root);
      if !Under(varBinds[j], root) {
        return true, false, results';
      }
      results' := results' + [varBinds[j]];
      assert varBinds[..j + 1] == varBinds[..j] + [varBinds[j]];
    }
    assert varBinds[|varBinds|..] == [];
    return false, false, results';
  }

  /** An error ends the attempts unless it is tooBig or something was delivered before it. */
  lemma HardErrorIs(items: seq<Item>, k: nat)
    requires k < |items| && (forall i :: 0 <= i < k ==> items[i].Good?) && items[k].Failed?
    ensures HardError(Stream(items)) <==> items[k].status != TooBig && AllVarBinds(items[..k]) == []
    ensures k == 0 && |items| == 1 ==> (HardError(Single(items[0])) <==> items[0].status != TooBig)
    ensures HardError(Unexpected) && forall vbs :: !HardError(Single(Good(vbs)))
  {
    DeliveredIs(items, k);
    if |items| == 1 {
      assert items == [items[0]];
    }
    forall vbs ensures !HardError(Single(Good(vbs))) {
      SingleDelivers(Good(vbs));
    }
  }

  /** One round of the attempt loop: a reply is accepted iff it holds a binding to keep, and then for all of these. */
  method RunAttempt(reply: Reply, root: NonEmptyOid) returns (accepted: Option<seq<VarBind>>, hardError: bool)
    ensures accepted.Some? <==> Kept(reply, root) != []
    ensures accepted.Some? ==> accepted.value == Kept(reply, root)
    ensures accepted.None? ==> (hardError <==> HardError(reply))
  {
    hide TakeUnder, Under;
    TakeUnderNone(root);
    var results: seq<VarBind> := [];
    var done := false;
    hardError := false;
    match reply {
      case Single(item) =>
        SingleDelivers(item);
        done, hardError, results := ProcessItem(item, root, results);
        if item.Good? {
          TakeUnderShape(item.varBinds, root);
        }
        if done && results != [] {
          return Some(results), hardError;
        }
      case Stream(items) =>
        var i := 0;
        while i < |items| && !done
          invariant i <= |items|
          invariant done ==> results == [] && TakeUnder(Delivered(items), root) == []
                             && (hardError <==> HardError(reply))
          invariant !done ==> !hardError && Upto(items, i, results, root)
        {
          AttemptStep(items, i, results, root);
          done, hardError, results := ProcessItem(items[i], root, results);
          if done && results != [] {
            return Some(results), hardError;
          }
          i := i + 1;
        }
        assert items[|items|..] == [];
      case Unexpected =>
        hardError := true;
    }
    if hardError || results == [] {
      return None, hardError;
    }
    return Some(results), hardError;
  }

  /** The first i items were good and inside the subtree. */
  ghost predicate Upto(items: seq<Item>, i: nat, results: seq<VarBind>, root: NonEmptyOid) {
    && i <= |items|
    && Delivered(items) == results + Delivered(items[i..])
    && TakeUnder(Delivered(items), root) == results + TakeUnder(Delivered(items[i..]), root)
    && FirstError(items) == FirstError(items[i..])
  }

  lemma SingleDelivers(item: Item)
    ensures Delivered([item]) == if item.Good? then item.varBinds else []
    ensures FirstError([item]) == if item.Good? then None else Some(item.status)
  {
    assert [item][1..] == [];
    if item.Good? {
      assert item.varBinds + [] == item.varBinds;
    }
  }

  /** What the next item makes of an attempt. */
  lemma AttemptStep(items: seq<Item>, i: nat, results: seq<VarBind>, root: NonEmptyOid)
    requires i < |items| && Upto(items, i, results, root)
    ensures items[i].Failed? ==>
              Delivered(items) == results == TakeUnder(Delivered(items), root)
              && FirstError(items) == Some(items[i].status)
    ensures items[i].Good? ==>
              var t := TakeUnder(items[i].varBinds, root);
              && |t| <= |items[i].varBinds| && (|t| == |items[i].varBinds| ==> Upto(items, i + 1, results + t, root))
              && (|t| < |items[i].varBinds| ==>
                    Delivered(items) != [] && TakeUnder(Delivered(items), root) == results + t)
  {
    hide TakeUnder, Under;
    TakeUnderNone(root);
    assert items[i..][1..] == items[i + 1..];
    if items[i].Good? {
      var vbs, rest := items[i].varBinds, Delivered(items[i + 1..]);
      TakeUnderShape(vbs, root);
      TakeUnderAppend(vbs, rest, root);
      assert results + (vbs + rest) == results + vbs + rest;
      var t := TakeUnder(vbs, root);
      assert results + (t + TakeUnder(rest, root)) == results + t + TakeUnder(rest, root);
    } else {
      assert results + [] == results;
    }
  }

  /** What `bulk_walk` returns after n attempts: the n-th reply decides, or the plain walk over `items` does. */
  ghost predicate BulkOutcome(replies: seq<Reply>, items: seq<Item>, root: NonEmptyOid, n: nat,
                              r: Option<seq<VarBind>>) {
    && 0 < n <= |replies|
    && (forall i :: 0 <= i < n - 1 ==> Kept(replies[i], root) == [] && !HardError(replies[i]))
    && (if Kept(replies[n - 1], root) != [] then r == Some(Kept(replies[n - 1], root))
        else
          && (n == |replies| || HardError(replies[n - 1]))
          && (r.Some? <==> TakeUnder(AllVarBinds(items), root) != [])
          && (r.Some? ==> r.value == TakeUnder(AllVarBinds(items), root)))
  }

  /**
  `bulk_walk`. `replies[i]` is what `bulk_cmd` gives on attempt i, should it be made, and `items` what the
  plain walk would stream; `tried` lists the repetition counts actually sent.
  */
  method BulkWalk(root: NonEmptyOid, maxRepetitions: int, replies: seq<Reply>, items: seq<Item>)
    returns (r: Option<seq<VarBind>>, tried: seq<nat>)
    requires |replies| == |Attempts(maxRepetitions)|
    ensures tried <= Attempts(maxRepetitions)
    ensures BulkOutcome(replies, items, root, |tried|, r)
  {
    hide Kept, HardError, TakeUnder, Under;
    AttemptsShape(maxRepetitions);
    var values := [maxRepetitions, 10, 5, 1];
    var attempts: seq<nat> := [];
    for i := 0 to |values|
      invariant Fresh(values[i..], attempts) == Attempts(maxRepetitions)
    {
      if values[i] > 0 && values[i] !in attempts {
        attempts := attempts + [values[i]];
      }
    }
    tried := [];
    for i := 0 to |attempts|
      invariant tried == attempts[..i]
      invariant forall k :: 0 <= k < i ==> Kept(replies[k], root) == [] && !HardError(replies[k])
    {
      tried := tried + [attempts[i]];
      var accepted, hardError := RunAttempt(replies[i], root);
      if accepted.Some? {
        return accepted, tried;
      }
      if hardError {
        break;
      }
    }
    r := Walk(items, root);
  }

  // ---------------------------------------------------------------- the ordered device

  /** A device view: the instances it holds, in strictly ascending order. */
  ghost predicate Ordered(device: seq<VarBind>) {
    && (forall i :: 0 <= i < |device| ==> device[i].value.Data?)
    && (forall i, j :: 0 <= i < j < |device| ==> Lt(device[i].oid, device[j].oid))
  }

  /** The instances after `o`: what repeated GETNEXT from `o` runs through. */
  ghost function After(device: seq<VarBind>, o: Oid): (rest: seq<VarBind>) {
    if device == [] || Lt(o, device[0].oid) then device else After(device[1..], o)
  }

  /** The instances strictly below `root`, in device order. */
  ghost function Below(device: seq<VarBind>, root: Oid): seq<VarBind> {
    if device == [] then []
    else (if root < device[0].oid then [device[0]] else []) + Below(device[1..], root)
  }

  /** Splitting a device at the subtree: members first, and what follows is outside for good. */
  lemma {:induction false} AfterSplits(device: seq<VarBind>, root: NonEmptyOid)
    requires Ordered(device)
    ensures var w := Below(device, root);
            && w <= After(device, root)
            && (forall vb :: vb in w ==> root < vb.oid)
            && (forall vb :: vb in After(device, root)[|w|..] ==> !(root <= vb.oid))
  {
    if device != [] {
      var first, rest := device[0].oid, device[1..];
      AfterSplits(rest, root);
      if root < first {
        PrefixLt(root, first);
        AfterAll(rest, root, first);
        assert After(device, root) == [device[0]] + rest;
        assert Below(device, root) == [device[0]] + Below(rest, root);
        var w := Below(rest, root);
        assert After(rest, root) == rest && w <= rest;
        assert device[|w| + 1..] == rest[|w|..];
      } else if Lt(root, first) {
        LtIrreflexive(root);
        assert root <= first ==> root == first;
        forall vb | vb in rest ensures !(root <= vb.oid) {
          if root <= vb.oid {
            SubtreeInterval(root, first, vb.oid);
          }
        }
        BelowNothing(rest, root);
        assert Below(device, root) == [];
      }
    }
  }

  /** Past `o` everything is after `o`. */
  lemma AfterAll(rest: seq<VarBind>, o: Oid, first: Oid)
    requires Lt(o, first)
    requires rest != [] ==> Lt(first, rest[0].oid)
    ensures After(rest, o) == rest
  {
    if rest != [] {
      LtTransitive(o, first, rest[0].oid);
    }
  }

  lemma {:induction false} BelowNothing(device: seq<VarBind>, root: Oid)
    requires forall vb :: vb in device ==> !(root <= vb.oid)
    ensures Below(device, root) == []
  {
    if device != [] {
      BelowNothing(device[1..], root);
    }
  }

  lemma {:induction false} BelowIsFilter(device: seq<VarBind>, root: Oid)
    ensures forall vb :: vb in Below(device, root) <==> vb in device && root < vb.oid
  {
    if device != [] {
      BelowIsFilter(device[1..], root);
      assert device == [device[0]] + device[1..];
    }
  }

  /** Membership in `Below`, both ways, with multiplicity and order: it is the device filtered. */
  lemma {:induction false} BelowMembers(device: seq<VarBind>, root: Oid)
    requires Ordered(device)
    ensures Ordered(Below(device, root))
    ensures forall vb :: vb in Below(device, root) <==> vb in device && root < vb.oid
  {
    hide Lt, Below, Ordered;
    BelowIsFilter(device, root);
    BelowUnfolds(device, root);
    if device != [] {
      OrderedTail(device);
      BelowMembers(device[1..], root);
      var w := Below(device[1..], root);
      forall vb | vb in w ensures Lt(device[0].oid, vb.oid) {
        FirstIsLeast(device, vb);
      }
      if root < device[0].oid {
        OrderedCons(device[0], w);
      } else {
        assert [] + w == w;
      }
    }
  }

  lemma BelowUnfolds(device: seq<VarBind>, root: Oid)
    ensures device == [] ==> Below(device, root) == [] && Ordered([])
    ensures device != [] ==>
              Below(device, root) == (if root < device[0].oid then [device[0]] else []) + Below(device[1..], root)
  {}

  lemma OrderedTail(device: seq<VarBind>)
    requires Ordered(device) && device != []
    ensures Ordered(device[1..]) && device[0].value.Data?
  {
    hide Lt;
  }

  lemma FirstIsLeast(device: seq<VarBind>, vb: VarBind)
    requires Ordered(device) && device != [] && vb in device[1..]
    ensures Lt(device[0].oid, vb.oid)
  {
    hide Lt;
    var i :| 0 <= i < |device[1..]| && device[1..][i] == vb;
    assert device[i + 1] == vb;
  }

  lemma OrderedCons(first: VarBind, w: seq<VarBind>)
    requires Ordered(w) && first.value.Data? && forall vb :: vb in w ==> Lt(first.oid, vb.oid)
    ensures Ordered([first] + w)
  {
    hide Lt;
  }

  lemma UnderIffPrefix(vbs: seq<VarBind>, root: NonEmptyOid)
    ensures forall vb :: vb in vbs ==> (Under(vb, root) <==> root <= vb.oid)
  {
    forall vb | vb in vbs ensures Under(vb, root) <==> root <= vb.oid {
      InSubtreeOid(vb.oid, root);
    }
  }

  /** GETNEXT from `o` (section 4.2.2 of RFC 3416): the instance whose name is the lexicographically first after it. */
  ghost predicate IsNext(device: seq<VarBind>, o: Oid, vb: VarBind) {
    vb in device && Lt(o, vb.oid) && forall x :: x in device && Lt(o, x.oid) ==> x == vb || Lt(vb.oid, x.oid)
  }

  /** Repeated GETNEXT from `o`: each answer is the next after the one before, and the last one has no next. */
  ghost predicate NextChain(device: seq<VarBind>, o: Oid, run: seq<VarBind>)
    decreases |run|
  {
    if run == [] then forall x :: x in device ==> !Lt(o, x.oid)
    else IsNext(device, o, run[0]) && NextChain(device, run[0].oid, run[1..])
  }

  /** The device from `o` on: `After` cuts it, and its head is the one next instance. */
  lemma {:induction false} AfterShape(device: seq<VarBind>, o: Oid)
    requires Ordered(device)
    ensures var a := After(device, o);
            && Ordered(a) && (forall x :: x in a <==> x in device && Lt(o, x.oid))
            && (a != [] ==> After(device, a[0].oid) == a[1..])
  {
    hide Lt;
    if device != [] && !Lt(o, device[0].oid) {
      AfterShape(device[1..], o);
      var a := After(device, o);
      if a != [] {
        assert a[0] in device[1..];
        NotAfter(device, a[0].oid);
      }
    } else if device != [] {
      forall x | x in device ensures Lt(o, x.oid) {
        LaterToo(device, o, x);
      }
      LtIrreflexive(device[0].oid);
      AfterTail(device);
    }
  }

  lemma LaterToo(device: seq<VarBind>, o: Oid, x: VarBind)
    requires Ordered(device) && device != [] && Lt(o, device[0].oid) && x in device
    ensures Lt(o, x.oid)
  {
    hide Lt;
    var i :| 0 <= i < |device| && device[i] == x;
    if i > 0 {
      LtTransitive(o, device[0].oid, x.oid);
    }
  }

  /** An instance does not come after one that stands behind it. */
  lemma NotAfter(device: seq<VarBind>, o: Oid)
    requires Ordered(device) && device != [] && exists x :: x in device[1..] && x.oid == o
    ensures !Lt(o, device[0].oid)
  {
    hide Lt;
    var i :| 0 <= i < |device[1..]| && device[1..][i].oid == o;
    assert Lt(device[0].oid, device[i + 1].oid);
    NotBothWays(device[0].oid, o);
  }

  lemma NotBothWays(a: Oid, b: Oid)
    ensures !(Lt(a, b) && Lt(b, a))
  {
    hide Lt;
    LtIrreflexive(a);
    if Lt(a, b) && Lt(b, a) {
      LtTransitive(a, b, a);
    }
  }

  lemma AfterTail(device: seq<VarBind>)
    requires Ordered(device) && device != []
    ensures After(device, device[0].oid) == device[1..]
  {
    hide Lt;
    LtIrreflexive(device[0].oid);
    if |device| > 1 {
      assert Lt(device[0].oid, device[1].oid);
    }
  }

  /** The next instance is the first of those after `o`. */
  lemma NextIsHead(device: seq<VarBind>, o: Oid, vb: VarBind)
    requires Ordered(device)
    ensures IsNext(device, o, vb) <==> After(device, o) != [] && vb == After(device, o)[0]
  {
    hide Lt, After;
    AfterShape(device, o);
    var a := After(device, o);
    if a != [] {
      var head := a[0];
      assert head in a;
      NotBothWays(head.oid, vb.oid);
      forall x | x in device && Lt(o, x.oid) ensures x == head || Lt(head.oid, x.oid) {
        var i :| 0 <= i < |a| && a[i] == x;
      }
    }
  }

  /** Exactly one run of answers is the chain of repeated GETNEXT: the instances after `o`. */
  lemma {:induction false} ChainIsAfter(device: seq<VarBind>, o: Oid, run: seq<VarBind>)
    requires Ordered(device)
    ensures NextChain(device, o, run) <==> run == After(device, o)
    decreases |run|
  {
    hide After, Lt, IsNext;
    AfterShape(device, o);
    var a := After(device, o);
    if run == [] {
      assert a != [] ==> a[0] in a;
    } else {
      NextIsHead(device, o, run[0]);
      ChainIsAfter(device, run[0].oid, run[1..]);
      assert run == [run[0]] + run[1..];
      assert a != [] ==> a == [a[0]] + a[1..];
    }
  }

  /** The walk of an error-free device: GETNEXT answers, each from the name before, until the device ends. */
  ghost predicate WalkStream(items: seq<Item>, device: seq<VarBind>, root: NonEmptyOid) {
    (forall i :: 0 <= i < |items| ==> items[i].Good?) && NextChain(device, root, AllVarBinds(items))
  }

  /** `walk` on an ordered device returns exactly the instances strictly below the root, in order; None iff none. */
  lemma WalkReturnsSubtree(items: seq<Item>, device: seq<VarBind>, root: NonEmptyOid, r: Option<seq<VarBind>>)
    requires Ordered(device) && WalkStream(items, device, root)
    requires r.Some? <==> TakeUnder(AllVarBinds(items), root) != []
    requires r.Some? ==> r.value == TakeUnder(AllVarBinds(items), root)
    ensures r.Some? <==> Below(device, root) != []
    ensures r.Some? ==> r.value == Below(device, root)
  {
    ChainIsAfter(device, root, AllVarBinds(items));
    AfterSplits(device, root);
    var a, w := After(device, root), Below(device, root);
    UnderIffPrefix(a, root);
    assert a == w + a[|w|..];
    TakeUnderStops(w, a[|w|..], root);
  }

  // ---------------------------------------------------------------- GETBULK on the ordered device

  /** The name a GETBULK response carries once the device has run out: the last instance, or the request itself. */
  ghost function LastName(device: seq<VarBind>, root: NonEmptyOid): NonEmptyOid {
    var a := After(device, root);
    if a == [] then root else a[|a| - 1].oid
  }

  ghost function Fillers(name: NonEmptyOid, n: nat): (f: seq<VarBind>)
    ensures |f| == n && forall i :: 0 <= i < n ==> f[i] == VarBind(name, EndOfMibView)
  {
    seq(n, i => VarBind(name, EndOfMibView))
  }

  /**
  One repetition of a GETBULK (section 4.2.3 of RFC 3416): the next instance, or endOfMibView under the same name.
  */
  ghost function AnswerNext(device: seq<VarBind>, o: NonEmptyOid): VarBind {
    if vb :| IsNext(device, o, vb) then vb else VarBind(o, EndOfMibView)
  }

  /** n repetitions, each from the name before. */
  ghost function GetBulk(device: seq<VarBind>, o: NonEmptyOid, n: nat): seq<VarBind>
    decreases n
  {
    if n == 0 then [] else
      var vb := AnswerNext(device, o);
      [vb] + GetBulk(device, vb.oid, n - 1)
  }

  /** The repetitions in closed form: the instances after the root, then fillers. */
  ghost function Repetitions(device: seq<VarBind>, root: NonEmptyOid, n: nat): (r: seq<VarBind>)
    ensures |r| == n
  {
    var a := After(device, root);
    if n <= |a| then a[..n] else a + Fillers(LastName(device, root), n - |a|)
  }

  /** One repetition in terms of the instances after the name. */
  lemma AnswerNextIs(device: seq<VarBind>, o: NonEmptyOid)
    requires Ordered(device)
    ensures var a := After(device, o); AnswerNext(device, o) == if a != [] then a[0] else VarBind(o, EndOfMibView)
  {
    hide After, Lt, IsNext, Ordered;
    var vb, a := AnswerNext(device, o), After(device, o);
    NextIsHead(device, o, vb);
    if a != [] {
      NextIsHead(device, o, a[0]);
    } else {
      forall x: VarBind ensures !IsNext(device, o, x) {
        NextIsHead(device, o, x);
      }
    }
  }

  lemma RepetitionsStep(device: seq<VarBind>, o: NonEmptyOid, n: nat)
    requires Ordered(device) && n > 0
    ensures var vb := AnswerNext(device, o); Repetitions(device, o, n) == [vb] + Repetitions(device, vb.oid, n - 1)
  {
    hide Lt, AnswerNext, Ordered;
    AnswerNextIs(device, o);
    AfterShape(device, o);
    hide After;
    var vb, a := AnswerNext(device, o), After(device, o);
    if a != [] {
      assert LastName(device, vb.oid) == LastName(device, o);
      assert a == [a[0]] + a[1..];
    }
  }

  /** Step by step or at once, the repetitions are the same. */
  lemma {:induction false} GetBulkIsRepetitions(device: seq<VarBind>, o: NonEmptyOid, n: nat)
    requires Ordered(device)
    ensures GetBulk(device, o, n) == Repetitions(device, o, n)
    decreases n
  {
    hide AnswerNext, Ordered;
    if n > 0 {
      RepetitionsStep(device, o, n);
      GetBulkIsRepetitions(device, AnswerNext(device, o).oid, n - 1);
    }
  }

  /**
  A reply the device may give to a GETBULK with n repetitions: any error, or a response, cut short anywhere
  (also to nothing). A stream is any number of such responses in a row.
  */
  ghost predicate Lawful(reply: Reply, device: seq<VarBind>, root: NonEmptyOid, n: nat) {
    match reply
    case Single(Failed(_)) => true
    case Single(Good(vbs)) => |vbs| <= n && vbs == GetBulk(device, root, |vbs|)
    case Stream(items) => AllVarBinds(items) == GetBulk(device, root, |AllVarBinds(items)|)
    case Unexpected => false
  }

  lemma {:induction false} DeliveredPrefix(items: seq<Item>)
    ensures Delivered(items) <= AllVarBinds(items)
  {
    if items != [] {
      DeliveredPrefix(items[1..]);
    }
  }

  lemma TakeUnderNone(root: NonEmptyOid)
    ensures TakeUnder([], root) == []
  {}

  lemma {:induction false} TakeUnderAppend(a: seq<VarBind>, b: seq<VarBind>, root: NonEmptyOid)
    ensures |TakeUnder(a, root)| <= |a|
    ensures TakeUnder(a + b, root)
         == if |TakeUnder(a, root)| == |a| then TakeUnder(a, root) + TakeUnder(b, root) else TakeUnder(a, root)
  {
    hide Under, TakeUnder;
    TakeUnderNone(root);
    if a == [] {
      assert a + b == b;
    } else {
      assert a[0..] == a && (a + b)[0..] == a + b;
      assert (a + b)[1..] == a[1..] + b && (a + b)[0] == a[0];
      TakeUnderFrom(a, 0, root);
      TakeUnderFrom(a + b, 0, root);
      TakeUnderAppend(a[1..], b, root);
    }
  }

  lemma RepetitionsPrefix(device: seq<VarBind>, root: NonEmptyOid, m: nat, n: nat)
    requires m <= n
    ensures Repetitions(device, root, n)[..m] == Repetitions(device, root, m)
  {}

  lemma LawfulReceived(reply: Reply, device: seq<VarBind>, root: NonEmptyOid, n: nat)
    requires Ordered(device) && Lawful(reply, device, root, n)
    ensures Received(reply) == Repetitions(device, root, |Received(reply)|)
  {
    hide GetBulk, Repetitions;
    match reply
    case Unexpected =>
      GetBulkNone(device, root);
    case Single(item) =>
      SingleDelivers(item);
      GetBulkIsRepetitions(device, root, |Received(reply)|);
      GetBulkNone(device, root);
    case Stream(items) =>
      GetBulkIsRepetitions(device, root, |AllVarBinds(items)|);
      DeliveredPrefix(items);
      RepetitionsPrefix(device, root, |Delivered(items)|, |AllVarBinds(items)|);
  }

  lemma GetBulkNone(device: seq<VarBind>, o: NonEmptyOid)
    ensures GetBulk(device, o, 0) == []
  {}

  /** The subtree part of a response of m bindings. */
  lemma TakeUnderRepetitions(device: seq<VarBind>, root: NonEmptyOid, m: nat)
    requires Ordered(device)
    ensures var w, a := Below(device, root), After(device, root);
            TakeUnder(Repetitions(device, root, m), root) ==
            if m <= |w| then w[..m]
            else if |a| > |w| then w
            else w + Fillers(LastName(device, root), m - |w|)
  {
    hide Under, Below, After, TakeUnder, Ordered;
    AfterSplits(device, root);
    var w, a, r := Below(device, root), After(device, root), Repetitions(device, root, m);
    UnderIffPrefix(r, root);
    if m <= |w| {
      assert r == w[..m] && r + [] == r;
      TakeUnderStops(r, [], root);
    } else if |a| > |w| {
      assert r == w + r[|w|..];
      assert r[|w|] == a[|w|] == a[|w|..][0];
      TakeUnderStops(w, r[|w|..], root);
    } else {
      assert a == w;
      assert r + [] == r;
      TakeUnderStops(r, [], root);
    }
  }

  ghost predicate LawfulReplies(replies: seq<Reply>, device: seq<VarBind>, root: NonEmptyOid, counts: seq<nat>) {
    |replies| == |counts| && forall i :: 0 <= i < |replies| ==> Lawful(replies[i], device, root, counts[i])
  }

  /**
  The accepted reply ran past the last instance of the device, and that instance (or the request) is in the
  subtree.
  */
  ghost predicate RunsOffTheMib(reply: Reply, device: seq<VarBind>, root: NonEmptyOid) {
    |Received(reply)| > |After(device, root)| && root <= LastName(device, root)
  }

  /** The device ends inside the subtree iff nothing follows the subtree's instances. */
  lemma LastNameInside(device: seq<VarBind>, root: NonEmptyOid)
    requires Ordered(device)
    ensures root <= LastName(device, root) <==> After(device, root) == Below(device, root)
    ensures Below(device, root) <= After(device, root)
  {
    AfterSplits(device, root);
    var w, a := Below(device, root), After(device, root);
    if |a| > |w| {
      assert a[|a| - 1] == a[|w|..][|a| - 1 - |w|];
    } else if a != [] {
      assert a[|a| - 1] in w;
    }
  }

  /** What `bulk_walk` keeps of a response of m bindings, against the subtree. */
  lemma KeptAgainstSubtree(device: seq<VarBind>, root: NonEmptyOid, m: nat)
    requires Ordered(device)
    ensures var w, a := Below(device, root), After(device, root);
            var kept := TakeUnder(Repetitions(device, root, m), root);
            var off := m > |a| && root <= LastName(device, root);
            && (kept != [] <==> m > 0 && (w != [] || a == []))
            && (off <==> !(kept <= w))
            && (off <==> exists vb :: vb in kept && vb.value.EndOfMibView?)
            && (off ==> m > |w| && kept == w + Fillers(LastName(device, root), m - |w|))
            && (kept == w <==> !off && m >= |w|)
  {
    hide Under;
    var w, a := Below(device, root), After(device, root);
    var kept := TakeUnder(Repetitions(device, root, m), root);
    TakeUnderRepetitions(device, root, m);
    LastNameInside(device, root);
    BelowMembers(device, root);
    if m > |w| && a == w {
      assert kept[|w|].value.EndOfMibView?;
    } else {
      assert kept <= w;
      assert forall vb :: vb in kept ==> vb in w;
    }
  }

  /**
  `bulk_walk` against `walk` on an ordered device, for every lawful behaviour of the bulk replies, when n attempts were
  made. A reply counts exactly if it holds any binding and the subtree is not empty (or nothing follows the root at
  all). If the last reply does not count, the result is what `walk` gives; otherwise it is a non-empty
  prefix of it, unless the reply ran off the end of the MIB inside the subtree, when endOfMibView bindings follow. It is
  all of the walk's result iff the reply did not run off and held at least as many bindings.
  */
  lemma BulkWalkAgainstWalk(replies: seq<Reply>, items: seq<Item>, device: seq<VarBind>, root: NonEmptyOid,
                            maxRepetitions: int, n: nat, r: Option<seq<VarBind>>)
    requires Ordered(device) && WalkStream(items, device, root)
    requires LawfulReplies(replies, device, root, Attempts(maxRepetitions))
    requires BulkOutcome(replies, items, root, n, r)
    ensures 0 < n <= |replies|
    ensures forall i :: 0 <= i < n - 1 ==> Kept(replies[i], root) == [] && !HardError(replies[i])
    ensures var reply, w := replies[n - 1], Below(device, root);
            var m := |Received(reply)|;
            && (Kept(reply, root) != [] <==> m > 0 && (w != [] || After(device, root) == []))
            && (Kept(reply, root) == [] ==>
                  (n == |replies| || HardError(reply)) && (r.Some? <==> w != []) && (r.Some? ==> r.value == w))
            && (Kept(reply, root) != [] ==>
                  && r.Some? && r.value != []
                  && (RunsOffTheMib(reply, device, root) <==> !(r.value <= w))
                  && (RunsOffTheMib(reply, device, root) <==> exists vb :: vb in r.value && vb.value.EndOfMibView?)
                  && (RunsOffTheMib(reply, device, root) ==>
                        m > |w| && r.value == w + Fillers(LastName(device, root), m - |w|))
                  && (r.value == w <==> !RunsOffTheMib(reply, device, root) && m >= |w|))
  {
    hide Under, Received, Below, After, Repetitions, TakeUnder, HardError,
      Lawful, Attempts, WalkStream, LastName, Fillers, Ordered;
    var reply := replies[n - 1];
    LawfulReceived(reply, device, root, Attempts(maxRepetitions)[n - 1]);
    KeptAgainstSubtree(device, root, |Received(reply)|);
    if Kept(reply, root) == [] {
      WalkReturnsSubtree(items, device, root, r);
    }
  }

  /**
  The failing family is real: a device whose only instance is the one walked, and a complete reply of two
  repetitions.
  */
  lemma EndOfMibViewLeaksIntoBulkWalk()
    ensures var root, inst := [1, 3], VarBind([1, 3, 0], Data(7));
            var reply := Single(Good([inst, VarBind([1, 3, 0], EndOfMibView)]));
            && Ordered([inst]) && Lawful(reply, [inst], root, 2)
            && Below([inst], root) == [inst]
            && Kept(reply, root) == [inst, VarBind([1, 3, 0], EndOfMibView)]
  {
    hide Kept, Below, After, Repetitions;
    var root, inst: VarBind := [1, 3], VarBind([1, 3, 0], Data(7));
    LoneInstance(root, inst, VarBind([1, 3, 0], EndOfMibView));
    GetBulkIsRepetitions([inst], root, 2);
    AllUnderReturned(root, [inst, VarBind([1, 3, 0], EndOfMibView)]);
    assert Delivered([Good([inst, VarBind([1, 3, 0], EndOfMibView)])]) == [inst, VarBind([1, 3, 0], EndOfMibView)];
  }

  /** A device that holds one instance, below the root: two repetitions give it and a filler. */
  lemma LoneInstance(root: NonEmptyOid, inst: VarBind, filler: VarBind)
    requires root < inst.oid && inst.value.Data? && filler == VarBind(inst.oid, EndOfMibView)
    ensures Ordered([inst]) && After([inst], root) == [inst] && Below([inst], root) == [inst]
    ensures Repetitions([inst], root, 2) == [inst, filler]
  {
    PrefixLt(root, inst.oid);
    assert After([inst], root) == [inst];
    assert [inst][1..] == [];
    assert Repetitions([inst], root, 2) == [inst, filler];
  }

  lemma AllUnderReturned(root: NonEmptyOid, vbs: seq<VarBind>)
    requires vbs != [] && forall vb :: vb in vbs ==> root <= vb.oid
    ensures Kept(Single(Good(vbs)), root) == vbs
  {
    hide Under;
    UnderIffPrefix(vbs, root);
    assert vbs + [] == vbs;
    TakeUnderStops(vbs, [], root);
    SingleDelivers(Good(vbs));
  }
}

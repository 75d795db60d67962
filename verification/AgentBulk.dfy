/**
`AgentSnmpTransport.get` and `bulk_get` on textual answers: the batch gives each requested OID what its own get
would give.
*/
module AgentBulk {
  import opened Wrappers
  import opened AgentText

  /** The agent's answer for one OID. */
  datatype Answer = Answer(success: bool, output: string)

  /** The agent's answer to a batch: a dict, in its insertion order. */
  datatype BulkData = BulkData(success: bool, results: seq<(string, Answer)>)

  type Table = map<string, string>

  /**
  `get`, from the moment the agent's data has arrived; None for a timeout. `structured` is what the other parser makes
  of a non-empty list of structured results, None if the answer has no such list.
  */
  method Get(data: Option<Answer>, structured: Option<Result<seq<AgentVarBind>>>, table: Table)
    returns (r: Result<Option<seq<AgentVarBind>>>)
    ensures var arrived := data.Some? && data.value.success;
            var parsed := if data.None? || structured.Some? then structured
                          else Some(ParseOutput(data.value.output, table));
            && (r == Ok(None) <==> !arrived || parsed == Some(Ok([])))
            && (r == Raised <==> arrived && parsed == Some(Raised))
            && (r.Ok? && r.value.Some? ==> arrived && parsed == Some(Ok(r.value.value)))
    ensures data.Some? && structured.None? ==> r == GetResult(data.value, table)
  {
    if data.None? || !data.value.success {
      return Ok(None);
    }
    var varbinds;
    if structured.Some? {
      varbinds := structured.value;
    } else {
      varbinds := ParseOutputToVarbinds(data.value.output, table);
    }
    match varbinds
    case Raised => return Raised;
    case Ok(vbs) => return Ok(if vbs == [] then None else Some(vbs));
  }

  /** `varbinds if varbinds else None` */
  function NoneIfEmpty(r: Result<seq<AgentVarBind>>): Result<Option<seq<AgentVarBind>>> {
    match r
    case Raised => Raised
    case Ok(vbs) => Ok(if vbs == [] then None else Some(vbs))
  }

  function GetResult(a: Answer, table: Table): Result<Option<seq<AgentVarBind>>> {
    if !a.success then Ok(None) else NoneIfEmpty(ParseOutput(a.output, table))
  }

  function ResolveAll(oids: seq<string>, table: Table): seq<string> {
    seq(|oids|, i requires 0 <= i < |oids| => ResolveOid(oids[i], table))
  }

  /** `dict(zip(keys, values))`: the last of equal keys wins. */
  function Zip(keys: seq<string>, values: seq<string>): map<string, string>
    requires |keys| == |values|
  {
    if keys == [] then map[] else Zip(keys[..|keys| - 1], values[..|keys| - 1])[keys[|keys| - 1] := values[|keys| - 1]]
  }

  /** `oid_mapping.get(key, key)` */
  function NameOf(key: string, names: map<string, string>): string { if key in names then names[key] else key }

  /** What a batch keeps for one answer: [] where the get would give None. */
  function Entry(a: Answer, table: Table): Result<seq<AgentVarBind>> {
    if a.success then ParseOutput(a.output, table) else Ok([])
  }

  /** The result dict after the first answers; any answer that does not parse stops the batch. */
  function Collect(raw: seq<(string, Answer)>, names: map<string, string>, table: Table)
    : Result<map<string, seq<AgentVarBind>>>
  {
    if raw == [] then Ok(map[])
    else
      var last := raw[|raw| - 1];
      match (Collect(raw[..|raw| - 1], names, table), Entry(last.1, table))
      case (Ok(m), Ok(vbs)) => Ok(m[NameOf(last.0, names) := vbs])
      case _ => Raised
  }

  /** `bulk_get`, from the moment the agent's data has arrived. */
  method BulkGet(oids: seq<string>, data: Option<BulkData>, table: Table)
    returns (r: Result<Option<map<string, seq<AgentVarBind>>>>)
    ensures oids == [] ==> r == Ok(Some(map[]))
    ensures oids != [] && (data.None? || !data.value.success) ==> r == Ok(None)
    ensures oids != [] && data.Some? && data.value.success ==>
              match Collect(data.value.results, Zip(ResolveAll(oids, table), oids), table)
              case Raised => r == Raised
              case Ok(m) => r == Ok(Some(m))
  {
    if oids == [] {
      return Ok(Some(map[]));
    }
    if data.None? || !data.value.success {
      return Ok(None);
    }
    var raw := data.value.results;
    var names := Zip(ResolveAll(oids, table), oids);
    var results: map<string, seq<AgentVarBind>> := map[];
    for i := 0 to |raw|
      invariant Collect(raw[..i], names, table) == Ok(results)
    {
      assert raw[..i + 1][..i] == raw[..i];
      var original := NameOf(raw[i].0, names);
      if raw[i].1.success {
        var varbinds := ParseOutputToVarbinds(raw[i].1.output, table);
        if varbinds.Raised? {
          CollectFails(raw, i, names, table);
          return Raised;
        }
        results := results[original := varbinds.value];
      } else {
        results := results[original := []];
      }
    }
    assert raw[..|raw|] == raw;
    return Ok(Some(results));
  }

  /** One answer that does not parse loses the whole batch. */
  lemma {:induction false} CollectFails(raw: seq<(string, Answer)>, i: nat, names: map<string, string>, table: Table)
    requires i < |raw| && Entry(raw[i].1, table).Raised?
    ensures Collect(raw, names, table).Raised?
  {
    if i < |raw| - 1 {
      CollectFails(raw[..|raw| - 1], i, names, table);
    }
  }

  // ---------------------------------------------------------------- the batch against single gets

  predicate DistinctStrings(s: seq<string>) { forall i, j :: 0 <= i < j < |s| ==> s[i] != s[j] }

  function Keys(raw: seq<(string, Answer)>): seq<string> {
    seq(|raw|, i requires 0 <= i < |raw| => raw[i].0)
  }

  /** OIDs that resolve alike are written alike; a repeated OID does no harm. */
  predicate SameNames(oids: seq<string>, table: Table) {
    forall i, j :: 0 <= i < |oids| && 0 <= j < |oids| && ResolveOid(oids[i], table) == ResolveOid(oids[j], table) ==>
      oids[i] == oids[j]
  }

  /** Answer j is the answer to request i. */
  predicate Answers(oids: seq<string>, raw: seq<(string, Answer)>, table: Table, i: nat, j: nat)
    requires i < |oids| && j < |raw|
  {
    raw[j].0 == ResolveOid(oids[i], table)
  }

  /** Answer s is under a key that was not asked for, spelled like request i. */
  predicate Stray(oids: seq<string>, raw: seq<(string, Answer)>, table: Table, i: nat, s: nat)
    requires i < |oids| && s < |raw|
  {
    raw[s].0 == oids[i] && raw[s].0 !in ResolveAll(oids, table)
  }

  /** Of equal keys the last one counts. */
  lemma {:induction false} ZipLast(keys: seq<string>, values: seq<string>, i: nat)
    requires |keys| == |values| && i < |keys| && forall k :: i < k < |keys| ==> keys[k] != keys[i]
    ensures keys[i] in Zip(keys, values) && Zip(keys, values)[keys[i]] == values[i]
  {
    var n := |keys| - 1;
    if i < n {
      ZipLast(keys[..n], values[..n], i);
    }
  }

  /**
  The name an answer is kept under, for any OIDs: of those that resolve to its key the spelling that was asked for last,
  and the key itself if there is none.
  */
  lemma LastSpellingWins(oids: seq<string>, key: string, table: Table, i: nat)
    ensures i < |oids| && ResolveOid(oids[i], table) == key
            && (forall k :: i < k < |oids| ==> ResolveOid(oids[k], table) != key) ==>
              NameOf(key, Zip(ResolveAll(oids, table), oids)) == oids[i]
    ensures (forall k :: 0 <= k < |oids| ==> ResolveOid(oids[k], table) != key) ==>
              NameOf(key, Zip(ResolveAll(oids, table), oids)) == key
  {
    hide ResolveOid;
    var resolved := ResolveAll(oids, table);
    ZipKeys(resolved, oids);
    if i < |oids| && resolved[i] == key && forall k :: i < k < |oids| ==> resolved[k] != key {
      ZipLast(resolved, oids, i);
    }
  }

  lemma {:induction false} ZipAt(keys: seq<string>, values: seq<string>, i: nat)
    requires |keys| == |values| && i < |keys|
    requires forall k :: 0 <= k < |keys| && keys[k] == keys[i] ==> values[k] == values[i]
    ensures keys[i] in Zip(keys, values) && Zip(keys, values)[keys[i]] == values[i]
  {
    var n := |keys| - 1;
    if i < n {
      ZipAt(keys[..n], values[..n], i);
    }
  }

  lemma {:induction false} ZipKeys(keys: seq<string>, values: seq<string>)
    requires |keys| == |values|
    ensures forall k :: k in Zip(keys, values) <==> k in keys
  {
    if keys != [] {
      var n := |keys| - 1;
      ZipKeys(keys[..n], values[..n]);
      assert keys == keys[..n] + [keys[n]];
    }
  }

  /** What goes under a requested name: its answer, and a stray spelled like it. */
  lemma NameIs(oids: seq<string>, raw: seq<(string, Answer)>, table: Table, i: nat, k: nat)
    requires SameNames(oids, table) && i < |oids| && k < |raw|
    ensures NameOf(raw[k].0, Zip(ResolveAll(oids, table), oids)) == oids[i]
       <==> Answers(oids, raw, table, i, k) || Stray(oids, raw, table, i, k)
  {
    hide ResolveOid;
    var resolved, key := ResolveAll(oids, table), raw[k].0;
    ZipKeys(resolved, oids);
    assert resolved[i] == ResolveOid(oids[i], table);
    if key in resolved {
      var l :| 0 <= l < |oids| && resolved[l] == key;
      assert resolved[l] == ResolveOid(oids[l], table);
      ZipAt(resolved, oids, l);
    }
  }

  /** A batch whose answers all parse succeeds. */
  lemma {:induction false} CollectSucceeds(raw: seq<(string, Answer)>, names: map<string, string>, table: Table)
    requires forall i :: 0 <= i < |raw| ==> Entry(raw[i].1, table).Ok?
    ensures Collect(raw, names, table).Ok?
  {
    hide Entry, NameOf;
    if raw != [] {
      CollectSucceeds(raw[..|raw| - 1], names, table);
    }
  }

  /** An answer whose name does not come again is found under its name. */
  lemma {:induction false} CollectValue(raw: seq<(string, Answer)>, i: nat, names: map<string, string>, table: Table)
    requires i < |raw| && Collect(raw, names, table).Ok?
    requires forall j :: i < j < |raw| ==> NameOf(raw[j].0, names) != NameOf(raw[i].0, names)
    ensures var m := Collect(raw, names, table).value;
            NameOf(raw[i].0, names) in m && Ok(m[NameOf(raw[i].0, names)]) == Entry(raw[i].1, table)
  {
    hide Entry, NameOf;
    if i < |raw| - 1 {
      CollectValue(raw[..|raw| - 1], i, names, table);
    }
  }

  /** Every name in the result is the name of an answer. */
  lemma {:induction false} CollectKey(raw: seq<(string, Answer)>, name: string, names: map<string, string>,
                                      table: Table)
    returns (i: nat)
    requires Collect(raw, names, table).Ok? && name in Collect(raw, names, table).value
    ensures i < |raw| && NameOf(raw[i].0, names) == name
  {
    hide Entry, NameOf;
    var n := |raw| - 1;
    if name == NameOf(raw[n].0, names) {
      i := n;
    } else {
      i := CollectKey(raw[..n], name, names, table);
    }
  }

  /** The later answer k under a requested name decides, if no still later one is under it. */
  lemma LastDecides(oids: seq<string>, raw: seq<(string, Answer)>, table: Table, i: nat, k: nat)
    requires SameNames(oids, table) && i < |oids| && k < |raw|
    requires Collect(raw, Zip(ResolveAll(oids, table), oids), table).Ok?
    requires Answers(oids, raw, table, i, k) || Stray(oids, raw, table, i, k)
    requires forall l :: k < l < |raw| ==> !Answers(oids, raw, table, i, l) && !Stray(oids, raw, table, i, l)
    ensures var m := Collect(raw, Zip(ResolveAll(oids, table), oids), table).value;
            oids[i] in m && Ok(m[oids[i]]) == Entry(raw[k].1, table)
  {
    hide Collect, Entry, NameOf, Answers, Stray;
    var names := Zip(ResolveAll(oids, table), oids);
    NameIs(oids, raw, table, i, k);
    forall l | k < l < |raw| ensures NameOf(raw[l].0, names) != NameOf(raw[k].0, names) {
      NameIs(oids, raw, table, i, l);
    }
    CollectValue(raw, k, names, table);
  }

  /** An answer, and a stray, come at most once. */
  lemma OnlyOnce(oids: seq<string>, raw: seq<(string, Answer)>, table: Table, i: nat, k: nat, l: nat)
    requires DistinctStrings(Keys(raw)) && i < |oids| && k < |raw| && l < |raw|
    ensures Answers(oids, raw, table, i, k) && Answers(oids, raw, table, i, l) ==> k == l
    ensures Stray(oids, raw, table, i, k) && Stray(oids, raw, table, i, l) ==> k == l
  {
    hide ResolveOid;
    assert Keys(raw)[k] == raw[k].0 && Keys(raw)[l] == raw[l].0;
  }

  /**
  An answered request maps, under its original name, to what `get` makes of its answer, with [] for None, exactly if
  every stray that comes after the answer says the same.
  */
  lemma AnsweredIff(oids: seq<string>, raw: seq<(string, Answer)>, table: Table, i: nat, j: nat)
    requires SameNames(oids, table) && DistinctStrings(Keys(raw)) && i < |oids| && j < |raw|
    requires Answers(oids, raw, table, i, j)
    requires Collect(raw, Zip(ResolveAll(oids, table), oids), table).Ok?
    ensures var m := Collect(raw, Zip(ResolveAll(oids, table), oids), table).value;
            && oids[i] in m
            && (Ok(m[oids[i]]) == OrEmpty(GetResult(raw[j].1, table)) <==>
                  forall s :: j < s < |raw| && Stray(oids, raw, table, i, s) ==>
                      Entry(raw[s].1, table) == Entry(raw[j].1, table))
  {
    hide Collect, GetResult, Entry, Answers, Stray;
    EntryIsGet(raw[j].1, table);
    if s :| j < s < |raw| && Stray(oids, raw, table, i, s) {
      forall l | j < l < |raw| && l != s ensures !Answers(oids, raw, table, i, l) && !Stray(oids, raw, table, i, l) {
        OnlyOnce(oids, raw, table, i, j, l);
        OnlyOnce(oids, raw, table, i, s, l);
      }
      OnlyOnce(oids, raw, table, i, j, s);
      LastDecides(oids, raw, table, i, s);
    } else {
      forall l | j < l < |raw| ensures !Answers(oids, raw, table, i, l) {
        OnlyOnce(oids, raw, table, i, j, l);
      }
      LastDecides(oids, raw, table, i, j);
    }
  }

  /** A name is in the result exactly if its request was answered or a stray is spelled like it. */
  lemma PresentIff(oids: seq<string>, raw: seq<(string, Answer)>, table: Table, i: nat)
    requires SameNames(oids, table) && i < |oids|
    requires Collect(raw, Zip(ResolveAll(oids, table), oids), table).Ok?
    ensures oids[i] in Collect(raw, Zip(ResolveAll(oids, table), oids), table).value
       <==> exists k :: 0 <= k < |raw| && (Answers(oids, raw, table, i, k) || Stray(oids, raw, table, i, k))
  {
    hide Collect, Entry, NameOf, Answers, Stray;
    var names := Zip(ResolveAll(oids, table), oids);
    if oids[i] in Collect(raw, names, table).value {
      var k := CollectKey(raw, oids[i], names, table);
      NameIs(oids, raw, table, i, k);
    }
    if k :| 0 <= k < |raw| && (Answers(oids, raw, table, i, k) || Stray(oids, raw, table, i, k)) {
      NameIs(oids, raw, table, i, k);
      CollectHasName(raw, k, names, table);
    }
  }

  lemma {:induction false} CollectHasName(raw: seq<(string, Answer)>, k: nat, names: map<string, string>, table: Table)
    requires k < |raw| && Collect(raw, names, table).Ok?
    ensures NameOf(raw[k].0, names) in Collect(raw, names, table).value
  {
    hide Entry, NameOf;
    if k < |raw| - 1 {
      CollectHasName(raw[..|raw| - 1], k, names, table);
    }
  }

  /** Request i got in the batch what its own get would give, or nothing if it was not answered. */
  ghost predicate Met(oids: seq<string>, raw: seq<(string, Answer)>, table: Table, m: map<string, seq<AgentVarBind>>,
                      i: nat)
    requires i < |oids|
  {
    && (forall j :: 0 <= j < |raw| && Answers(oids, raw, table, i, j) ==>
          oids[i] in m && Ok(m[oids[i]]) == OrEmpty(GetResult(raw[j].1, table)))
    && ((forall j :: 0 <= j < |raw| ==> !Answers(oids, raw, table, i, j)) ==> oids[i] !in m)
  }

  /** The stray s does request i no harm: the request is answered, and later or alike. */
  ghost predicate Harmless(oids: seq<string>, raw: seq<(string, Answer)>, table: Table, i: nat, s: nat)
    requires i < |oids| && s < |raw|
  {
    exists j :: 0 <= j < |raw| && Answers(oids, raw, table, i, j)
                && (s < j || Entry(raw[s].1, table) == Entry(raw[j].1, table))
  }

  /**
  The batch refines the single gets: it raises iff one of them would; and for OIDs that resolve alike only if written
  alike, a request gets exactly what its own get would give if and only if every stray spelled like it is harmless.
  */
  lemma BulkRefinesGet(oids: seq<string>, raw: seq<(string, Answer)>, table: Table)
    requires SameNames(oids, table) && DistinctStrings(Keys(raw))
    ensures var r := Collect(raw, Zip(ResolveAll(oids, table), oids), table);
            && (r.Raised? <==> exists j :: 0 <= j < |raw| && GetResult(raw[j].1, table).Raised?)
            && (r.Ok? ==> forall i: nat :: i < |oids| ==>
                  (Met(oids, raw, table, r.value, i) <==>
                   forall s: nat :: s < |raw| && Stray(oids, raw, table, i, s) ==> Harmless(oids, raw, table, i, s)))
  {
    hide Collect, GetResult, Met, Harmless, Stray, SameNames;
    var names := Zip(ResolveAll(oids, table), oids);
    RaisesIffGetDoes(raw, names, table);
    if Collect(raw, names, table).Ok? {
      forall i: nat | i < |oids|
        ensures Met(oids, raw, table, Collect(raw, names, table).value, i) <==>
                forall s: nat :: s < |raw| && Stray(oids, raw, table, i, s) ==> Harmless(oids, raw, table, i, s)
      {
        MetIff(oids, raw, table, i);
      }
    }
  }

  lemma MetIff(oids: seq<string>, raw: seq<(string, Answer)>, table: Table, i: nat)
    requires SameNames(oids, table) && DistinctStrings(Keys(raw)) && i < |oids|
    requires Collect(raw, Zip(ResolveAll(oids, table), oids), table).Ok?
    ensures Met(oids, raw, table, Collect(raw, Zip(ResolveAll(oids, table), oids), table).value, i) <==>
            forall s: nat :: s < |raw| && Stray(oids, raw, table, i, s) ==> Harmless(oids, raw, table, i, s)
  {
    hide Collect, GetResult, Entry, Answers, Stray, SameNames, DistinctStrings;
    PresentIff(oids, raw, table, i);
    if j :| 0 <= j < |raw| && Answers(oids, raw, table, i, j) {
      AnsweredIff(oids, raw, table, i, j);
      forall l | 0 <= l < |raw| && Answers(oids, raw, table, i, l) ensures l == j {
        OnlyOnce(oids, raw, table, i, j, l);
      }
      forall s: nat | s < |raw| && Stray(oids, raw, table, i, s)
        ensures Harmless(oids, raw, table, i, s) <==> s < j || Entry(raw[s].1, table) == Entry(raw[j].1, table)
      {}
      forall s: nat | s < |raw| && Stray(oids, raw, table, i, s) ensures s != j {
        NotBoth(oids, raw, table, i, j);
      }
    }
  }

  lemma NotBoth(oids: seq<string>, raw: seq<(string, Answer)>, table: Table, i: nat, k: nat)
    requires i < |oids| && k < |raw|
    ensures !(Answers(oids, raw, table, i, k) && Stray(oids, raw, table, i, k))
  {
    assert ResolveAll(oids, table)[i] == ResolveOid(oids[i], table);
  }

  lemma EntryIsGet(a: Answer, table: Table)
    ensures Entry(a, table) == OrEmpty(GetResult(a, table))
  {
    hide ParseOutput;
  }

  lemma RaisesIffGetDoes(raw: seq<(string, Answer)>, names: map<string, string>, table: Table)
    ensures Collect(raw, names, table).Raised? <==> exists j :: 0 <= j < |raw| && GetResult(raw[j].1, table).Raised?
  {
    hide Collect, GetResult, Entry;
    forall j | 0 <= j < |raw| ensures Entry(raw[j].1, table) == OrEmpty(GetResult(raw[j].1, table)) {
      EntryIsGet(raw[j].1, table);
    }
    if j :| 0 <= j < |raw| && GetResult(raw[j].1, table).Raised? {
      CollectFails(raw, j, names, table);
    } else {
      CollectSucceeds(raw, names, table);
    }
  }

  function OrEmpty(r: Result<Option<seq<AgentVarBind>>>): Result<seq<AgentVarBind>> {
    match r
    case Raised => Raised
    case Ok(None) => Ok([])
    case Ok(Some(vbs)) => Ok(vbs)
  }

  // ---------------------------------------------------------------- the order of the answers

  /** The same answers in another order. */
  ghost predicate Rearranged(raw: seq<(string, Answer)>, raw': seq<(string, Answer)>) {
    DistinctStrings(Keys(raw')) && forall e :: e in raw <==> e in raw'
  }

  /** A request's answer and a stray spelled like the request say different things. */
  ghost predicate Clash(oids: seq<string>, raw: seq<(string, Answer)>, table: Table, i: nat, j: nat, s: nat) {
    i < |oids| && j < |raw| && s < |raw| && Answers(oids, raw, table, i, j) && Stray(oids, raw, table, i, s)
    && Entry(raw[j].1, table) != Entry(raw[s].1, table)
  }

  /** The order of the agent's dict does not matter exactly if the batch raises or no stray contradicts an answer. */
  lemma OrderMattersIff(oids: seq<string>, raw: seq<(string, Answer)>, table: Table)
    requires SameNames(oids, table) && DistinctStrings(Keys(raw))
    ensures var names := Zip(ResolveAll(oids, table), oids);
            (forall raw' :: Rearranged(raw, raw') ==> Collect(raw', names, table) == Collect(raw, names, table)) <==>
            (Collect(raw, names, table).Raised? || forall i: nat, j: nat, s: nat :: !Clash(oids, raw, table, i, j, s))
  {
    hide Collect, Entry, Answers, Stray, SameNames, Rearranged;
    var names := Zip(ResolveAll(oids, table), oids);
    if Collect(raw, names, table).Raised? || forall i: nat, j: nat, s: nat :: !Clash(oids, raw, table, i, j, s) {
      forall raw' | Rearranged(raw, raw') ensures Collect(raw', names, table) == Collect(raw, names, table) {
        OrderDoesNotMatter(oids, raw, raw', table);
      }
    } else {
      var i: nat, j: nat, s: nat :| Clash(oids, raw, table, i, j, s);
      SwapDiffers(oids, raw, table, i, j, s);
      assert Rearranged(raw, raw[j := raw[s]][s := raw[j]]);
    }
  }

  /** Answers that go under one name are alike. */
  ghost predicate Consistent(raw: seq<(string, Answer)>, names: map<string, string>, table: Table) {
    forall k, l :: 0 <= k < |raw| && 0 <= l < |raw| && NameOf(raw[k].0, names) == NameOf(raw[l].0, names) ==>
      Entry(raw[k].1, table) == Entry(raw[l].1, table)
  }

  lemma NoClashConsistent(oids: seq<string>, raw: seq<(string, Answer)>, table: Table)
    requires SameNames(oids, table) && DistinctStrings(Keys(raw))
    requires forall i: nat, j: nat, s: nat :: !Clash(oids, raw, table, i, j, s)
    ensures Consistent(raw, Zip(ResolveAll(oids, table), oids), table)
  {
    hide Entry, ResolveOid, SameNames, DistinctStrings, Answers, Stray;
    var names := Zip(ResolveAll(oids, table), oids);
    forall k: nat, l: nat | k < |raw| && l < |raw| && NameOf(raw[k].0, names) == NameOf(raw[l].0, names)
      ensures Entry(raw[k].1, table) == Entry(raw[l].1, table)
    {
      OneNameAlike(oids, raw, table, k, l);
    }
  }

  lemma OneNameAlike(oids: seq<string>, raw: seq<(string, Answer)>, table: Table, k: nat, l: nat)
    requires SameNames(oids, table) && DistinctStrings(Keys(raw)) && k < |raw| && l < |raw|
    requires forall i: nat, j: nat, s: nat :: !Clash(oids, raw, table, i, j, s)
    requires var names := Zip(ResolveAll(oids, table), oids); NameOf(raw[k].0, names) == NameOf(raw[l].0, names)
    ensures Entry(raw[k].1, table) == Entry(raw[l].1, table)
  {
    hide Entry, ResolveOid, SameNames, DistinctStrings, Answers, Stray;
    var names := Zip(ResolveAll(oids, table), oids);
    var name := NameOf(raw[k].0, names);
    if name in oids {
      var i :| 0 <= i < |oids| && oids[i] == name;
      NameIs(oids, raw, table, i, k);
      NameIs(oids, raw, table, i, l);
      OnlyOnce(oids, raw, table, i, k, l);
      assert !Clash(oids, raw, table, i, k, l) && !Clash(oids, raw, table, i, l, k);
    } else {
      KeptKey(oids, raw, table, k);
      KeptKey(oids, raw, table, l);
      SameKey(raw, k, l);
    }
  }

  /** A name that was not requested is the answer's own key. */
  lemma KeptKey(oids: seq<string>, raw: seq<(string, Answer)>, table: Table, k: nat)
    requires SameNames(oids, table) && k < |raw|
    requires NameOf(raw[k].0, Zip(ResolveAll(oids, table), oids)) !in oids
    ensures NameOf(raw[k].0, Zip(ResolveAll(oids, table), oids)) == raw[k].0
  {
    hide ResolveOid;
    var resolved := ResolveAll(oids, table);
    ZipKeys(resolved, oids);
    if raw[k].0 in resolved {
      var l :| 0 <= l < |oids| && resolved[l] == raw[k].0;
      assert forall m :: 0 <= m < |oids| ==> resolved[m] == ResolveOid(oids[m], table);
      ZipAt(resolved, oids, l);
    }
  }

  lemma SameKey(raw: seq<(string, Answer)>, k: nat, l: nat)
    requires DistinctStrings(Keys(raw)) && k < |raw| && l < |raw| && raw[k].0 == raw[l].0
    ensures k == l
  {
    assert Keys(raw)[k] == Keys(raw)[l];
  }

  lemma {:induction false} CollectConsistent(raw: seq<(string, Answer)>, k: nat, names: map<string, string>,
                                             table: Table)
    requires k < |raw| && Collect(raw, names, table).Ok? && Consistent(raw, names, table)
    ensures var m := Collect(raw, names, table).value;
            NameOf(raw[k].0, names) in m && Ok(m[NameOf(raw[k].0, names)]) == Entry(raw[k].1, table)
  {
    hide Entry, NameOf;
    var n := |raw| - 1;
    if k < n {
      CollectConsistent(raw[..n], k, names, table);
      assert raw[..n][k] == raw[k];
    }
  }

  lemma OrderDoesNotMatter(oids: seq<string>, raw: seq<(string, Answer)>, raw': seq<(string, Answer)>, table: Table)
    requires SameNames(oids, table) && DistinctStrings(Keys(raw)) && Rearranged(raw, raw')
    requires var names := Zip(ResolveAll(oids, table), oids);
             Collect(raw, names, table).Raised? || forall i: nat, j: nat, s: nat :: !Clash(oids, raw, table, i, j, s)
    ensures var names := Zip(ResolveAll(oids, table), oids);
            Collect(raw', names, table) == Collect(raw, names, table)
  {
    hide Collect, Entry, NameOf, Consistent, SameNames, DistinctStrings, Clash;
    var names := Zip(ResolveAll(oids, table), oids);
    BothParse(raw, raw', names, table);
    BothParse(raw', raw, names, table);
    if Collect(raw, names, table).Ok? {
      NoClashConsistent(oids, raw, table);
      ConsistentKept(raw, raw', names, table);
      Carried(raw, raw', names, table);
      Carried(raw', raw, names, table);
      assert Collect(raw, names, table).value.Keys == Collect(raw', names, table).value.Keys;
      assert Collect(raw, names, table).value == Collect(raw', names, table).value;
    }
  }

  lemma BothParse(raw: seq<(string, Answer)>, raw': seq<(string, Answer)>, names: map<string, string>, table: Table)
    requires forall e :: e in raw' ==> e in raw
    ensures Collect(raw, names, table).Ok? ==> Collect(raw', names, table).Ok?
  {
    hide Collect, Entry, NameOf;
    if k :| 0 <= k < |raw'| && Entry(raw'[k].1, table).Raised? {
      assert raw'[k] in raw;
      var l :| 0 <= l < |raw| && raw[l] == raw'[k];
      CollectFails(raw, l, names, table);
    } else {
      CollectSucceeds(raw', names, table);
    }
  }

  lemma ConsistentKept(raw: seq<(string, Answer)>, raw': seq<(string, Answer)>, names: map<string, string>,
                       table: Table)
    requires Consistent(raw, names, table) && forall e :: e in raw' ==> e in raw
    ensures Consistent(raw', names, table)
  {
    hide Entry, NameOf;
    forall k, l | 0 <= k < |raw'| && 0 <= l < |raw'| && NameOf(raw'[k].0, names) == NameOf(raw'[l].0, names)
      ensures Entry(raw'[k].1, table) == Entry(raw'[l].1, table)
    {
      assert raw'[k] in raw && raw'[l] in raw;
    }
  }

  /** What one order gives, any other order with the same answers gives too. */
  lemma Carried(raw: seq<(string, Answer)>, raw': seq<(string, Answer)>, names: map<string, string>, table: Table)
    requires forall e :: e in raw ==> e in raw'
    requires Consistent(raw, names, table) && Consistent(raw', names, table)
    requires Collect(raw, names, table).Ok? && Collect(raw', names, table).Ok?
    ensures forall name :: name in Collect(raw, names, table).value ==>
              name in Collect(raw', names, table).value
              && Collect(raw', names, table).value[name] == Collect(raw, names, table).value[name]
  {
    hide Collect, Entry, NameOf, Consistent;
    var r, r' := Collect(raw, names, table), Collect(raw', names, table);
    forall name | name in r.value ensures name in r'.value && r'.value[name] == r.value[name] {
      var k := CollectKey(raw, name, names, table);
      CollectConsistent(raw, k, names, table);
      assert raw[k] in raw';
      var l :| 0 <= l < |raw'| && raw'[l] == raw[k];
      CollectConsistent(raw', l, names, table);
    }
  }

  /** Exchanging an answer and a stray that contradicts it exchanges what the request gets. */
  lemma SwapDiffers(oids: seq<string>, raw: seq<(string, Answer)>, table: Table, i: nat, j: nat, s: nat)
    requires SameNames(oids, table) && DistinctStrings(Keys(raw)) && Clash(oids, raw, table, i, j, s)
    requires Collect(raw, Zip(ResolveAll(oids, table), oids), table).Ok?
    ensures var raw', names := raw[j := raw[s]][s := raw[j]], Zip(ResolveAll(oids, table), oids);
            Rearranged(raw, raw') && Collect(raw', names, table) != Collect(raw, names, table)
  {
    hide Collect, Entry, NameOf, Answers, Stray, SameNames, DistinctStrings, ResolveOid;
    var names := Zip(ResolveAll(oids, table), oids);
    var raw' := raw[j := raw[s]][s := raw[j]];
    NotBoth(oids, raw, table, i, j);
    SwapKeeps(raw, j, s);
    BothParse(raw, raw', names, table);
    var early, late := if j < s then j else s, if j < s then s else j;
    Moved(oids, raw, raw', table, i, j, s);
    Moved(oids, raw, raw', table, i, s, j);
    OnlyTheseTwo(oids, raw, table, i, early, late);
    OnlyTheseTwo(oids, raw', table, i, early, late);
    LastDecides(oids, raw, table, i, late);
    LastDecides(oids, raw', table, i, late);
  }

  lemma SwapKeeps(raw: seq<(string, Answer)>, j: nat, s: nat)
    requires j < |raw| && s < |raw| && DistinctStrings(Keys(raw))
    ensures Rearranged(raw, raw[j := raw[s]][s := raw[j]])
  {
    var raw' := raw[j := raw[s]][s := raw[j]];
    forall k, l | 0 <= k < l < |raw'| ensures Keys(raw')[k] != Keys(raw')[l] {
      var k0, l0 := if k == j then s else if k == s then j else k, if l == j then s else if l == s then j else l;
      assert Keys(raw)[k0] == Keys(raw')[k] && Keys(raw)[l0] == Keys(raw')[l] && k0 != l0;
    }
    forall e ensures e in raw <==> e in raw' {
      if e in raw {
        var k :| 0 <= k < |raw| && raw[k] == e;
        assert raw'[if k == j then s else if k == s then j else k] == e;
      }
    }
  }

  /** What stands at l now stood at k before. */
  lemma Moved(oids: seq<string>, raw: seq<(string, Answer)>, raw': seq<(string, Answer)>, table: Table, i: nat, k: nat,
              l: nat)
    requires i < |oids| && k < |raw| && l < |raw'| && raw'[l] == raw[k]
    ensures Answers(oids, raw, table, i, k) <==> Answers(oids, raw', table, i, l)
    ensures Stray(oids, raw, table, i, k) <==> Stray(oids, raw', table, i, l)
  {}

  lemma OnlyTheseTwo(oids: seq<string>, raw: seq<(string, Answer)>, table: Table, i: nat, k: nat, l: nat)
    requires DistinctStrings(Keys(raw)) && i < |oids| && k < l < |raw|
    requires (Answers(oids, raw, table, i, k) && Stray(oids, raw, table, i, l))
             || (Stray(oids, raw, table, i, k) && Answers(oids, raw, table, i, l))
    ensures forall m :: l < m < |raw| ==> !Answers(oids, raw, table, i, m) && !Stray(oids, raw, table, i, m)
  {
    hide Answers, Stray, DistinctStrings;
    forall m | l < m < |raw| ensures !Answers(oids, raw, table, i, m) && !Stray(oids, raw, table, i, m) {
      OnlyOnce(oids, raw, table, i, k, m);
      OnlyOnce(oids, raw, table, i, l, m);
    }
  }

  /** The smallest clash: a stray spelled like the requested name and the real answer overwrite each other. */
  lemma StrayAnswerOverwrites(name: string, asked: Answer, stray: Answer, table: Table)
    requires ResolveOid(name, table) != name
    requires Entry(asked, table).Ok? && Entry(stray, table).Ok?
    ensures var names, num := Zip(ResolveAll([name], table), [name]), ResolveOid(name, table);
            var a, b := Collect([(num, asked), (name, stray)], names, table),
                     Collect([(name, stray), (num, asked)], names, table);
            && a.Ok? && a.value == map[name := Entry(stray, table).value]
            && b.Ok? && b.value == map[name := Entry(asked, table).value]
  {
    hide Entry, ResolveOid;
    var num := ResolveOid(name, table);
    var resolved := ResolveAll([name], table);
    assert resolved == [num];
    var names := Zip(resolved, [name]);
    ZipAt(resolved, [name], 0);
    ZipKeys(resolved, [name]);
    TwoAnswers((num, asked), (name, stray), names, table);
    TwoAnswers((name, stray), (num, asked), names, table);
  }

  lemma TwoAnswers(x: (string, Answer), y: (string, Answer), names: map<string, string>, table: Table)
    requires Entry(x.1, table).Ok? && Entry(y.1, table).Ok?
    ensures Collect([x, y], names, table)
         == Ok(map[NameOf(x.0, names) := Entry(x.1, table).value][NameOf(y.0, names) := Entry(y.1, table).value])
  {
    hide Entry, NameOf;
    assert [x, y][..1] == [x];
    assert [x][..0] == [];
    var none: map<string, seq<AgentVarBind>> := map[];
    var k, v := NameOf(x.0, names), Entry(x.1, table).value;
    assert Collect([x][..0], names, table) == Ok(none);
    assert none[k := v] == map[k := v];
    assert Collect([x], names, table) == Ok(map[NameOf(x.0, names) := Entry(x.1, table).value]);
  }
}

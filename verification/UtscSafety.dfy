/** The rules of the UTSC run: how it ends, what goes before the start, the start and the stop, and the row. */
module UtscSafety {
  import opened Wrappers
  import opened PyText
  import opened UtscLimits
  import opened UtscRun
  import opened UtscTrace

  // ---------------------------------------------------------------- requests by their part in the run

  predicate IsControl(op: Op) { op.Set? && op.oid.UtscCtrl? }

  predicate IsStart(op: Op) { IsControl(op) && op.value == Num(1) }

  predicate IsRowStatus(op: Op) { op.Set? && op.oid.UtscCfg? && op.oid.column == 21 }

  predicate IsDestroy(op: Op) { IsRowStatus(op) && op.value == Num(6) }

  predicate IsCreate(op: Op) { IsRowStatus(op) && op.value == Num(4) }

  predicate IsProbe(op: Op) { op.Get? && op.oid.UtscCfg? && op.oid.column == 3 }

  /** No row status, no control, no probe. */
  predicate Plain(op: Op) { !IsControl(op) && !IsRowStatus(op) && !IsProbe(op) }

  predicate AllPlain(ops: seq<Op>) { forall i :: 0 <= i < |ops| ==> Plain(ops[i]) }

  lemma PlainJoin(a: seq<Op>, b: seq<Op>)
    ensures AllPlain(a + b) <==> AllPlain(a) && AllPlain(b)
  {
    var all := a + b;
    assert forall i :: 0 <= i < |a| ==> all[i] == a[i];
    assert forall i :: 0 <= i < |b| ==> all[|a| + i] == b[i];
  }

  lemma FieldOpsPlain(row: int, t: Transfer, missing: bool)
    ensures AllPlain(FieldOps(row, t, missing))
  {
    PlainJoin(if missing then [Set(BdtE6000(9, row), Num(5))] else [],
              [Set(BdtE6000(3, row), Num(1)), Set(BdtE6000(4, row), Text(t.tftpHex)),
                  Set(BdtE6000(6, row), Text(t.uri)),
               Set(BdtE6000(7, row), Num(1)), Set(BdtE6000(9, row), Num(1))]);
  }

  lemma BdtOpsPlain(vendor: Vendor, row: int, t: Transfer, first: Result<string>)
    ensures AllPlain(BdtOps(vendor, row, t, first))
  {
    hide FieldOps;
    FieldOpsPlain(row, t, false);
    FieldOpsPlain(row, t, true);
    assert AllPlain([Get(BdtE6000(9, row))]) && AllPlain([]);
    PlainJoin([Get(BdtE6000(9, row))], FieldOps(row, t, false));
    PlainJoin([Get(BdtE6000(9, row))], FieldOps(row, t, true));
    PlainJoin([Get(BdtE6000(9, row))], []);
  }

  lemma OpeningPlain(site: Site, answers: Answers)
    requires answers(0).Ok?
    ensures AllPlain(Opening(site, answers))
  {
    hide BdtOps;
    var vendor := VendorAt(site, answers);
    var probe := SubtypeProbe(vendor, site.port);
    var bdt := BdtOps(vendor, 1, site.transfer, answers(1 + |probe|));
    BdtOpsPlain(vendor, 1, site.transfer, answers(1 + |probe|));
    PlainJoin(probe, bdt);
    PlainJoin([Get(SysDescr)], probe + bdt);
  }

  lemma UtscOpsPlain(port: int, index: int, vendor: Vendor, s: Settings)
    ensures AllPlain(UtscOps(port, index, vendor, s))
  {}

  lemma SpecialIn(head: seq<Op>, row: seq<Op>, config: seq<Op>, test: seq<Op>, ops: seq<Op>, i: nat)
    requires AllPlain(head) && AllPlain(config) && ops <= head + row + config + test
    requires i < |ops|
    ensures || Plain(ops[i])
            || (|head| <= i < |head| + |row| && ops[i] == row[i - |head|])
            || (|head| + |row| + |config| <= i < |head| + |row| + |config| + |test|
                && ops[i] == test[i - |head| - |row| - |config|])
  {
    hide Plain;
    var all := head + row + config + test;
    assert ops[i] == all[i];
    assert i < |head| ==> all[i] == head[i];
    assert |head| + |row| <= i < |head| + |row| + |config| ==> all[i] == config[i - |head| - |row|];
  }

  /** Every request of interest belongs to the row lifecycle or to the test. */
  lemma Special(site: Site, answers: Answers, i: nat)
    requires Ticks(site.clock) && i < |MainPart(site, answers).ops| && !Plain(MainPart(site, answers).ops[i])
    ensures ReachesRow(site, answers) && |Opening(site, answers)| <= i
    ensures var op, head, row := MainPart(site, answers).ops[i], Opening(site, answers), RowAt(site, answers);
            || (i < |head| + |row.ops| && op == row.ops[i - |head|])
            || (ReachesTest(site, answers)
                && |Setup(site, answers)| <= i < |Setup(site, answers)| + |TestAt(site, answers).ops|
                && op == TestAt(site, answers).ops[i - |Setup(site, answers)|])
  {
    hide MainPart, Opening, RowPart, SettingsOps, TestPart, Ticks, AllOk, Plain, AllPlain;
    OpeningStage(site, answers);
    RunStages(site, answers);
    var ops := MainPart(site, answers).ops;
    PlainFirst();
    if answers(0).Ok? {
      var head, row := Opening(site, answers), RowAt(site, answers);
      OpeningPlain(site, answers);
      if !ReachesRow(site, answers) {
        assert head + [] + [] + [] == head && [Get(SysDescr)] + [] + [] + [] == [Get(SysDescr)];
        SpecialIn(if ops == [Get(SysDescr)] then [Get(SysDescr)] else head, [], [], [], ops, i);
      } else if row.result.Quit? {
        assert head + row.ops + [] + [] == head + row.ops;
        SpecialIn(head, row.ops, [], [], ops, i);
      } else {
        SettingsPlain(site, answers);
        var test := if ReachesTest(site, answers) then TestAt(site, answers).ops else [];
        assert Setup(site, answers) + [] == Setup(site, answers);
        SpecialIn(head, row.ops, SettingsOps(site, answers), test, ops, i);
      }
    } else {
      SpecialIn([Get(SysDescr)], [], [], [], ops, i);
    }
  }

  lemma PlainFirst()
    ensures AllPlain([Get(SysDescr)]) && AllPlain([])
  {}

  lemma SettingsPlain(site: Site, answers: Answers)
    requires answers(0).Ok? && RowAt(site, answers).result.Use?
    ensures AllPlain(SettingsOps(site, answers))
  {
    hide AllPlain, UtscOps;
    var vendor := VendorAt(site, answers);
    UtscOpsPlain(site.port, RowAt(site, answers).result.index, vendor, Programmed(vendor, CoreAt(site, answers)));
  }

  /** The part of the run from the trigger on. */
  function TestAt(site: Site, answers: Answers): Part<Exit>
    requires Ticks(site.clock) && answers(0).Ok? && RowAt(site, answers).result.Use?
  {
    TestPart(site.port, RowAt(site, answers).result.index, site.clock, answers, |Setup(site, answers)|)
  }

  // ---------------------------------------------------------------- how a run ends

  /** A run ends by an exception exactly if one of its requests raised. */
  lemma CrashedIff(site: Site, answers: Answers)
    requires Ticks(site.clock)
    ensures var p := MainPart(site, answers);
            p.result == Crashed <==> exists i :: 0 <= i < |p.ops| && answers(i).Raised?
  {
    hide MainPart, Opening, RowPart, SettingsOps, TestPart, Ticks;
    OpeningStage(site, answers);
    RunStages(site, answers);
    var p := MainPart(site, answers);
    if ReachesRow(site, answers) {
      var head, row := Opening(site, answers), RowAt(site, answers);
      RowArrived(site, answers);
      RowQuits(site, answers);
      AllOkJoin(answers, 0, |head|, |row.ops|);
      if ReachesTest(site, answers) {
        var polls := TestShape(site.port, row.result.index, site.clock, answers, |Setup(site, answers)|);
        AllOkJoin(answers, 0, |Setup(site, answers)|, |TestAt(site, answers).ops|);
      }
    }
    RaisedIff(answers, |p.ops|);
  }

  lemma RaisedIff(answers: Answers, m: nat)
    ensures !AllOk(answers, 0, m) <==> exists i :: 0 <= i < m && answers(i).Raised?
  {
    if i: nat :| 0 <= i < 0 + m && !answers(i).Ok? {
      assert answers(i).Raised?;
    }
  }

  lemma RowQuits(site: Site, answers: Answers)
    requires answers(0).Ok?
    ensures var row := RowAt(site, answers);
            row.ops != [] && (row.result.Quit? ==> row.result.exit in {Crashed, Exited(1)})
  {
    hide RowPart, Opening;
    RowShape(VendorAt(site, answers), site.port, site.cfgIndex, answers, |Opening(site, answers)|);
  }

  /** It ends early only for an EVO, or when createAndGo was rejected; otherwise it is finished, and then stopped. */
  lemma EndsOtherwise(site: Site, answers: Answers)
    requires Ticks(site.clock)
    ensures var p := MainPart(site, answers);
            && p.result in {Crashed, Exited(0), Exited(1), Finished}
            && (p.result == Exited(0) <==> answers(0).Ok? && site.vendorOf(answers(0).value).Evo?)
            && (p.result == Exited(1) <==> exists i :: 0 <= i < |p.ops| && CreateRejected(p.ops, answers, i))
            && (p.result == Finished ==> ReachesTest(site, answers))
            && (ReachesTest(site, answers) ==> p.result == Finished || p.result == Crashed)
  {
    hide MainPart, Opening, RowPart, Setup, TestPart, Ticks, AllOk, ReachesRow, ReachesTest;
    StageOrder(site, answers);
    RejectedIff(site, answers);
    OpeningStage(site, answers);
    RunStages(site, answers);
    if answers(0).Ok? {
      RowQuits(site, answers);
      if VendorAt(site, answers).Evo? {
        EvoEnds(site, answers);
      }
      if ReachesTest(site, answers) {
        var polls := TestShape(site.port, RowAt(site, answers).result.index, site.clock, answers,
            |Setup(site, answers)|);
      }
    }
  }

  /** Request i creates the row, and its answer rejects that. */
  predicate CreateRejected(log: seq<Op>, answers: Answers, i: nat)
    requires i < |log|
  {
    IsCreate(log[i]) && answers(i).Ok?
    && (Contains(answers(i).value, "commitFailed") || Contains(answers(i).value, "wrongValue"))
  }

  lemma RejectedIff(site: Site, answers: Answers)
    requires Ticks(site.clock)
    ensures ReachesRow(site, answers) && RowAt(site, answers).result == Quit(Exited(1)) <==>
              exists i :: 0 <= i < |MainPart(site, answers).ops|
                  && CreateRejected(MainPart(site, answers).ops, answers, i)
  {
    hide MainPart, Opening, RowPart, FindPart, FreshPart, Ticks, AllOk, ReachesRow, Contains, IsCreate, FoundOps;
    StageOrder(site, answers);
    var log := MainPart(site, answers).ops;
    if ReachesRow(site, answers) {
      RowInLog(site, answers);
      RowRejected(site, answers);
      var n, m := |Opening(site, answers)|, |FoundOps(site, answers)|;
      if RowAt(site, answers).result == Quit(Exited(1)) {
        RowOpAt(site, answers, m + 1);
        assert log[n + m + 1] == log[n..n + |RowAt(site, answers).ops|][m + 1];
        assert CreateRejected(log, answers, n + m + 1);
      }
    }
    if i :| 0 <= i < |log| && CreateRejected(log, answers, i) {
      NotInTest(site, answers, i);
      var n := |Opening(site, answers)|;
      assert log[i] == log[n..n + |RowAt(site, answers).ops|][i - n];
      RowOpAt(site, answers, i - n);
    }
  }

  /** The lifecycle ends the run with 1 exactly if the request after the destroy is answered by a rejection. */
  lemma RowRejected(site: Site, answers: Answers)
    requires answers(0).Ok?
    ensures var row, m := RowAt(site, answers), |FoundOps(site, answers)|;
            var i := |Opening(site, answers)| + m + 1;
            row.result == Quit(Exited(1)) <==>
              |row.ops| > m + 1 && answers(i).Ok?
              && (Contains(answers(i).value, "commitFailed") || Contains(answers(i).value, "wrongValue"))
  {
    hide Opening, FindPart, FreshPart, AllOk, Contains, Val;
    var n, found := |Opening(site, answers)|, FoundOps(site, answers);
    RowShape(VendorAt(site, answers), site.port, site.cfgIndex, answers, n);
    FreshShape(site.port, site.cfgIndex, answers, n + |found|);
  }

  lemma StageOrder(site: Site, answers: Answers)
    ensures ReachesRow(site, answers) ==> answers(0).Ok? && !VendorAt(site, answers).Evo?
    ensures ReachesTest(site, answers) ==> ReachesRow(site, answers) && RowAt(site, answers).result.Use?
  {}

  lemma EvoEnds(site: Site, answers: Answers)
    requires Ticks(site.clock) && answers(0).Ok? && VendorAt(site, answers).Evo?
    ensures MainPart(site, answers) == Part([Get(SysDescr)], Exited(0))
  {
    hide Ticks;
  }

  // ---------------------------------------------------------------- start and stop

  /** The position of the start among the test's requests; the stop is the last of them. */
  lemma ControlInTest(port: int, index: int, clock: nat -> real, answers: Answers, n: nat, j: nat)
    requires Ticks(clock) && j < |TestPart(port, index, clock, answers, n).ops|
    ensures var ops := TestPart(port, index, clock, answers, n).ops;
            var last := |TriggerPart(port, index, answers, n).ops| - 1;
            && 0 <= last < |ops| - 1 && ops[|ops| - 1] == Set(UtscCtrl(port, index), Num(2))
            && (IsControl(ops[j]) <==> j == |ops| - 1 || (j == last && ops[last] == Set(UtscCtrl(port, index), Num(1))))
            && (IsStart(ops[j]) <==> j == last && ops[last] == Set(UtscCtrl(port, index), Num(1)))
            && !IsDestroy(ops[j]) && !IsCreate(ops[j]) && !IsProbe(ops[j])
            && ops[last] == TriggerPart(port, index, answers, n).ops[last]
  {
    hide TestPart, TriggerPart, Ticks;
    TriggerShape(port, index, answers, n);
    var polls := TestShape(port, index, clock, answers, n);
    var ops, t := TestPart(port, index, clock, answers, n).ops, TriggerPart(port, index, answers, n).ops;
    assert ops[j] == if j < |t| then t[j]
                     else if j < |ops| - 1 then StatusReads(port, index, polls)[j - |t|]
                     else Set(UtscCtrl(port, index), Num(2));
    TriggerOps(t, port, index);
  }

  lemma TriggerOps(t: seq<Op>, port: int, index: int)
    requires var get, active := Get(UtscCfg(21, port, index)), Set(UtscCfg(21, port, index), Num(1));
             t == [get] || t == [get, active] || t == [get, active, Set(UtscCtrl(port, index), Num(1))]
                 || t == [get, Set(UtscCtrl(port, index), Num(1))]
    ensures forall j :: 0 <= j < |t| ==>
              && (IsControl(t[j]) <==> j == |t| - 1 && t[j] == Set(UtscCtrl(port, index), Num(1)))
              && !IsDestroy(t[j]) && !IsCreate(t[j]) && !IsProbe(t[j])
  {}

  /** The trigger gets past the row status and the activation. */
  predicate StartSent(site: Site, answers: Answers)
    requires answers(0).Ok? && RowAt(site, answers).result.Use?
  {
    var n := |Setup(site, answers)|;
    answers(n).Ok? && (Val(answers(n).value) == 1 || answers(n + 1).Ok?)
  }

  /** Where the start stands if it is sent. */
  function StartAt(site: Site, answers: Answers): int
    requires answers(0).Ok? && RowAt(site, answers).result.Use?
  {
    var n := |Setup(site, answers)|;
    n + |TriggerPart(site.port, RowAt(site, answers).result.index, answers, n).ops| - 1
  }

  lemma StartSentIs(site: Site, answers: Answers)
    requires answers(0).Ok? && RowAt(site, answers).result.Use?
    ensures var index, n := RowAt(site, answers).result.index, |Setup(site, answers)|;
            var t := TriggerPart(site.port, index, answers, n).ops;
            |t| > 0 && (t[|t| - 1] == Set(UtscCtrl(site.port, index), Num(1)) <==> StartSent(site, answers))
  {
    hide Setup, RowAt, TriggerPart, Val;
    TriggerShape(site.port, RowAt(site, answers).result.index, answers, |Setup(site, answers)|);
  }

  /** Exactly when request i is the start, exactly when it is a control at all, and on which row. */
  lemma ControlIff(site: Site, answers: Answers, i: nat)
    requires Ticks(site.clock) && i < |MainPart(site, answers).ops|
    ensures var log := MainPart(site, answers).ops;
            && (IsStart(log[i]) <==>
                  ReachesTest(site, answers) && StartSent(site, answers) && i == StartAt(site, answers))
            && (IsControl(log[i]) <==> ReachesTest(site, answers) && (i == |log| - 1 || IsStart(log[i])))
            && (IsControl(log[i]) ==>
                  var index := RowAt(site, answers).result.index;
                  && log[|log| - 1] == Set(UtscCtrl(site.port, index), Num(2)) && (IsStart(log[i]) ==> i < |log| - 1)
                  && log[i] == Set(UtscCtrl(site.port, index), Num(if IsStart(log[i]) then 1 else 2)))
  {
    hide MainPart, Setup, RowAt, TestPart, TriggerPart, Ticks, AllOk, ReachesRow, ReachesTest, StartSent, Plain;
    StageOrder(site, answers);
    var log := MainPart(site, answers).ops;
    if ReachesTest(site, answers) {
      RunStages(site, answers);
      StartSentIs(site, answers);
      var index, n, ops := RowAt(site, answers).result.index, |Setup(site, answers)|, TestAt(site, answers).ops;
      assert log == Setup(site, answers) + ops;
      var polls := TestShape(site.port, index, site.clock, answers, n);
      if i >= n {
        ControlInTest(site.port, index, site.clock, answers, n, i - n);
        assert log[i] == ops[i - n];
        assert IsStart(log[i]) <==> StartSent(site, answers) && i == StartAt(site, answers);
      }
      assert StartAt(site, answers) >= n;
    }
    NoControlBefore(site, answers, i);
  }

  /** No control goes out before the test. */
  lemma NoControlBefore(site: Site, answers: Answers, i: nat)
    requires Ticks(site.clock) && i < |MainPart(site, answers).ops|
    ensures IsControl(MainPart(site, answers).ops[i]) ==> ReachesTest(site, answers) && |Setup(site, answers)| <= i
  {
    hide MainPart, Setup, RowAt, TestPart, Ticks, AllOk, ReachesRow, ReachesTest, Plain;
    StageOrder(site, answers);
    var op := MainPart(site, answers).ops[i];
    ControlIsNotPlain(op);
    if !Plain(op) {
      Special(site, answers, i);
      if i - |Opening(site, answers)| < |RowAt(site, answers).ops| {
        RowOpAt(site, answers, i - |Opening(site, answers)|);
      }
    }
  }

  lemma ControlIsNotPlain(op: Op)
    ensures IsControl(op) || IsDestroy(op) || IsCreate(op) || IsProbe(op) ==> !Plain(op)
  {}

  // ---------------------------------------------------------------- the row

  function FoundOps(site: Site, answers: Answers): seq<Op>
    requires answers(0).Ok?
  {
    if VendorAt(site, answers).Cisco? then []
    else FindPart(site.port, 2, answers, |Opening(site, answers)|, 1).ops
  }

  /** No probe shows a row in the mode, or none is made. */
  predicate RowMissed(site: Site, answers: Answers)
    requires answers(0).Ok?
  {
    VendorAt(site, answers).Cisco?
    || FindPart(site.port, 2, answers, |Opening(site, answers)|, 1).result == Ok(None)
  }

  lemma RowOpAt(site: Site, answers: Answers, j: nat)
    requires answers(0).Ok? && j < |RowAt(site, answers).ops|
    ensures var row, found := RowAt(site, answers).ops, |FoundOps(site, answers)|;
            var destroy := Set(UtscCfg(21, site.port, site.cfgIndex), Num(6));
            && (row[j] == if j < found then Get(UtscCfg(3, site.port, j + 1))
                          else if j == found then destroy else Set(UtscCfg(21, site.port, site.cfgIndex), Num(4)))
            && !IsControl(row[j]) && (IsProbe(row[j]) <==> j < found)
            && (IsDestroy(row[j]) <==> j == found) && (IsCreate(row[j]) <==> j == found + 1)
            && (j >= found ==> RowMissed(site, answers)) && (j == found + 1 ==> row[j - 1] == destroy)
  {
    hide Opening, RowPart, FindPart, FreshPart;
    var vendor, n := VendorAt(site, answers), |Opening(site, answers)|;
    RowShape(vendor, site.port, site.cfgIndex, answers, n);
    var row, found := RowAt(site, answers).ops, FoundOps(site, answers);
    FreshShape(site.port, site.cfgIndex, answers, n + |found|);
    if j < |found| {
      assert row[j] == found[j];
    }
  }

  /** Where a row is destroyed: by the request after the probes, and only if they show no row. */
  lemma DestroyIff(site: Site, answers: Answers, i: nat)
    requires Ticks(site.clock) && i < |MainPart(site, answers).ops|
    ensures var log := MainPart(site, answers).ops;
            && (IsDestroy(log[i]) <==>
                  ReachesRow(site, answers) && RowMissed(site, answers)
                  && i == |Opening(site, answers)| + |FoundOps(site, answers)|)
            && (IsDestroy(log[i]) ==> log[i] == Set(UtscCfg(21, site.port, site.cfgIndex), Num(6)))
            && (IsCreate(log[i]) ==> ReachesRow(site, answers) && RowMissed(site, answers) && i > 0
                                     && log[i - 1] == Set(UtscCfg(21, site.port, site.cfgIndex), Num(6))
                                     && log[i] == Set(UtscCfg(21, site.port, site.cfgIndex), Num(4)))
            && (IsProbe(log[i]) <==> ReachesRow(site, answers)
                                     && 0 <= i - |Opening(site, answers)| < |FoundOps(site, answers)|)
  {
    hide MainPart, Opening, RowAt, FoundOps, RowMissed, Ticks, AllOk, ReachesRow, ReachesTest, Plain;
    StageOrder(site, answers);
    var log := MainPart(site, answers).ops;
    ControlIsNotPlain(log[i]);
    NotInTest(site, answers, i);
    if ReachesRow(site, answers) {
      RowInLog(site, answers);
      var n := |Opening(site, answers)|;
      if n <= i < n + |RowAt(site, answers).ops| {
        RowOpAt(site, answers, i - n);
        assert log[i] == log[n..n + |RowAt(site, answers).ops|][i - n];
        assert i > n ==> log[i - 1] == log[n..n + |RowAt(site, answers).ops|][i - 1 - n];
      }
    }
  }

  /** The lifecycle's requests stand after the opening. */
  lemma RowInLog(site: Site, answers: Answers)
    requires Ticks(site.clock) && ReachesRow(site, answers)
    ensures var log, n, row := MainPart(site, answers).ops, |Opening(site, answers)|, RowAt(site, answers).ops;
            && n + |row| <= |log| && log[n..n + |row|] == row
            && |FoundOps(site, answers)| <= |row| && (RowMissed(site, answers) ==> |FoundOps(site, answers)| < |row|)
  {
    hide MainPart, Opening, RowPart, FindPart, FreshPart, SettingsOps, TestPart, Ticks, AllOk;
    RunStages(site, answers);
    RowShape(VendorAt(site, answers), site.port, site.cfgIndex, answers, |Opening(site, answers)|);
    var log, row := MainPart(site, answers).ops, RowAt(site, answers).ops;
    assert Opening(site, answers) + row <= log;
  }

  /** Probes, destruction and creation belong to the lifecycle. */
  lemma NotInTest(site: Site, answers: Answers, i: nat)
    requires Ticks(site.clock) && i < |MainPart(site, answers).ops|
    ensures var op := MainPart(site, answers).ops[i];
            IsDestroy(op) || IsCreate(op) || IsProbe(op) ==>
              ReachesRow(site, answers)
                  && |Opening(site, answers)| <= i < |Opening(site, answers)| + |RowAt(site, answers).ops|
  {
    hide MainPart, Opening, Setup, RowAt, TestPart, Ticks, AllOk, ReachesRow, ReachesTest, Plain;
    StageOrder(site, answers);
    var op := MainPart(site, answers).ops[i];
    ControlIsNotPlain(op);
    if !Plain(op) {
      Special(site, answers, i);
      if ReachesTest(site, answers) && |Setup(site, answers)| <= i {
        var n := |Setup(site, answers)|;
        if i - n < |TestAt(site, answers).ops| {
          ControlInTest(site.port, RowAt(site, answers).result.index, site.clock, answers, n, i - n);
        }
      }
    }
  }

  /** A UTSC row is destroyed only for Cisco, or right after the three probes have shown no row in the mode. */
  lemma DestroyedAfterMisses(site: Site, answers: Answers, i: nat)
    requires Ticks(site.clock) && i < |MainPart(site, answers).ops|
    ensures var log := MainPart(site, answers).ops;
            IsDestroy(log[i]) ==>
              && answers(0).Ok? && log[i] == Set(UtscCfg(21, site.port, site.cfgIndex), Num(6))
              && (VendorAt(site, answers).Cisco?
                  || (i >= 3 && log[i - 3..i] == Probes(site.port, 1, 3)
                      && forall k: nat :: i - 3 <= k < i ==> Misses(answers, k, 2)))
  {
    hide MainPart, Opening, RowPart, FindPart, FreshPart, Ticks, AllOk, ReachesRow, Contains, Val;
    var log := MainPart(site, answers).ops;
    StageOrder(site, answers);
    DestroyIff(site, answers, i);
    if IsDestroy(log[i]) {
      RowInLog(site, answers);
      var n, row, found := |Opening(site, answers)|, RowAt(site, answers).ops, FoundOps(site, answers);
      RowShape(VendorAt(site, answers), site.port, site.cfgIndex, answers, n);
      if !VendorAt(site, answers).Cisco? {
        assert log[i - 3..i] == log[n..n + |row|][..3] == found;
      }
    }
  }

  /** A row that a probe shows in the mode is neither destroyed nor created anew, and it is the row that is tested. */
  lemma FoundRowIsKept(site: Site, answers: Answers, j: nat, i: nat)
    requires Ticks(site.clock) && j < |MainPart(site, answers).ops| && i < |MainPart(site, answers).ops|
    ensures var log := MainPart(site, answers).ops;
            IsProbe(log[j]) && Hits(answers, j, 2) ==>
              && !IsDestroy(log[i]) && !IsCreate(log[i])
              && (IsControl(log[i]) ==> log[i].oid == UtscCtrl(site.port, log[j].oid.index))
  {
    hide MainPart, Opening, RowPart, FindPart, FreshPart, Setup, Ticks, AllOk, ReachesRow, ReachesTest, Contains, Val;
    var log := MainPart(site, answers).ops;
    if IsProbe(log[j]) && Hits(answers, j, 2) {
      StageOrder(site, answers);
      DestroyIff(site, answers, j);
      DestroyIff(site, answers, i);
      ControlIff(site, answers, i);
      RowInLog(site, answers);
      var n, row := |Opening(site, answers)|, RowAt(site, answers).ops;
      HitIsLast(site, answers, j - n);
      assert log[j] == log[n..n + |row|][j - n];
      RowOpAt(site, answers, j - n);
    }
  }

  /** The probe that shows a row is the last one, and its row is used. */
  lemma HitIsLast(site: Site, answers: Answers, j: nat)
    requires answers(0).Ok? && j < |FoundOps(site, answers)|
              && Hits(answers, |Opening(site, answers)| + j, 2)
    ensures !RowMissed(site, answers)
              && (RowAt(site, answers).result.Use? ==> RowAt(site, answers).result.index == j + 1)
  {
    hide Opening, RowPart, FindPart, FreshPart, Contains, Val;
    var n := |Opening(site, answers)|;
    RowShape(VendorAt(site, answers), site.port, site.cfgIndex, answers, n);
    FindShape(site.port, 2, answers, n, 1);
    HitOrMiss(answers, n + j, 2);
  }

  lemma HitOrMiss(answers: Answers, i: nat, mode: int)
    ensures !(Hits(answers, i, mode) && Misses(answers, i, mode))
  {
    hide Contains, Val;
  }

  // ---------------------------------------------------------------- the main results

  /** The test is started at most once. */
  predicate StartsOnce(log: seq<Op>) {
    forall i, j :: 0 <= i < j < |log| ==> !(IsStart(log[i]) && IsStart(log[j]))
  }

  /** Where a test is started, the run ends with the stop of the same row. */
  predicate StopsLast(log: seq<Op>) {
    forall i :: 0 <= i < |log| && IsStart(log[i]) ==>
      i < |log| - 1 && log[|log| - 1] == Set(log[i].oid, Num(2))
  }

  /** A UTSC row is created only right after it was destroyed. */
  predicate CreatesDestroyed(log: seq<Op>) {
    forall i :: 0 <= i < |log| && IsCreate(log[i]) ==> i > 0 && log[i - 1] == Set(log[i].oid, Num(6))
  }

  /** The three rules of every run. */
  lemma RunIsSafe(site: Site, answers: Answers)
    requires Ticks(site.clock)
    ensures var log := MainPart(site, answers).ops; StartsOnce(log) && StopsLast(log) && CreatesDestroyed(log)
  {
    hide MainPart, Opening, RowAt, RowMissed, Setup, Ticks, ReachesRow, ReachesTest, StartSent, StartAt, IsStart,
        IsCreate;
    var log := MainPart(site, answers).ops;
    StageOrder(site, answers);
    forall i | 0 <= i < |log|
      ensures IsStart(log[i]) ==> ReachesTest(site, answers) && i == StartAt(site, answers)
      ensures IsStart(log[i]) ==> i < |log| - 1 && log[|log| - 1] == Set(log[i].oid, Num(2))
    {
      ControlIff(site, answers, i);
      assert IsStart(log[i]) ==> IsControl(log[i]) by {
        StartIsControl(log[i]);
      }
    }
    forall i | 0 <= i < |log| && IsCreate(log[i]) ensures i > 0 && log[i - 1] == Set(log[i].oid, Num(6)) {
      DestroyIff(site, answers, i);
    }
  }

  lemma StartIsControl(op: Op)
    ensures IsStart(op) ==> IsControl(op)
  {}

  /**
  A run in which a control is sent is, in this order: the vendor's whole opening, the row lifecycle, all settings of
  the vendor and subtype that the device named, the trigger, at most 101 status reads, and the stop. And exactly a run
  that gets through the first three sends one.
  */
  lemma TestedRun(site: Site, answers: Answers) returns (polls: nat)
    requires Ticks(site.clock)
    ensures polls <= 101
    ensures ReachesTest(site, answers) <==>
              exists i :: 0 <= i < |MainPart(site, answers).ops| && IsControl(MainPart(site, answers).ops[i])
    ensures ReachesTest(site, answers) ==>
              var index, n := RowAt(site, answers).result.index, |Setup(site, answers)|;
              MainPart(site, answers).ops == Setup(site, answers) + TriggerPart(site.port, index, answers, n).ops
                                             + StatusReads(site.port, index, polls)
                                             + [Set(UtscCtrl(site.port, index), Num(2))]
  {
    hide MainPart, Setup, RowAt, TestPart, TriggerPart, Ticks, AllOk, ReachesRow, ReachesTest, StartSent, StartAt,
        IsControl;
    StageOrder(site, answers);
    polls := 0;
    var log := MainPart(site, answers).ops;
    if ReachesTest(site, answers) {
      RunStages(site, answers);
      var index, n := RowAt(site, answers).result.index, |Setup(site, answers)|;
      polls := TestShape(site.port, index, site.clock, answers, n);
      ControlIff(site, answers, |log| - 1);
      assert log == Setup(site, answers) + (TriggerPart(site.port, index, answers, n).ops
                                            + StatusReads(site.port, index, polls)
                                            + [Set(UtscCtrl(site.port, index), Num(2))]);
    } else if i :| 0 <= i < |log| && IsControl(log[i]) {
      ControlIff(site, answers, i);
    }
  }

  /** The start is sent exactly if the trigger gets past the row status; a finished run has sent it. */
  lemma StartedIff(site: Site, answers: Answers)
    requires Ticks(site.clock)
    ensures var p := MainPart(site, answers);
            && ((exists i :: 0 <= i < |p.ops| && IsStart(p.ops[i])) <==>
                  ReachesTest(site, answers) && StartSent(site, answers))
            && (p.result == Finished ==> exists i :: 0 <= i < |p.ops| && IsStart(p.ops[i]))
  {
    hide MainPart, Setup, RowAt, TestPart, TriggerPart, Ticks, AllOk, ReachesRow, ReachesTest, StartSent, IsStart;
    StageOrder(site, answers);
    EndsOtherwise(site, answers);
    var log := MainPart(site, answers).ops;
    if ReachesTest(site, answers) {
      RunStages(site, answers);
      StartSentIs(site, answers);
      var index, n := RowAt(site, answers).result.index, |Setup(site, answers)|;
      var polls := TestShape(site.port, index, site.clock, answers, n);
      TriggerShape(site.port, index, answers, n);
      ControlIff(site, answers, StartAt(site, answers));
    }
    if i :| 0 <= i < |log| && IsStart(log[i]) {
      ControlIff(site, answers, i);
    }
  }

  /** The vendor's region; `core` tells the E6000 subtypes apart. */
  predicate Admissible(vendor: Vendor, core: bool, s: Settings) {
    && (vendor.Casa? ==> 120000 <= s.freerunMs <= 300000 && s.repeatUs >= 100000
                         && s.freerunMs * 1000 <= 300 * s.repeatUs && s.outputFmt == 5)
    && (vendor.E6000? ==> 50001 <= s.repeatUs <= 1000000 && 0 < s.freerunMs <= 600000
                          && s.freerunMs * 1000 <= 250 * s.repeatUs
                          && (s.outputFmt != 1 ==> s.numBins in {200, 400, 800, 1600, 3200})
                          && 2 <= s.window <= 5 && (core ==> s.window == 2))
    && (vendor.Cisco? ==> 0 < s.freerunMs && s.repeatUs <= s.freerunMs * 1000 && s.outputFmt in {1, 2, 4})
  }

  /** What is programmed is inside the region of the vendor and subtype. */
  lemma ProgrammedIsAdmissible(vendor: Vendor, core: bool)
    ensures Admissible(vendor, core, Programmed(vendor, core))
  {
    BinsStay(Programmed(vendor, core).numBins);
    assert VALID_BINS[2] == 800;
  }
}

/**
What a UTSC run has written when it starts the test, read off its log: the settings of the row that is tested, each
once, with values in the region of the vendor, and the vendor's transfer set-up before everything else.
*/
module UtscSettings {
  import opened Wrappers
  import opened PyText
  import opened UtscLimits
  import opened UtscRun
  import opened UtscTrace
  import opened UtscSafety

  // ---------------------------------------------------------------- what a log sets an object to

  /** The values that an object is set to, in order. */
  function Writes(log: seq<Op>, oid: Oid): seq<Payload> {
    if log == [] then []
    else (if log[0].Set? && log[0].oid == oid then [log[0].value] else []) + Writes(log[1..], oid)
  }

  /** The object is never set. */
  ghost predicate Untouched(log: seq<Op>, oid: Oid) {
    forall i :: 0 <= i < |log| ==> log[i].Get? || log[i].oid != oid
  }

  lemma {:induction false} WritesJoin(a: seq<Op>, b: seq<Op>, oid: Oid)
    ensures Writes(a + b, oid) == Writes(a, oid) + Writes(b, oid)
  {
    if a == [] {
      assert a + b == b;
    } else {
      assert (a + b)[1..] == a[1..] + b;
      WritesJoin(a[1..], b, oid);
    }
  }

  lemma {:induction false} UntouchedWrites(log: seq<Op>, oid: Oid)
    requires Untouched(log, oid)
    ensures Writes(log, oid) == []
  {
    if log != [] {
      UntouchedWrites(log[1..], oid);
    }
  }

  /** No two requests set the same object. */
  ghost predicate Apart(log: seq<Op>) {
    forall i, j :: 0 <= i < j < |log| && log[i].Set? && log[j].Set? ==> log[i].oid != log[j].oid
  }

  lemma WrittenOnce(log: seq<Op>, j: nat)
    requires j < |log| && log[j].Set? && Apart(log)
    ensures Writes(log, log[j].oid) == [log[j].value]
  {
    var oid := log[j].oid;
    assert log == log[..j] + ([log[j]] + log[j + 1..]);
    WritesJoin(log[..j], [log[j]] + log[j + 1..], oid);
    WritesJoin([log[j]], log[j + 1..], oid);
    UntouchedWrites(log[..j], oid);
    UntouchedWrites(log[j + 1..], oid);
  }

  // ---------------------------------------------------------------- the settings

  /** A column of the row is set exactly once to a value, or not at all for no value. */
  predicate Column(log: seq<Op>, port: int, index: int, column: int, value: Option<Payload>) {
    Writes(log, UtscCfg(column, port, index)) == if value.Some? then [value.value] else []
  }

  lemma SettingsWritten(port: int, index: int, vendor: Vendor, s: Settings)
    ensures var ops := UtscOps(port, index, vendor, s); var named := vendor.E6000? || vendor.Cisco?;
            && Column(ops, port, index, 2, Some(Num(if vendor.Cisco? then port else 0)))
            && Column(ops, port, index, 3, Some(Num(2)))
            && Column(ops, port, index, 8, Some(Num(45000000)))
            && Column(ops, port, index, 9, Some(Num(80000000)))
            && Column(ops, port, index, 10, Some(Num(s.numBins)))
            && Column(ops, port, index, 17, Some(Num(s.outputFmt)))
            && Column(ops, port, index, 16, Some(Num(s.window)))
            && Column(ops, port, index, 19, Some(Num(s.freerunMs)))
            && Column(ops, port, index, 18, Some(Num(s.repeatUs)))
            && Column(ops, port, index, 20, Some(Num(1)))
            && Column(ops, port, index, 24, if named then Some(Num(1)) else None)
            && Column(ops, port, index, 12, if named then Some(Text("utsc_capture")) else None)
  {
    hide Writes, Apart, Untouched;
    var ops := UtscOps(port, index, vendor, s);
    SettingsApart(port, index, vendor, s);
    WrittenOnce(ops, 0);
    WrittenOnce(ops, 1);
    WrittenOnce(ops, 2);
    WrittenOnce(ops, 3);
    WrittenOnce(ops, 4);
    WrittenOnce(ops, 5);
    WrittenOnce(ops, 6);
    WrittenOnce(ops, 7);
    WrittenOnce(ops, 8);
    WrittenOnce(ops, 9);
    if vendor.E6000? || vendor.Cisco? {
      WrittenOnce(ops, 10);
      WrittenOnce(ops, 11);
    } else {
      UntouchedWrites(ops, UtscCfg(24, port, index));
      UntouchedWrites(ops, UtscCfg(12, port, index));
    }
  }

  lemma SettingsApart(port: int, index: int, vendor: Vendor, s: Settings)
    ensures var ops := UtscOps(port, index, vendor, s);
            && Apart(ops)
            && (!vendor.E6000? && !vendor.Cisco? ==>
                  Untouched(ops, UtscCfg(24, port, index)) && Untouched(ops, UtscCfg(12, port, index)))
  {}

  /** No other object is set by them. */
  lemma NothingElse(port: int, index: int, vendor: Vendor, s: Settings, oid: Oid)
    requires oid.UtscCfg? ==> oid.port != port || oid.index != index
                              || oid.column !in {2, 3, 8, 9, 10, 12, 16, 17, 18, 19, 20, 24}
    ensures Writes(UtscOps(port, index, vendor, s), oid) == []
  {
    UntouchedWrites(UtscOps(port, index, vendor, s), oid);
  }

  /** Of the columns other than the row status, only the settings write any. */
  lemma StagesUntouched(site: Site, answers: Answers, polls: nat, column: int, port: int, index: int)
    requires Ticks(site.clock) && ReachesTest(site, answers) && column != 21
    ensures var row, n := RowAt(site, answers), |Setup(site, answers)|;
            var oid := UtscCfg(column, port, index);
            var t := TriggerPart(site.port, row.result.index, answers, n).ops;
            && Untouched(Opening(site, answers), oid) && Untouched(row.ops, oid) && Untouched(t, oid)
            && Untouched(StatusReads(site.port, row.result.index, polls), oid)
  {
    hide Opening, Setup, RowAt, TriggerPart, Ticks, AllOk, ReachesRow, ReachesTest, FoundOps, RowMissed, Val;
    StageOrder(site, answers);
    var row, n := RowAt(site, answers), |Setup(site, answers)|;
    OpeningApart(site, answers);
    forall j | 0 <= j < |row.ops| ensures row.ops[j].Get? || row.ops[j].oid != UtscCfg(column, port, index) {
      RowOpAt(site, answers, j);
    }
    TriggerShape(site.port, row.result.index, answers, n);
  }

  /** The log up to the start and the whole log write the columns alike, namely as the settings do. */
  lemma WritesAre(site: Site, answers: Answers, i: nat, column: int, port: int, index: int)
    requires Ticks(site.clock) && i < |MainPart(site, answers).ops| && IsStart(MainPart(site, answers).ops[i])
    requires column != 21
    ensures answers(0).Ok? && RowAt(site, answers).result.Use?
            && MainPart(site, answers).ops[i].oid == UtscCtrl(site.port, RowAt(site, answers).result.index)
    ensures var log, oid := MainPart(site, answers).ops, UtscCfg(column, port, index);
            Writes(log, oid) == Writes(SettingsOps(site, answers), oid) == Writes(log[..i], oid)
  {
    hide MainPart, Opening, Setup, RowAt, SettingsOps, TriggerPart, Ticks, AllOk, ReachesRow, ReachesTest, FoundOps,
        StartSent, Writes, Untouched;
    StageOrder(site, answers);
    var log := MainPart(site, answers).ops;
    var oid := UtscCfg(column, port, index);
    ControlIff(site, answers, i);
    StartIsControl(log[i]);
    var polls := TestedRun(site, answers);
    var row, n := RowAt(site, answers).result.index, |Setup(site, answers)|;
    var t := TriggerPart(site.port, row, answers, n).ops;
    var polled := StatusReads(site.port, row, polls);
    TriggerShape(site.port, row, answers, n);
    StagesUntouched(site, answers, polls, column, port, index);
    SetupWrites(site, answers, oid);
    Untouchings(t, polled, site.port, row, oid);
    assert log == Setup(site, answers) + (t + polled + [Set(UtscCtrl(site.port, row), Num(2))]);
    WritesJoin(Setup(site, answers), t + polled + [Set(UtscCtrl(site.port, row), Num(2))], oid);
    assert log[..i] == Setup(site, answers) + t[..|t| - 1];
    WritesJoin(Setup(site, answers), t[..|t| - 1], oid);
  }

  lemma SetupWrites(site: Site, answers: Answers, oid: Oid)
    requires answers(0).Ok? && RowAt(site, answers).result.Use?
    requires Untouched(Opening(site, answers), oid) && Untouched(RowAt(site, answers).ops, oid)
    ensures Writes(Setup(site, answers), oid) == Writes(SettingsOps(site, answers), oid)
  {
    hide Opening, RowAt, SettingsOps, Writes, Untouched;
    UntouchedWrites(Opening(site, answers), oid);
    UntouchedWrites(RowAt(site, answers).ops, oid);
    WritesJoin(Opening(site, answers) + RowAt(site, answers).ops, SettingsOps(site, answers), oid);
    WritesJoin(Opening(site, answers), RowAt(site, answers).ops, oid);
  }

  lemma Untouchings(t: seq<Op>, polled: seq<Op>, port: int, index: int, oid: Oid)
    requires Untouched(t, oid) && Untouched(polled, oid) && oid.UtscCfg?
    ensures Writes(t + polled + [Set(UtscCtrl(port, index), Num(2))], oid) == []
    ensures |t| > 0 ==> Writes(t[..|t| - 1], oid) == []
  {
    hide Writes;
    UntouchedWrites(t + polled + [Set(UtscCtrl(port, index), Num(2))], oid);
    if |t| > 0 {
      UntouchedWrites(t[..|t| - 1], oid);
    }
  }

  /** The settings that go out: the vendor's period and duration, and the values that are the same for all. */
  lemma ProgrammedIs(vendor: Vendor, core: bool)
    ensures Programmed(vendor, core) == match vendor
                                        case Casa => Settings(400000, 120000, 5, 2, 800)
                                        case E6000 => Settings(100000, 25000, 2, 2, 800)
                                        case _ => Settings(100000, 120000, 2, 2, 800)
  {
    assert VALID_BINS[2] == 800;
  }

  /** What goes out between the row lifecycle and the trigger, request by request. */
  lemma SettingsAre(site: Site, answers: Answers)
    requires answers(0).Ok? && RowAt(site, answers).result.Use?
    ensures var port, index := site.port, RowAt(site, answers).result.index;
            var vendor := site.vendorOf(answers(0).value);
            SettingsOps(site, answers) ==
            [Set(UtscCfg(2, port, index), Num(if vendor.Cisco? then port else 0)),
             Set(UtscCfg(3, port, index), Num(2)),
             Set(UtscCfg(8, port, index), Num(45000000)),
             Set(UtscCfg(9, port, index), Num(80000000)),
             Set(UtscCfg(10, port, index), Num(800)),
             Set(UtscCfg(17, port, index), Num(if vendor.Casa? then 5 else 2)),
             Set(UtscCfg(16, port, index), Num(2)),
             Set(UtscCfg(19, port, index), Num(if vendor.E6000? then 25000 else 120000)),
             Set(UtscCfg(18, port, index), Num(if vendor.Casa? then 400000 else 100000)),
             Set(UtscCfg(20, port, index), Num(1))]
            + (if vendor.E6000? || vendor.Cisco?
               then [Set(UtscCfg(24, port, index), Num(1)), Set(UtscCfg(12, port, index), Text("utsc_capture"))]
               else [])
            + [Get(UtscCfg(21, port, index))]
  {
    hide RowAt, Programmed;
    ProgrammedIs(VendorAt(site, answers), CoreAt(site, answers));
  }

  /** A column is set once, and before request i. */
  predicate SetBefore(log: seq<Op>, i: nat, port: int, index: int, column: int, value: Payload)
    requires i <= |log|
  {
    Writes(log[..i], UtscCfg(column, port, index)) == [value] == Writes(log, UtscCfg(column, port, index))
  }

  /**
  Where a test is started, every setting of the row that is tested was set before, once in the whole run and to these
  values; and no other column of any row was set but the row status.
  */
  lemma SettingsSent(site: Site, answers: Answers, i: nat)
    requires Ticks(site.clock) && i < |MainPart(site, answers).ops|
    ensures var log, port := MainPart(site, answers).ops, site.port;
            IsStart(log[i]) ==>
              var vendor, index := site.vendorOf(answers(0).value), log[i].oid.index;
              && log[i].oid == UtscCtrl(port, index)
              && SetBefore(log, i, port, index, 2, Num(if vendor.Cisco? then port else 0))
              && SetBefore(log, i, port, index, 3, Num(2))
              && SetBefore(log, i, port, index, 8, Num(45000000))
              && SetBefore(log, i, port, index, 9, Num(80000000))
              && SetBefore(log, i, port, index, 10, Num(800))
              && SetBefore(log, i, port, index, 16, Num(2))
              && SetBefore(log, i, port, index, 17, Num(if vendor.Casa? then 5 else 2))
              && SetBefore(log, i, port, index, 18, Num(if vendor.Casa? then 400000 else 100000))
              && SetBefore(log, i, port, index, 19, Num(if vendor.E6000? then 25000 else 120000))
              && SetBefore(log, i, port, index, 20, Num(1))
              && (vendor.E6000? || vendor.Cisco? ==>
                    SetBefore(log, i, port, index, 24, Num(1))
                    && SetBefore(log, i, port, index, 12, Text("utsc_capture")))
    ensures var log := MainPart(site, answers).ops;
            IsStart(log[i]) ==> forall column: int, p: int, k: int ::
              (p != site.port || k != log[i].oid.index
               || column !in {2, 3, 8, 9, 10, 12, 16, 17, 18, 19, 20, 21, 24}
               || (column in {12, 24} && !site.vendorOf(answers(0).value).E6000?
                   && !site.vendorOf(answers(0).value).Cisco?))
              && column != 21 ==>
                Writes(log, UtscCfg(column, p, k)) == []
  {
    hide MainPart, RowAt, Ticks, Writes, IsStart, UtscOps, Programmed;
    var log := MainPart(site, answers).ops;
    if IsStart(log[i]) {
      WritesAre(site, answers, i, 2, site.port, 0);
      var vendor, port, index := site.vendorOf(answers(0).value), site.port, log[i].oid.index;
      var s := Programmed(vendor, CoreAt(site, answers));
      ProgrammedIs(vendor, CoreAt(site, answers));
      SettingsWritten(port, index, vendor, s);
      forall column: int, p: int, k: int | column != 21
        ensures Writes(log, UtscCfg(column, p, k)) == Writes(UtscOps(port, index, vendor, s), UtscCfg(column, p, k))
             == Writes(log[..i], UtscCfg(column, p, k))
      {
        WritesAre(site, answers, i, column, p, k);
      }
      forall column: int, p: int, k: int |
        p != port || k != index || column !in {2, 3, 8, 9, 10, 12, 16, 17, 18, 19, 20, 24}
        ensures Writes(UtscOps(port, index, vendor, s), UtscCfg(column, p, k)) == []
      {
        NothingElse(port, index, vendor, s, UtscCfg(column, p, k));
      }
    }
  }

  // ---------------------------------------------------------------- the values read off the log

  /** The one number that an object was set to. */
  function Sent(log: seq<Op>, oid: Oid): Option<int> {
    var w := Writes(log, oid);
    if |w| == 1 && w[0].Num? then Some(w[0].n) else None
  }

  /**
  Where a test is started, the numbers sent to its row lie in the vendor's region: at most 300 files for Casa, 250 for
  an E6000, a period within the run for Cisco.
  */
  lemma SentIsAdmissible(site: Site, answers: Answers, i: nat)
    requires Ticks(site.clock) && i < |MainPart(site, answers).ops|
    ensures var log, port := MainPart(site, answers).ops, site.port;
            IsStart(log[i]) ==>
              var vendor, index := site.vendorOf(answers(0).value), log[i].oid.index;
              var bins, window := Sent(log[..i], UtscCfg(10, port, index)), Sent(log[..i], UtscCfg(16, port, index));
              var fmt := Sent(log[..i], UtscCfg(17, port, index));
              var repeat, freerun := Sent(log[..i], UtscCfg(18, port, index)), Sent(log[..i], UtscCfg(19, port, index));
              && bins.Some? && window.Some? && fmt.Some? && repeat.Some? && freerun.Some?
              && (vendor.Casa? ==> 120000 <= freerun.value <= 300000 && repeat.value >= 100000
                                   && freerun.value * 1000 <= 300 * repeat.value && fmt.value == 5)
              && (vendor.E6000? ==> 50001 <= repeat.value <= 1000000 && 0 < freerun.value <= 600000
                                    && freerun.value * 1000 <= 250 * repeat.value
                                    && bins.value in {200, 400, 800, 1600, 3200} && window.value == 2)
              && (vendor.Cisco? ==> 0 < freerun.value && repeat.value <= freerun.value * 1000
                                    && fmt.value in {1, 2, 4})
  {
    hide MainPart, Ticks, Writes, IsStart;
    SettingsSent(site, answers, i);
  }

  // ---------------------------------------------------------------- the transfer set-up

  /** What goes out before the row lifecycle, request by request. */
  lemma OpeningIs(site: Site, answers: Answers)
    requires answers(0).Ok?
    ensures var log, t := Opening(site, answers), site.transfer;
            match site.vendorOf(answers(0).value)
            case Evo => log == [Get(SysDescr)]
            case Cisco =>
              log == [Get(SysDescr), Set(BdtE6000(9, 1), Num(6)), Set(BdtE6000(9, 1), Num(4)),
                      Set(BdtE6000(3, 1), Num(1)), Set(BdtE6000(4, 1), Text(t.tftpHex)),
                      Set(BdtE6000(6, 1), Text(t.uri))]
            case Casa =>
              log == [Get(SysDescr), Set(BdtCasa(2, 1), Num(1)), Set(BdtCasa(3, 1), Text(t.tftpHex)),
                      Set(BdtCasa(4, 1), Text(t.path)), Set(BdtCasa(5, 1), Num(3)),
                      Set(BdtCasa(6, 1), Text("0x0080"))]
            case E6000 =>
              [Get(SysDescr), Get(IfDescr(site.port))] <= log && FieldsWritten(log[2..], t, answers(2))
            case Unknown => [Get(SysDescr)] <= log && FieldsWritten(log[1..], t, answers(1))
  {
    hide Contains;
    var vendor := site.vendorOf(answers(0).value);
    if vendor.E6000? {
      FieldsAre(site.transfer, answers(2));
    } else if vendor.Unknown? {
      FieldsAre(site.transfer, answers(1));
    }
  }

  /** The row is asked for, created only if the answer shows none, written in place, and activated last. */
  predicate FieldsWritten(log: seq<Op>, t: Transfer, status: Result<string>) {
    && log != [] && log[0] == Get(BdtE6000(9, 1))
    && (status.Raised? ==> |log| == 1)
    && (status.Ok? ==>
          log[1..] == (if Contains(status.value, "No Such") || status.value == ""
                       then [Set(BdtE6000(9, 1), Num(5))] else [])
                      + [Set(BdtE6000(3, 1), Num(1)), Set(BdtE6000(4, 1), Text(t.tftpHex)),
                         Set(BdtE6000(6, 1), Text(t.uri)), Set(BdtE6000(7, 1), Num(1)), Set(BdtE6000(9, 1), Num(1))])
  }

  lemma FieldsAre(t: Transfer, status: Result<string>)
    ensures FieldsWritten(BdtOps(E6000, 1, t, status), t, status)
    ensures BdtOps(Unknown, 1, t, status) == BdtOps(E6000, 1, t, status)
  {
    hide Contains;
  }

  /** No request of the opening is about the test's tables. */
  lemma OpeningApart(site: Site, answers: Answers)
    requires answers(0).Ok?
    ensures forall i :: 0 <= i < |Opening(site, answers)| ==>
              !Opening(site, answers)[i].oid.UtscCfg? && !Opening(site, answers)[i].oid.UtscCtrl?
  {
    hide Opening, Contains;
    OpeningIs(site, answers);
    var log := Opening(site, answers);
    var vendor := site.vendorOf(answers(0).value);
    if vendor.E6000? {
      FieldsApart(log[2..], site.transfer, answers(2));
      assert log == log[..2] + log[2..];
    } else if vendor.Unknown? {
      FieldsApart(log[1..], site.transfer, answers(1));
      assert log == log[..1] + log[1..];
    }
  }

  lemma FieldsApart(log: seq<Op>, t: Transfer, status: Result<string>)
    requires FieldsWritten(log, t, status)
    ensures forall i :: 0 <= i < |log| ==> !log[i].oid.UtscCfg? && !log[i].oid.UtscCtrl?
  {
    hide Contains;
    assert log == [log[0]] + log[1..];
  }

  /** The whole opening stands before the first request to a UTSC row. */
  lemma TransferFirst(site: Site, answers: Answers, i: nat)
    requires Ticks(site.clock) && i < |MainPart(site, answers).ops|
    ensures var log := MainPart(site, answers).ops;
            log[i].oid.UtscCfg? || log[i].oid.UtscCtrl? ==>
              answers(0).Ok? && Opening(site, answers) <= log[..i]
  {
    hide MainPart, Opening, RowPart, LifecyclePart, SettingsOps, TestPart, Ticks, AllOk;
    var log := MainPart(site, answers).ops;
    OpeningStage(site, answers);
    if answers(0).Ok? {
      OpeningApart(site, answers);
      assert Opening(site, answers) <= log && i < |Opening(site, answers)| ==> log[i] == Opening(site, answers)[i];
      assert log <= Opening(site, answers) ==> log[i] == Opening(site, answers)[i];
    }
  }
}

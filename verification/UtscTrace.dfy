/**
What holds of every UTSC run, for every answer the CMTS may give: how a run ends, what was sent before the test was
started, that it is started at most once and then stopped last, and which row is destroyed when.
*/
module UtscTrace {
  import opened Wrappers
  import opened PyText
  import opened UtscLimits
  import opened UtscRun

  /** m answers from the n-th on arrived. */
  ghost predicate AllOk(answers: Answers, n: nat, m: nat) { forall i: nat :: n <= i < n + m ==> answers(i).Ok? }

  lemma AllOkJoin(answers: Answers, n: nat, a: nat, b: nat)
    ensures AllOk(answers, n, a + b) <==> AllOk(answers, n, a) && AllOk(answers, n + a, b)
  {}

  // ---------------------------------------------------------------- the steps

  /** Answer i shows no row in the mode, or one. */
  predicate Misses(answers: Answers, i: nat, mode: int) {
    answers(i).Ok?
    && (Contains(answers(i).value, "No Such") || answers(i).value == "" || Val(answers(i).value) != mode)
  }

  predicate Hits(answers: Answers, i: nat, mode: int) {
    answers(i).Ok?
    && !Contains(answers(i).value, "No Such") && answers(i).value != "" && Val(answers(i).value) == mode
  }

  /** What `val` reads: the integer after the last colon, which must be all that stands there but for white space. */
  lemma ValIs(head: string, tail: string, n: int)
    ensures ':' !in tail ==> Val(head + ":" + tail) == Val(tail)
    ensures ':' !in tail ==> Val(tail) == match PyInt(tail) case Some(k) => k case None => -1
    ensures Val(IntText(n)) == n && Val(head + ": " + IntText(n)) == n
  {
    assert head + ":" + tail == head + [':'] + tail;
    SplitAppend(head, tail, ':');
    if ':' !in tail {
      SplitNoSeparator(tail, ':');
    }
    NumberAlone(n);
    SplitAppend(head, " " + IntText(n), ':');
    assert head + ": " + IntText(n) == head + [':'] + (" " + IntText(n));
  }

  lemma NumberAlone(n: int)
    ensures ':' !in IntText(n) && Split(IntText(n), ':') == [IntText(n)]
    ensures Split(" " + IntText(n), ':') == [" " + IntText(n)]
    ensures PyInt(IntText(n)) == Some(n) && PyInt(" " + IntText(n)) == Some(n)
  {
    hide PyInt;
    DecimalDigits(if n < 0 then -n else n);
    SplitNoSeparator(IntText(n), ':');
    SplitNoSeparator(" " + IntText(n), ':');
    PyIntText(n);
    SpaceBefore(n);
  }

  lemma SpaceBefore(n: int)
    ensures PyInt(" " + IntText(n)) == PyInt(IntText(n))
  {
    IntTextTrimmed(n);
    StripTrimmed(IntText(n), IsSpace);
    StripPadded(" ", IntText(n), "", IsSpace);
    assert " " + IntText(n) + "" == " " + IntText(n);
  }

  function Probes(port: int, row: int, m: nat): (ops: seq<Op>)
    ensures |ops| == m
  {
    seq(m, i => Get(UtscCfg(3, port, row + i)))
  }

  /** The probes of `find_row`: in order, all but the last without such a row; the last one decides. */
  lemma {:induction false} FindShape(port: int, mode: int, answers: Answers, n: nat, row: int)
    requires 1 <= row <= 4
    ensures var p := FindPart(port, mode, answers, n, row);
            && |p.ops| <= 4 - row && p.ops == Probes(port, row, |p.ops|)
            && (p.result.Ok? <==> AllOk(answers, n, |p.ops|))
            && (forall i: nat :: n <= i < n + |p.ops| - 1 ==> Misses(answers, i, mode))
            && (match p.result
                case Ok(Some(k)) => |p.ops| > 0 && k == row + |p.ops| - 1 && Hits(answers, n + |p.ops| - 1, mode)
                case Ok(None) => |p.ops| == 4 - row && (|p.ops| > 0 ==> Misses(answers, n + |p.ops| - 1, mode))
                case Raised => |p.ops| > 0 && answers(n + |p.ops| - 1).Raised?)
    decreases 4 - row
  {
    hide Contains, Val;
    var p := FindPart(port, mode, answers, n, row);
    if row <= 3 && answers(n).Ok? && !Matches(answers(n).value, mode) {
      FindShape(port, mode, answers, n + 1, row + 1);
      var rest := FindPart(port, mode, answers, n + 1, row + 1);
      assert Misses(answers, n, mode);
      assert p.ops == [Get(UtscCfg(3, port, row))] + rest.ops;
      AllOkJoin(answers, n, 1, |rest.ops|);
    }
  }

  /** `find_row` returns row k exactly if probe k is the first that shows a row in the mode. */
  lemma FoundIff(port: int, mode: int, answers: Answers, n: nat, k: nat)
    requires 1 <= k <= 3
    ensures FindPart(port, mode, answers, n, 1).result == Ok(Some(k))
       <==> Hits(answers, n + k - 1, mode) && forall i: nat :: n <= i < n + k - 1 ==> Misses(answers, i, mode)
  {
    hide FindPart, Contains, Val;
    FindShape(port, mode, answers, n, 1);
    var p := FindPart(port, mode, answers, n, 1);
    var last := n + |p.ops| - 1;
    assert |p.ops| > k ==> Misses(answers, n + k - 1, mode);
    assert |p.ops| > 0 && p.result.Ok? ==> Misses(answers, last, mode) || Hits(answers, last, mode);
    assert |p.ops| > 0 && !p.result.Ok? ==> !Misses(answers, last, mode) && !Hits(answers, last, mode);
  }

  /** All of a list goes out, or all up to the first request that raised. */
  lemma {:induction false} DoAllShape(ops: seq<Op>, answers: Answers, n: nat)
    ensures var p := DoAllPart(ops, answers, n);
            && p.ops <= ops
            && (p.result <==> AllOk(answers, n, |p.ops|))
            && (p.result ==> p.ops == ops)
            && (!p.result ==> p.ops != [])
  {
    if ops != [] && answers(n).Ok? {
      DoAllShape(ops[1..], answers, n + 1);
      AllOkJoin(answers, n, 1, |DoAllPart(ops[1..], answers, n + 1).ops|);
    }
  }

  /** Answer i is a status read that lets the poll go on. */
  predicate GoesOn(answers: Answers, i: nat) { answers(i).Ok? && Val(answers(i).value) !in {4, 5, 7} }

  predicate Ready(answers: Answers, i: nat) { answers(i).Ok? && Val(answers(i).value) in {4, 7} }

  predicate Failed(answers: Answers, i: nat) { answers(i).Ok? && Val(answers(i).value) == 5 }

  function StatusReads(port: int, index: int, m: nat): (ops: seq<Op>)
    ensures |ops| == m
  {
    seq(m, i => Get(UtscStat(port, index)))
  }

  lemma PollStep(port: int, index: int, clock: nat -> real, answers: Answers, n: nat, k: nat)
    requires Ticks(clock) && k >= 1
    ensures var p, read := PollPart(port, index, clock, answers, n, k), [Get(UtscStat(port, index))];
            if clock(k) - clock(0) > 300.0 then p == Part([], Ok(false))
            else
              && k <= 101
              && (answers(n).Raised? ==> p == Part(read, Raised))
              && (GoesOn(answers, n) ==> p == Prepend(read, PollPart(port, index, clock, answers, n + 1, k + 1)))
              && (Ready(answers, n) ==> p == Part(read, Ok(true)))
              && (Failed(answers, n) ==> p == Part(read, Ok(false)))
  {
    hide Val, Ticks;
    if clock(k) - clock(0) <= 300.0 {
      PollsLeft(clock, k);
    }
  }

  lemma Statuses(answers: Answers, n: nat)
    ensures answers(n).Raised? || GoesOn(answers, n) || Ready(answers, n) || Failed(answers, n)
    ensures !(GoesOn(answers, n) && Ready(answers, n)) && !(Failed(answers, n) && Ready(answers, n))
  {
    hide Val;
  }

  /** `poll`: status reads, each but the last with a status that goes on, and from the first reading at most 101. */
  lemma {:induction false} PollReads(port: int, index: int, clock: nat -> real, answers: Answers, n: nat, k: nat)
    requires Ticks(clock) && k >= 1
    ensures var p := PollPart(port, index, clock, answers, n, k);
            && p.ops == StatusReads(port, index, |p.ops|)
            && |p.ops| <= (if k <= 101 then 102 - k else 0)
            && (forall i: nat :: n <= i < n + |p.ops| - 1 ==> GoesOn(answers, i))
    decreases if k <= 101 then 102 - k else 0
  {
    hide PollPart, GoesOn, Ready, Failed, Ticks;
    PollStep(port, index, clock, answers, n, k);
    Statuses(answers, n);
    if clock(k) - clock(0) <= 300.0 && GoesOn(answers, n) {
      PollReads(port, index, clock, answers, n + 1, k + 1);
      var p, rest := PollPart(port, index, clock, answers, n, k), PollPart(port, index, clock, answers, n + 1, k + 1);
      assert p.ops == [Get(UtscStat(port, index))] + rest.ops;
    }
  }

  /** True iff the last read says ready or truncated; raised iff a read raised; otherwise an error or the time limit. */
  lemma {:induction false} PollResult(port: int, index: int, clock: nat -> real, answers: Answers, n: nat, k: nat)
    requires Ticks(clock) && k >= 1
    ensures var p := PollPart(port, index, clock, answers, n, k); var last := n + |p.ops| - 1;
            && (p.result.Ok? <==> AllOk(answers, n, |p.ops|))
            && (p.result == Ok(true) <==> |p.ops| > 0 && Ready(answers, last))
            && (p.result == Ok(false) ==>
                  clock(k + |p.ops|) - clock(0) > 300.0 || (|p.ops| > 0 && Failed(answers, last)))
    decreases if k <= 101 then 102 - k else 0
  {
    hide PollPart, GoesOn, Ready, Failed, Ticks;
    PollStep(port, index, clock, answers, n, k);
    Statuses(answers, n);
    AnswersArrived(answers, n);
    if clock(k) - clock(0) <= 300.0 && GoesOn(answers, n) {
      PollResult(port, index, clock, answers, n + 1, k + 1);
      AllOkJoin(answers, n, 1, |PollPart(port, index, clock, answers, n + 1, k + 1).ops|);
    }
  }

  lemma AnswersArrived(answers: Answers, n: nat)
    ensures GoesOn(answers, n) || Ready(answers, n) || Failed(answers, n) <==> answers(n).Ok?
    ensures AllOk(answers, n, 1) <==> answers(n).Ok?
  {
    hide Val;
  }

  /**
  The requests of the trigger: the read of the row status, the activation if need be, and the start after success.
  */
  lemma TriggerShape(port: int, index: int, answers: Answers, n: nat)
    ensures var p := TriggerPart(port, index, answers, n);
            var get, active := Get(UtscCfg(21, port, index)), Set(UtscCfg(21, port, index), Num(1));
            && (p.ops == [get] || p.ops == [get, active] || p.ops == [get, active, Set(UtscCtrl(port, index), Num(1))]
                || p.ops == [get, Set(UtscCtrl(port, index), Num(1))])
            && (p.result <==> AllOk(answers, n, |p.ops|))
            && (active in p.ops <==> answers(n).Ok? && Val(answers(n).value) != 1)
            && (p.ops[|p.ops| - 1] == Set(UtscCtrl(port, index), Num(1)) <==>
                  answers(n).Ok? && (Val(answers(n).value) == 1 || answers(n + 1).Ok?))
            && (p.result ==> p.ops[|p.ops| - 1] == Set(UtscCtrl(port, index), Num(1)))
  {
    hide Val;
    var p := TriggerPart(port, index, answers, n);
    AllOkFew(answers, n, |p.ops|);
  }

  lemma AllOkFew(answers: Answers, n: nat, m: nat)
    ensures m == 1 ==> (AllOk(answers, n, m) <==> answers(n).Ok?)
    ensures m == 2 ==> (AllOk(answers, n, m) <==> answers(n).Ok? && answers(n + 1).Ok?)
    ensures m == 3 ==> (AllOk(answers, n, m) <==> answers(n).Ok? && answers(n + 1).Ok? && answers(n + 2).Ok?)
  {}

  /** From the trigger on: the trigger's requests, at most 101 status reads, and the stop; Finished iff none raised. */
  lemma TestShape(port: int, index: int, clock: nat -> real, answers: Answers, n: nat) returns (polls: nat)
    requires Ticks(clock)
    ensures var p, t := TestPart(port, index, clock, answers, n), TriggerPart(port, index, answers, n);
            && polls <= 101 && p.ops == t.ops + StatusReads(port, index, polls) + [Set(UtscCtrl(port, index), Num(2))]
            && (p.result.Finished? || p.result.Crashed?)
            && (p.result.Finished? <==> AllOk(answers, n, |p.ops|))
            && (p.result.Finished? ==> t.result)
  {
    hide TriggerPart, PollPart, Ticks, AllOk;
    TriggerShape(port, index, answers, n);
    var p, t := TestPart(port, index, clock, answers, n), TriggerPart(port, index, answers, n);
    var m := n + |t.ops|;
    polls := 0;
    if t.result {
      var q := PollPart(port, index, clock, answers, m, 1);
      PollReads(port, index, clock, answers, m, 1);
      PollResult(port, index, clock, answers, m, 1);
      polls := |q.ops|;
    } else {
      assert t.ops + StatusReads(port, index, 0) == t.ops;
    }
    AllOkJoin(answers, n, |t.ops|, polls + 1);
    AllOkJoin(answers, m, polls, 1);
    AnswersArrived(answers, m + polls);
  }

  lemma FreshShape(port: int, index: int, answers: Answers, n: nat)
    ensures var p := FreshPart(port, index, answers, n);
            var destroy, create := Set(UtscCfg(21, port, index), Num(6)), Set(UtscCfg(21, port, index), Num(4));
            && (p.ops == [destroy] || p.ops == [destroy, create])
            && (p.result == Quit(Crashed) <==> !AllOk(answers, n, |p.ops|))
            && (p.result == Quit(Exited(1)) <==>
                  |p.ops| == 2 && answers(n + 1).Ok?
                  && (Contains(answers(n + 1).value, "commitFailed") || Contains(answers(n + 1).value, "wrongValue")))
            && (p.result.Use? ==> |p.ops| == 2 && p.result.index == index)
            && (p.result in {Quit(Crashed), Quit(Exited(1)), Use(index)})
  {
    hide Contains;
    AllOkFew(answers, n, |FreshPart(port, index, answers, n).ops|);
  }

  /**
  The row lifecycle. A row that a probe shows is used as it is; only when the three probes all miss, or always for
  Cisco, the default row is destroyed and created.
  */
  lemma RowShape(vendor: Vendor, port: int, cfgIndex: int, answers: Answers, n: nat)
    ensures var p := RowPart(vendor, port, cfgIndex, answers, n);
            var found := if vendor.Cisco? then [] else FindPart(port, 2, answers, n, 1).ops;
            var missed := vendor.Cisco? || FindPart(port, 2, answers, n, 1).result == Ok(None);
            && found <= p.ops && found == Probes(port, 1, |found|)
            && (missed <==> p.ops != found)
            && (missed ==> p == Prepend(found, FreshPart(port, cfgIndex, answers, n + |found|)))
            && (missed && !vendor.Cisco? ==>
                  |found| == 3 && forall i: nat :: n <= i < n + 3 ==> Misses(answers, i, 2))
            && (!missed && p.result.Use? ==> |found| == p.result.index && Hits(answers, n + |found| - 1, 2))
            && (p.result == Quit(Crashed) <==> !AllOk(answers, n, |p.ops|))
            && (p.result.Quit? ==> p.result.exit in {Crashed, Exited(1)})
            && p.ops != []
  {
    hide FindPart, FreshPart, Contains, Val;
    FindShape(port, 2, answers, n, 1);
    var found := if vendor.Cisco? then [] else FindPart(port, 2, answers, n, 1).ops;
    FreshShape(port, cfgIndex, answers, n + |found|);
    AllOkJoin(answers, n, |found|, |FreshPart(port, cfgIndex, answers, n + |found|).ops|);
    assert [] + FreshPart(port, cfgIndex, answers, n).ops == FreshPart(port, cfgIndex, answers, n).ops;
  }

  // ---------------------------------------------------------------- the stages of a run

  function VendorAt(site: Site, answers: Answers): Vendor
    requires answers(0).Ok?
  {
    site.vendorOf(answers(0).value)
  }

  /** Only an E6000 is asked, by the second request, for its subtype. */
  function CoreAt(site: Site, answers: Answers): bool
    requires answers(0).Ok?
  {
    VendorAt(site, answers).E6000? && answers(1).Ok? && site.isCore(answers(1).value)
  }

  function SubtypeProbe(vendor: Vendor, port: int): seq<Op> { if vendor.E6000? then [Get(IfDescr(port))] else [] }

  /** What goes out for a vendor between the vendor detection and the row lifecycle, from request n on. */
  function TransferOps(site: Site, vendor: Vendor, answers: Answers, n: nat): seq<Op> {
    var probe := SubtypeProbe(vendor, site.port);
    probe + BdtOps(vendor, 1, site.transfer, answers(n + |probe|))
  }

  /** Everything before the row lifecycle: detection, subtype, and the vendor's whole transfer set-up. */
  function Opening(site: Site, answers: Answers): seq<Op>
    requires answers(0).Ok?
  {
    [Get(SysDescr)] + TransferOps(site, VendorAt(site, answers), answers, 1)
  }

  ghost predicate ReachesRow(site: Site, answers: Answers) {
    answers(0).Ok? && !VendorAt(site, answers).Evo? && AllOk(answers, 0, |Opening(site, answers)|)
  }

  function RowAt(site: Site, answers: Answers): Part<Row>
    requires answers(0).Ok?
  {
    RowPart(VendorAt(site, answers), site.port, site.cfgIndex, answers, |Opening(site, answers)|)
  }

  /** The writes of the settings that the vendor and the subtype get, to the row that the lifecycle gave. */
  function SettingsOps(site: Site, answers: Answers): seq<Op>
    requires answers(0).Ok? && RowAt(site, answers).result.Use?
  {
    var vendor := VendorAt(site, answers);
    UtscOps(site.port, RowAt(site, answers).result.index, vendor, Programmed(vendor, CoreAt(site, answers)))
  }

  /** Everything before the trigger. */
  function Setup(site: Site, answers: Answers): seq<Op>
    requires answers(0).Ok? && RowAt(site, answers).result.Use?
  {
    Opening(site, answers) + RowAt(site, answers).ops + SettingsOps(site, answers)
  }

  ghost predicate ReachesTest(site: Site, answers: Answers) {
    ReachesRow(site, answers) && RowAt(site, answers).result.Use? && AllOk(answers, 0, |Setup(site, answers)|)
  }

  lemma PrependTwice<T>(a: seq<Op>, b: seq<Op>, p: Part<T>)
    ensures Prepend(a, Prepend(b, p)) == Prepend(a + b, p)
  {
    assert a + (b + p.ops) == a + b + p.ops;
  }

  /** Up to the row lifecycle: all of the vendor's requests, or those up to the first that raised. */
  lemma TransferStage(site: Site, vendor: Vendor, s: Settings, answers: Answers, n: nat)
    requires Ticks(site.clock)
    ensures var bdt := BdtOps(vendor, 1, site.transfer, answers(n));
            var p := TransferPart(site, vendor, s, answers, n);
            if AllOk(answers, n, |bdt|) then p == Prepend(bdt, LifecyclePart(site, vendor, s, answers, n + |bdt|))
            else p.result == Crashed && p.ops <= bdt && !AllOk(answers, n, |p.ops|)
  {
    hide BdtOps, LifecyclePart, DoAllPart, Ticks;
    var bdt := BdtOps(vendor, 1, site.transfer, answers(n));
    DoAllShape(bdt, answers, n);
    var b := BdtPart(vendor, 1, site.transfer, answers, n);
    AllOkJoin(answers, n, |b.ops|, |bdt| - |b.ops|);
  }

  lemma VendorStage(site: Site, vendor: Vendor, answers: Answers, n: nat)
    requires Ticks(site.clock)
    ensures var ops := TransferOps(site, vendor, answers, n);
            var core := vendor.E6000? && answers(n).Ok? && site.isCore(answers(n).value);
            var p := VendorPart(site, vendor, answers, n);
            if AllOk(answers, n, |ops|)
            then p == Prepend(ops, LifecyclePart(site, vendor, Programmed(vendor, core), answers, n + |ops|))
            else p.result == Crashed && p.ops <= ops && !AllOk(answers, n, |p.ops|)
  {
    hide BdtOps, LifecyclePart, TransferPart, Programmed, Ticks;
    var probe := SubtypeProbe(vendor, site.port);
    var core := vendor.E6000? && answers(n).Ok? && site.isCore(answers(n).value);
    var m := n + |probe|;
    var bdt := BdtOps(vendor, 1, site.transfer, answers(m));
    var s := Programmed(vendor, core);
    TransferStage(site, vendor, s, answers, m);
    AnswersArrived(answers, n);
    AllOkJoin(answers, n, |probe|, |bdt|);
    AllOkJoin(answers, n, |probe|, |TransferPart(site, vendor, s, answers, m).ops|);
    PrependTwice(probe, bdt, LifecyclePart(site, vendor, s, answers, m + |bdt|));
  }

  /** A run either ends in its opening, or issues all of it and goes on to the row lifecycle. */
  lemma OpeningStage(site: Site, answers: Answers)
    requires Ticks(site.clock)
    ensures var p := MainPart(site, answers);
            if ReachesRow(site, answers) then
              var vendor := VendorAt(site, answers);
              p == Prepend(Opening(site, answers),
                           LifecyclePart(site, vendor, Programmed(vendor, CoreAt(site, answers)), answers,
                               |Opening(site, answers)|))
            else
              && (p.ops == [Get(SysDescr)] || (answers(0).Ok? && p.ops <= Opening(site, answers)))
              && (p.result == Crashed <==> !AllOk(answers, 0, |p.ops|))
              && (p.result != Crashed ==> p.result == Exited(0) && answers(0).Ok? && VendorAt(site, answers).Evo?)
  {
    hide VendorPart, LifecyclePart, TransferOps, Programmed, Ticks;
    AnswersArrived(answers, 0);
    if answers(0).Ok? {
      var vendor := VendorAt(site, answers);
      VendorStage(site, vendor, answers, 1);
      var ops := TransferOps(site, vendor, answers, 1);
      AllOkJoin(answers, 0, 1, |ops|);
      AllOkJoin(answers, 0, 1, |VendorPart(site, vendor, answers, 1).ops|);
      PrependTwice([Get(SysDescr)], ops,
        LifecyclePart(site, vendor, Programmed(vendor, CoreAt(site, answers)), answers, 1 + |ops|));
    }
  }

  /** From the row lifecycle on, when n requests have been issued. */
  lemma LifecycleStage(site: Site, vendor: Vendor, s: Settings, answers: Answers, n: nat)
    requires Ticks(site.clock)
    ensures var row, p := RowPart(vendor, site.port, site.cfgIndex, answers, n),
              LifecyclePart(site, vendor, s, answers, n);
            match row.result
            case Quit(exit) => p == Part(row.ops, exit)
            case Use(index) =>
              var ops := UtscOps(site.port, index, vendor, s);
              if AllOk(answers, n + |row.ops|, |ops|)
              then p == Prepend(row.ops + ops, TestPart(site.port, index, site.clock, answers, n + |row.ops| + |ops|))
              else p.result == Crashed && row.ops <= p.ops <= row.ops + ops && !AllOk(answers, n, |p.ops|)
  {
    hide RowPart, UtscOps, TestPart, DoAllPart, Ticks;
    var row := RowPart(vendor, site.port, site.cfgIndex, answers, n);
    if row.result.Use? {
      var ops, m := UtscOps(site.port, row.result.index, vendor, s), n + |row.ops|;
      DoAllShape(ops, answers, m);
      var c := DoAllPart(ops, answers, m);
      AllOkJoin(answers, m, |c.ops|, |ops| - |c.ops|);
      AllOkJoin(answers, n, |row.ops|, |c.ops|);
      PrependTwice(row.ops, ops, TestPart(site.port, row.result.index, site.clock, answers, m + |ops|));
    }
  }

  /** A run that reaches the row lifecycle. */
  lemma RowStage(site: Site, answers: Answers)
    requires Ticks(site.clock) && ReachesRow(site, answers)
    ensures var p, head, row := MainPart(site, answers), Opening(site, answers), RowAt(site, answers);
            match row.result
            case Quit(exit) => p == Part(head + row.ops, exit)
            case Use(index) =>
              var config, m := SettingsOps(site, answers), |head| + |row.ops|;
              if AllOk(answers, m, |config|)
              then p == Prepend(Setup(site, answers),
                  TestPart(site.port, index, site.clock, answers, |Setup(site, answers)|))
              else p.result == Crashed && head + row.ops <= p.ops <= Setup(site, answers) && !AllOk(answers, 0, |p.ops|)
  {
    hide LifecyclePart, Opening, RowPart, UtscOps, Programmed, TestPart, Ticks, AllOk;
    OpeningStage(site, answers);
    var vendor := VendorAt(site, answers);
    var head, row, s := Opening(site, answers), RowAt(site, answers), Programmed(vendor, CoreAt(site, answers));
    LifecycleStage(site, vendor, s, answers, |head|);
    AllOkJoin(answers, 0, |head|, |LifecyclePart(site, vendor, s, answers, |head|).ops|);
    if row.result.Use? {
      var config := SettingsOps(site, answers);
      assert head + (row.ops + config) == Setup(site, answers);
      PrependTwice(head, row.ops + config,
        TestPart(site.port, row.result.index, site.clock, answers, |head| + |row.ops| + |config|));
    }
  }

  lemma TestReached(site: Site, answers: Answers)
    requires ReachesRow(site, answers) && RowAt(site, answers).result.Use?
    ensures var head, row := Opening(site, answers), RowAt(site, answers);
            ReachesTest(site, answers) <==> AllOk(answers, |head| + |row.ops|, |SettingsOps(site, answers)|)
  {
    hide AllOk, Opening, RowPart, SettingsOps;
    var head, row, config := Opening(site, answers), RowAt(site, answers), SettingsOps(site, answers);
    RowArrived(site, answers);
    AllOkJoin(answers, 0, |head|, |row.ops|);
    AllOkJoin(answers, 0, |head| + |row.ops|, |config|);
  }

  /** The ways a run can go. */
  lemma RunStages(site: Site, answers: Answers)
    requires Ticks(site.clock)
    ensures var p := MainPart(site, answers);
            && (ReachesRow(site, answers) && !ReachesTest(site, answers) ==>
                  var head, row := Opening(site, answers), RowAt(site, answers);
                  if row.result.Quit? then p == Part(head + row.ops, row.result.exit)
                  else
                    && p.result == Crashed && head + row.ops <= p.ops <= Setup(site, answers)
                    && !AllOk(answers, 0, |p.ops|))
            && (ReachesTest(site, answers) ==>
                  p == Prepend(Setup(site, answers),
                               TestPart(site.port, RowAt(site, answers).result.index, site.clock, answers,
                                   |Setup(site, answers)|)))
  {
    hide MainPart, Opening, RowPart, SettingsOps, Setup, TestPart, Ticks, AllOk;
    if ReachesRow(site, answers) {
      RowStage(site, answers);
      if RowAt(site, answers).result.Use? {
        TestReached(site, answers);
      }
    }
  }

  lemma RowArrived(site: Site, answers: Answers)
    requires answers(0).Ok?
    ensures var row := RowAt(site, answers);
            row.result == Quit(Crashed) <==> !AllOk(answers, |Opening(site, answers)|, |row.ops|)
  {
    hide RowPart, Opening;
    RowShape(VendorAt(site, answers), site.port, site.cfgIndex, answers, |Opening(site, answers)|);
  }
}

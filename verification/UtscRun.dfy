/**
The UTSC provisioning run of `provision_utsc.py` against a CMTS that answers each request as it likes, or not at all:
every step as the requests it issues, which are a function of the answers. What holds of whole runs is in UtscTrace.
*/
module UtscRun {
  import opened Wrappers
  import opened PyText
  import opened UtscLimits

  // ---------------------------------------------------------------- the device

  datatype Oid =
    | SysDescr
    | IfDescr(port: int)
    | UtscCfg(column: int, port: int, index: int)
    | UtscCtrl(port: int, index: int)
    | UtscStat(port: int, index: int)
    | BdtE6000(column: int, row: int)
    | BdtCasa(column: int, row: int)

  datatype Payload = Num(n: int) | Text(s: string)

  datatype Op = Get(oid: Oid) | Set(oid: Oid, value: Payload)

  /** `answers(i)` is the text of the answer to request i, or Raised for a time-out or an interrupt there. */
  type Answers = nat -> Result<string>

  class Cmts {
    const answers: Answers
    var log: seq<Op>

    constructor (answers: Answers)
      ensures this.answers == answers && log == []
    {
      this.answers := answers;
      log := [];
    }

    method Do(op: Op) returns (r: Result<string>)
      modifies this
      ensures log == old(log) + [op] && r == answers(|old(log)|)
    {
      r := answers(|log|);
      log := log + [op];
    }
  }

  const ROW_STATUS := 21
  const ACTIVE := 1
  const CREATE_AND_GO := 4
  const CREATE_WAIT := 5
  const DESTROY := 6
  const TRIGGER_MODE := 2
  const BDT_ROW := 1

  /** `val(raw)`: the integer after the last colon, -1 if there is none. */
  function Val(raw: string): int {
    var parts := Split(raw, ':');
    match PyInt(parts[|parts| - 1]) case Some(n) => n case None => -1
  }

  function StatusSet(port: int, index: int, value: int): Op { Set(UtscCfg(ROW_STATUS, port, index), Num(value)) }

  /** The requests that a step issues, and what it comes to. */
  datatype Part<+T> = Part(ops: seq<Op>, result: T)

  /** A step after the requests of an earlier one. */
  function Prepend<T>(ops: seq<Op>, p: Part<T>): Part<T> { Part(ops + p.ops, p.result) }

  /** What a method has done is that part. */
  ghost predicate Did<T>(before: seq<Op>, log: seq<Op>, result: T, p: Part<T>) {
    log == before + p.ops && result == p.result
  }

  /** What remains to be done, after what was done, is the part. */
  ghost predicate Remains<T>(before: seq<Op>, log: seq<Op>, rest: Part<T>, p: Part<T>) {
    before + p.ops == log + rest.ops && rest.result == p.result
  }

  lemma RemainsStart<T>(before: seq<Op>, p: Part<T>)
    ensures Remains(before, before, p, p)
  {}

  lemma RemainsStep<T>(before: seq<Op>, log: seq<Op>, ops: seq<Op>, rest: Part<T>, p: Part<T>)
    requires Remains(before, log, Prepend(ops, rest), p)
    ensures Remains(before, log + ops, rest, p)
  {
    assert log + ops + rest.ops == log + (ops + rest.ops);
  }

  // ---------------------------------------------------------------- row lifecycle

  /** The answer shows a row in trigger mode `mode`. */
  predicate Matches(raw: string, mode: int) { !Contains(raw, "No Such") && raw != "" && Val(raw) == mode }

  function Probe(port: int, row: int): Op { Get(UtscCfg(3, port, row)) }

  /** `find_row` from a row on, when n requests have been issued. */
  function FindPart(port: int, mode: int, answers: Answers, n: nat, row: int): Part<Result<Option<int>>>
    decreases 4 - row
  {
    if row > 3 then Part([], Ok(None))
    else if answers(n).Raised? then Part([Probe(port, row)], Raised)
    else if Matches(answers(n).value, mode) then Part([Probe(port, row)], Ok(Some(row)))
    else Prepend([Probe(port, row)], FindPart(port, mode, answers, n + 1, row + 1))
  }

  /** `find_row` */
  method FindRow(cmts: Cmts, port: int, mode: int) returns (r: Result<Option<int>>)
    modifies cmts
    ensures Did(old(cmts.log), cmts.log, r, FindPart(port, mode, cmts.answers, |old(cmts.log)|, 1))
  {
    hide Val, Contains, Remains;
    ghost var p := FindPart(port, mode, cmts.answers, |cmts.log|, 1);
    RemainsStart(cmts.log, p);
    for row := 1 to 4
      invariant Remains(old(cmts.log), cmts.log, FindPart(port, mode, cmts.answers, |cmts.log|, row), p)
    {
      ghost var before := cmts.log;
      ghost var rest := FindPart(port, mode, cmts.answers, |before|, row);
      var raw := cmts.Do(Probe(port, row));
      if raw.Raised? {
        RemainsEnd(old(cmts.log), before, rest, p);
        return Raised;
      }
      if Contains(raw.value, "No Such") || raw.value == "" {
        RemainsStep(old(cmts.log), before, [Probe(port, row)],
                    FindPart(port, mode, cmts.answers, |cmts.log|, row + 1), p);
        continue;
      }
      if Val(raw.value) == mode {
        RemainsEnd(old(cmts.log), before, rest, p);
        return Ok(Some(row));
      }
      RemainsStep(old(cmts.log), before, [Probe(port, row)],
                  FindPart(port, mode, cmts.answers, |cmts.log|, row + 1), p);
    }
    RemainsEnd(old(cmts.log), cmts.log, Part([], Ok(None)), p);
    return Ok(None);
  }

  lemma RemainsEnd<T>(before: seq<Op>, log: seq<Op>, rest: Part<T>, p: Part<T>)
    requires Remains(before, log, rest, p)
    ensures Did(before, log + rest.ops, rest.result, p)
    ensures rest.ops == [] ==> Did(before, log, rest.result, p)
  {
    assert rest.ops == [] ==> log + rest.ops == log;
  }

  /** What the row lifecycle comes to: a row to use, or the end of the run. */
  datatype Exit = Finished | Exited(code: int) | Crashed

  datatype Row = Use(index: int) | Quit(exit: Exit)

  predicate Rejected(raw: string) { Contains(raw, "commitFailed") || Contains(raw, "wrongValue") }

  /** Destroy and createAndGo of a row. */
  function FreshPart(port: int, index: int, answers: Answers, n: nat): Part<Row> {
    var destroy, create := StatusSet(port, index, DESTROY), StatusSet(port, index, CREATE_AND_GO);
    if answers(n).Raised? then Part([destroy], Quit(Crashed))
    else Part([destroy, create],
              if answers(n + 1).Raised? then Quit(Crashed)
              else if Rejected(answers(n + 1).value) then Quit(Exited(1))
              else Use(index))
  }

  /** `destroy_row`; false means that the request raised. */
  method DestroyRow(cmts: Cmts, port: int, index: int) returns (ok: bool)
    modifies cmts
    ensures cmts.log == old(cmts.log) + [Set(UtscCfg(21, port, index), Num(6))]
    ensures ok == cmts.answers(|old(cmts.log)|).Ok?
  {
    var r := cmts.Do(StatusSet(port, index, DESTROY));
    return r.Ok?;
  }

  /** `create_and_go` */
  method CreateAndGo(cmts: Cmts, port: int, index: int) returns (r: Result<bool>)
    modifies cmts
    ensures cmts.log == old(cmts.log) + [Set(UtscCfg(21, port, index), Num(4))]
    ensures var a := cmts.answers(|old(cmts.log)|);
            r == if a.Raised? then Raised
                 else Ok(!Contains(a.value, "commitFailed") && !Contains(a.value, "wrongValue"))
  {
    var a := cmts.Do(StatusSet(port, index, CREATE_AND_GO));
    if a.Raised? {
      return Raised;
    }
    if Contains(a.value, "commitFailed") || Contains(a.value, "wrongValue") {
      return Ok(false);
    }
    return Ok(true);
  }

  datatype Vendor = Evo | Casa | E6000 | Cisco | Unknown

  /** The row lifecycle of `main`. */
  function RowPart(vendor: Vendor, port: int, cfgIndex: int, answers: Answers, n: nat): Part<Row> {
    if vendor.Cisco? then FreshPart(port, cfgIndex, answers, n)
    else
      var found := FindPart(port, TRIGGER_MODE, answers, n, 1);
      match found.result
      case Raised => Part(found.ops, Quit(Crashed))
      case Ok(Some(index)) => Part(found.ops, Use(index))
      case Ok(None) => Prepend(found.ops, FreshPart(port, cfgIndex, answers, n + |found.ops|))
  }

  /** The row to use: the one found, or a fresh one after a destroy; for Cisco always a fresh one. */
  method PrepareRow(cmts: Cmts, vendor: Vendor, port: int, cfgIndex: int) returns (row: Row)
    modifies cmts
    ensures Did(old(cmts.log), cmts.log, row, RowPart(vendor, port, cfgIndex, cmts.answers, |old(cmts.log)|))
  {
    hide FindPart, Contains;
    if !vendor.Cisco? {
      var found := FindRow(cmts, port, TRIGGER_MODE);
      if found.Raised? {
        return Quit(Crashed);
      }
      if found.value.Some? {
        return Use(found.value.value);
      }
    }
    var ok := DestroyRow(cmts, port, cfgIndex);
    if !ok {
      return Quit(Crashed);
    }
    var created := CreateAndGo(cmts, port, cfgIndex);
    if created.Raised? {
      return Quit(Crashed);
    }
    if !created.value {
      return Quit(Exited(1));
    }
    return Use(cfgIndex);
  }

  // ---------------------------------------------------------------- configuration

  /** A list of requests, issued until one raises; false means that one did. */
  function DoAllPart(ops: seq<Op>, answers: Answers, n: nat): Part<bool> {
    if ops == [] then Part([], true)
    else if answers(n).Raised? then Part([ops[0]], false)
    else Prepend([ops[0]], DoAllPart(ops[1..], answers, n + 1))
  }

  method DoAll(cmts: Cmts, ops: seq<Op>) returns (ok: bool)
    modifies cmts
    ensures Did(old(cmts.log), cmts.log, ok, DoAllPart(ops, cmts.answers, |old(cmts.log)|))
  {
    hide Remains;
    ghost var p := DoAllPart(ops, cmts.answers, |cmts.log|);
    RemainsStart(cmts.log, p);
    assert ops[0..] == ops;
    for i := 0 to |ops|
      invariant Remains(old(cmts.log), cmts.log, DoAllPart(ops[i..], cmts.answers, |cmts.log|), p)
    {
      ghost var before := cmts.log;
      ghost var rest := DoAllPart(ops[i..], cmts.answers, |before|);
      assert ops[i..][1..] == ops[i + 1..];
      var r := cmts.Do(ops[i]);
      if r.Raised? {
        RemainsEnd(old(cmts.log), before, rest, p);
        return false;
      }
      RemainsStep(old(cmts.log), before, [ops[i]], DoAllPart(ops[i + 1..], cmts.answers, |cmts.log|), p);
    }
    assert ops[|ops|..] == [];
    RemainsEnd(old(cmts.log), cmts.log, Part([], true), p);
    return true;
  }

  /** The address, URI and path texts of the transfer set-up. */
  datatype Transfer = Transfer(tftpHex: string, uri: string, path: string)

  /** The bulk data transfer set-up of each vendor, given the answer to its first request. */
  function BdtOps(vendor: Vendor, row: int, t: Transfer, first: Result<string>): seq<Op> {
    match vendor
    case Evo => []
    case Cisco =>
      [Set(BdtE6000(9, row), Num(DESTROY)), Set(BdtE6000(9, row), Num(CREATE_AND_GO)),
       Set(BdtE6000(3, row), Num(1)), Set(BdtE6000(4, row), Text(t.tftpHex)), Set(BdtE6000(6, row), Text(t.uri))]
    case Casa =>
      [Set(BdtCasa(2, row), Num(1)), Set(BdtCasa(3, row), Text(t.tftpHex)), Set(BdtCasa(4, row), Text(t.path)),
       Set(BdtCasa(5, row), Num(3)), Set(BdtCasa(6, row), Text("0x0080"))]
    case _ =>
      [Get(BdtE6000(9, row))]
      + if first.Raised? then [] else FieldOps(row, t, Contains(first.value, "No Such") || first.value == "")
  }

  /** The fields of a transfer row, which is created first if it is missing and activated last. */
  function FieldOps(row: int, t: Transfer, missing: bool): seq<Op> {
    (if missing then [Set(BdtE6000(9, row), Num(CREATE_WAIT))] else [])
    + [Set(BdtE6000(3, row), Num(1)), Set(BdtE6000(4, row), Text(t.tftpHex)), Set(BdtE6000(6, row), Text(t.uri)),
       Set(BdtE6000(7, row), Num(1)), Set(BdtE6000(9, row), Num(ACTIVE))]
  }

  function BdtPart(vendor: Vendor, row: int, t: Transfer, answers: Answers, n: nat): Part<bool> {
    DoAllPart(BdtOps(vendor, row, t, answers(n)), answers, n)
  }

  /** `configure_bdt_e6000` */
  method ConfigureBdtE6000(cmts: Cmts, row: int, t: Transfer) returns (ok: bool)
    modifies cmts
    ensures Did(old(cmts.log), cmts.log, ok, BdtPart(E6000, row, t, cmts.answers, |old(cmts.log)|))
  {
    hide Contains, FieldOps;
    ghost var before := cmts.log;
    var status := cmts.Do(Get(BdtE6000(9, row)));
    ghost var ops := BdtOps(E6000, row, t, cmts.answers(|before|));
    assert ops[0] == Get(BdtE6000(9, row));
    if status.Raised? {
      return false;
    }
    var fields := FieldOps(row, t, Contains(status.value, "No Such") || status.value == "");
    assert ops[1..] == fields;
    ok := DoAll(cmts, fields);
    assert cmts.log == before + ([ops[0]] + DoAllPart(fields, cmts.answers, |before| + 1).ops);
  }

  /** The set-up of the vendor, up to a request that raises; `main` ends before it for an EVO. */
  method ConfigureBdt(cmts: Cmts, vendor: Vendor, row: int, t: Transfer) returns (ok: bool)
    modifies cmts
    ensures Did(old(cmts.log), cmts.log, ok, BdtPart(vendor, row, t, cmts.answers, |old(cmts.log)|))
  {
    hide Contains, FieldOps;
    match vendor
    case Evo => return true;
    case Cisco =>
      ok := DoAll(cmts, [
        Set(BdtE6000(9, row), Num(DESTROY)), Set(BdtE6000(9, row), Num(CREATE_AND_GO)),
        Set(BdtE6000(3, row), Num(1)), Set(BdtE6000(4, row), Text(t.tftpHex)), Set(BdtE6000(6, row), Text(t.uri))]);
    case Casa =>
      ok := DoAll(cmts, [
        Set(BdtCasa(2, row), Num(1)), Set(BdtCasa(3, row), Text(t.tftpHex)), Set(BdtCasa(4, row), Text(t.path)),
        Set(BdtCasa(5, row), Num(3)), Set(BdtCasa(6, row), Text("0x0080"))]);
    case _ =>
      ok := ConfigureBdtE6000(cmts, row, t);
  }

  /** The settings a vendor gets; `core` tells the E6000 subtypes apart. */
  function Programmed(vendor: Vendor, core: bool): Settings {
    var s := Settings(100000, 120000, 2, 2, 800);
    match vendor
    case Casa => var l := CasaLimits(s.repeatUs, s.freerunMs); s.(repeatUs := l.0, freerunMs := l.1, outputFmt := 5)
    case E6000 => E6000Limits(s, core)
    case Cisco =>
      var l := CiscoLimits(s.repeatUs, s.freerunMs, s.outputFmt);
      s.(repeatUs := l.0, freerunMs := l.1, outputFmt := l.2)
    case _ => s
  }

  /** Only an E6000 is asked for its subtype. */
  function SettingsPart(vendor: Vendor, port: int, isCore: string -> bool, answers: Answers, n: nat)
    : Part<Result<Settings>>
  {
    if vendor.E6000? then
      Part([Get(IfDescr(port))],
           if answers(n).Raised? then Raised else Ok(Programmed(vendor, isCore(answers(n).value))))
    else Part([], Ok(Programmed(vendor, false)))
  }

  /** The settings `main` programs for a vendor; Raised means that the subtype probe raised. */
  method ChooseSettings(cmts: Cmts, vendor: Vendor, port: int, isCore: string -> bool) returns (r: Result<Settings>)
    modifies cmts
    ensures Did(old(cmts.log), cmts.log, r, SettingsPart(vendor, port, isCore, cmts.answers, |old(cmts.log)|))
  {
    var repeat, freerun, fmt, window, bins := 100000, 120000, 2, 2, 800;
    match vendor {
      case Casa =>
        repeat, freerun := ApplyCasa(repeat, freerun);
        fmt := 5;
      case E6000 =>
        var descr := cmts.Do(Get(IfDescr(port)));
        if descr.Raised? {
          return Raised;
        }
        repeat, freerun, fmt, window, bins := ApplyE6000(repeat, freerun, fmt, window, isCore(descr.value), bins);
      case Cisco =>
        repeat, freerun, fmt := ApplyCisco(repeat, freerun, fmt);
      case _ =>
    }
    return Ok(Settings(repeat, freerun, fmt, window, bins));
  }

  /** The rows `configure_utsc` writes, in order, and the read-back of the row status. */
  function UtscOps(port: int, index: int, vendor: Vendor, s: Settings): seq<Op> {
    [Set(UtscCfg(2, port, index), Num(if vendor.Cisco? then port else 0)),
     Set(UtscCfg(3, port, index), Num(TRIGGER_MODE)),
     Set(UtscCfg(8, port, index), Num(45000000)),
     Set(UtscCfg(9, port, index), Num(80000000)),
     Set(UtscCfg(10, port, index), Num(s.numBins)),
     Set(UtscCfg(17, port, index), Num(s.outputFmt)),
     Set(UtscCfg(16, port, index), Num(s.window)),
     Set(UtscCfg(19, port, index), Num(s.freerunMs)),
     Set(UtscCfg(18, port, index), Num(s.repeatUs)),
     Set(UtscCfg(20, port, index), Num(1))]
    + (if vendor.E6000? || vendor.Cisco?
       then [Set(UtscCfg(24, port, index), Num(BDT_ROW)), Set(UtscCfg(12, port, index), Text("utsc_capture"))] else [])
    + [Get(UtscCfg(ROW_STATUS, port, index))]
  }

  // ---------------------------------------------------------------- trigger, poll and stop

  function Start(port: int, index: int): Op { Set(UtscCtrl(port, index), Num(1)) }

  function Stop(port: int, index: int): Op { Set(UtscCtrl(port, index), Num(2)) }

  /** `trigger`: a row that is not active is made so, then the test is started; false means that a request raised. */
  function TriggerPart(port: int, index: int, answers: Answers, n: nat): Part<bool> {
    var get, active := Get(UtscCfg(ROW_STATUS, port, index)), StatusSet(port, index, ACTIVE);
    if answers(n).Raised? then Part([get], false)
    else if Val(answers(n).value) == 1 then Part([get, Start(port, index)], answers(n + 1).Ok?)
    else if answers(n + 1).Raised? then Part([get, active], false)
    else Part([get, active, Start(port, index)], answers(n + 2).Ok?)
  }

  method Trigger(cmts: Cmts, port: int, index: int) returns (ok: bool)
    modifies cmts
    ensures Did(old(cmts.log), cmts.log, ok, TriggerPart(port, index, cmts.answers, |old(cmts.log)|))
  {
    hide Val;
    var status := cmts.Do(Get(UtscCfg(ROW_STATUS, port, index)));
    if status.Raised? {
      return false;
    }
    if Val(status.value) != 1 {
      var r := cmts.Do(StatusSet(port, index, ACTIVE));
      if r.Raised? {
        return false;
      }
    }
    var r := cmts.Do(Start(port, index));
    return r.Ok?;
  }

  /** Between reading i of the clock and the next lies a sleep. */
  predicate Sleeps(clock: nat -> real, i: nat) { clock(i + 1) >= clock(i) + 3.0 }

  /** The clock readings of a poll: they never go back, and each sleep takes its three seconds. */
  ghost predicate Ticks(clock: nat -> real) {
    clock(1) >= clock(0) && forall i: nat :: i >= 1 ==> Sleeps(clock, i)
  }

  lemma {:induction false} TicksApart(clock: nat -> real, k: nat)
    requires Ticks(clock) && k >= 1
    ensures clock(k) >= clock(0) + 3.0 * (k - 1) as real
  {
    if k > 1 {
      TicksApart(clock, k - 1);
      assert Sleeps(clock, k - 1);
    }
  }

  lemma PollsLeft(clock: nat -> real, k: nat)
    requires Ticks(clock) && k >= 1 && clock(k) - clock(0) <= 300.0
    ensures k <= 101
  {
    TicksApart(clock, k);
  }

  function StatusRead(port: int, index: int): Op { Get(UtscStat(port, index)) }

  /**
  `poll` from reading k of the clock on: True for sampleReady and sampleTruncated, False for an error or a
  time-out.
  */
  function PollPart(port: int, index: int, clock: nat -> real, answers: Answers, n: nat, k: nat): Part<Result<bool>>
    requires Ticks(clock) && k >= 1
    decreases if k <= 101 then 102 - k else 0
  {
    if clock(k) - clock(0) > 300.0 then Part([], Ok(false))
    else
      PollsLeft(clock, k);
      var read := [StatusRead(port, index)];
      if answers(n).Raised? then Part(read, Raised)
      else
        var s := Val(answers(n).value);
        if s == 4 || s == 7 then Part(read, Ok(true))
        else if s == 5 then Part(read, Ok(false))
        else Prepend(read, PollPart(port, index, clock, answers, n + 1, k + 1))
  }

  method Poll(cmts: Cmts, port: int, index: int, clock: nat -> real) returns (r: Result<bool>)
    requires Ticks(clock)
    modifies cmts
    ensures Did(old(cmts.log), cmts.log, r, PollPart(port, index, clock, cmts.answers, |old(cmts.log)|, 1))
  {
    hide Val, Ticks, Remains;
    var t0 := clock(0);
    var k: nat := 1;
    ghost var p := PollPart(port, index, clock, cmts.answers, |cmts.log|, 1);
    RemainsStart(cmts.log, p);
    while true
      invariant k >= 1
      invariant Remains(old(cmts.log), cmts.log, PollPart(port, index, clock, cmts.answers, |cmts.log|, k), p)
      decreases if k <= 101 then 102 - k else 0
    {
      ghost var before := cmts.log;
      ghost var rest := PollPart(port, index, clock, cmts.answers, |before|, k);
      var elapsed := clock(k) - t0;
      if elapsed > 300.0 {
        RemainsEnd(old(cmts.log), before, rest, p);
        return Ok(false);
      }
      PollsLeft(clock, k);
      var raw := cmts.Do(StatusRead(port, index));
      if raw.Raised? {
        RemainsEnd(old(cmts.log), before, rest, p);
        return Raised;
      }
      var s := Val(raw.value);
      if s == 4 {
        RemainsEnd(old(cmts.log), before, rest, p);
        return Ok(true);
      }
      if s == 7 {
        RemainsEnd(old(cmts.log), before, rest, p);
        return Ok(true);
      }
      if s == 5 {
        RemainsEnd(old(cmts.log), before, rest, p);
        return Ok(false);
      }
      RemainsStep(old(cmts.log), before, [StatusRead(port, index)],
                  PollPart(port, index, clock, cmts.answers, |cmts.log|, k + 1), p);
      k := k + 1;
    }
  }

  /** The try block of `main` and its finally: trigger, poll, and always the stop. */
  function TestPart(port: int, index: int, clock: nat -> real, answers: Answers, n: nat): Part<Exit>
    requires Ticks(clock)
  {
    var t := TriggerPart(port, index, answers, n);
    if !t.result then Part(t.ops + [Stop(port, index)], Crashed)
    else
      var p := PollPart(port, index, clock, answers, n + |t.ops|, 1);
      Part(t.ops + p.ops + [Stop(port, index)],
           if p.result.Ok? && answers(n + |t.ops| + |p.ops|).Ok? then Finished else Crashed)
  }

  method TriggerPollStop(cmts: Cmts, port: int, index: int, clock: nat -> real) returns (exit: Exit)
    requires Ticks(clock)
    modifies cmts
    ensures Did(old(cmts.log), cmts.log, exit, TestPart(port, index, clock, cmts.answers, |old(cmts.log)|))
  {
    hide TriggerPart, PollPart, Ticks;
    var ok := Trigger(cmts, port, index);
    exit := Crashed;
    if ok {
      var r := Poll(cmts, port, index, clock);
      if r.Ok? {
        exit := Finished;
      }
    }
    var stopped := cmts.Do(Stop(port, index));
    if stopped.Raised? {
      exit := Crashed;
    }
  }

  // ---------------------------------------------------------------- main

  /** What a run is given: its arguments, the readers of the device's texts, the transfer texts and the clock. */
  datatype Site = Site(port: int, cfgIndex: int, vendorOf: string -> Vendor, isCore: string -> bool,
                       transfer: Transfer, clock: nat -> real)

  /** From `configure_utsc` to the end. */
  function ConfigurePart(site: Site, vendor: Vendor, s: Settings, index: int, answers: Answers, n: nat): Part<Exit>
    requires Ticks(site.clock)
  {
    var c := DoAllPart(UtscOps(site.port, index, vendor, s), answers, n);
    if !c.result then Part(c.ops, Crashed)
    else Prepend(c.ops, TestPart(site.port, index, site.clock, answers, n + |c.ops|))
  }

  /** From the row lifecycle on. */
  function LifecyclePart(site: Site, vendor: Vendor, s: Settings, answers: Answers, n: nat): Part<Exit>
    requires Ticks(site.clock)
  {
    var row := RowPart(vendor, site.port, site.cfgIndex, answers, n);
    match row.result
    case Quit(exit) => Part(row.ops, exit)
    case Use(index) => Prepend(row.ops, ConfigurePart(site, vendor, s, index, answers, n + |row.ops|))
  }

  /** From the transfer set-up on. */
  function TransferPart(site: Site, vendor: Vendor, s: Settings, answers: Answers, n: nat): Part<Exit>
    requires Ticks(site.clock)
  {
    var b := BdtPart(vendor, BDT_ROW, site.transfer, answers, n);
    if !b.result then Part(b.ops, Crashed)
    else Prepend(b.ops, LifecyclePart(site, vendor, s, answers, n + |b.ops|))
  }

  /** From the choice of the settings on. */
  function VendorPart(site: Site, vendor: Vendor, answers: Answers, n: nat): Part<Exit>
    requires Ticks(site.clock)
  {
    var s := SettingsPart(vendor, site.port, site.isCore, answers, n);
    match s.result
    case Raised => Part(s.ops, Crashed)
    case Ok(settings) => Prepend(s.ops, TransferPart(site, vendor, settings, answers, n + |s.ops|))
  }

  /** A whole run. */
  function MainPart(site: Site, answers: Answers): Part<Exit>
    requires Ticks(site.clock)
  {
    var first := [Get(SysDescr)];
    if answers(0).Raised? then Part(first, Crashed)
    else if site.vendorOf(answers(0).value).Evo? then Part(first, Exited(0))
    else Prepend(first, VendorPart(site, site.vendorOf(answers(0).value), answers, 1))
  }

  /** `main`. Crashed stands for an end by an exception. */
  method Run(cmts: Cmts, site: Site) returns (exit: Exit)
    requires cmts.log == [] && Ticks(site.clock)
    modifies cmts
    ensures cmts.log == MainPart(site, cmts.answers).ops && exit == MainPart(site, cmts.answers).result
  {
    hide Ticks, Remains, Prepend, SettingsPart, BdtPart, RowPart, DoAllPart, TestPart;
    ghost var p := MainPart(site, cmts.answers);
    RemainsStart([], p);
    ghost var log := cmts.log;
    var descr := cmts.Do(Get(SysDescr));
    assert cmts.log == [Get(SysDescr)];
    if descr.Raised? {
      return Crashed;
    }
    var vendor := site.vendorOf(descr.value);
    if vendor.Evo? {
      return Exited(0);
    }
    RemainsStep([], log, [Get(SysDescr)], VendorPart(site, vendor, cmts.answers, |cmts.log|), p);
    log := cmts.log;
    var settings := ChooseSettings(cmts, vendor, site.port, site.isCore);
    ghost var ops := cmts.log[|log|..];
    if settings.Raised? {
      RunEnds(log, Part(ops, Crashed), p);
      return Crashed;
    }
    var s := settings.value;
    RemainsStep([], log, ops, TransferPart(site, vendor, s, cmts.answers, |cmts.log|), p);
    log := cmts.log;
    var ok := ConfigureBdt(cmts, vendor, BDT_ROW, site.transfer);
    ops := cmts.log[|log|..];
    if !ok {
      RunEnds(log, Part(ops, Crashed), p);
      return Crashed;
    }
    RemainsStep([], log, ops, LifecyclePart(site, vendor, s, cmts.answers, |cmts.log|), p);
    log := cmts.log;
    var row := PrepareRow(cmts, vendor, site.port, site.cfgIndex);
    ops := cmts.log[|log|..];
    if row.Quit? {
      RunEnds(log, Part(ops, row.exit), p);
      return row.exit;
    }
    RemainsStep([], log, ops, ConfigurePart(site, vendor, s, row.index, cmts.answers, |cmts.log|), p);
    log := cmts.log;
    ok := DoAll(cmts, UtscOps(site.port, row.index, vendor, s));
    ops := cmts.log[|log|..];
    if !ok {
      RunEnds(log, Part(ops, Crashed), p);
      return Crashed;
    }
    RemainsStep([], log, ops, TestPart(site.port, row.index, site.clock, cmts.answers, |cmts.log|), p);
    log := cmts.log;
    exit := TriggerPollStop(cmts, site.port, row.index, site.clock);
    RunEnds(log, Part(cmts.log[|log|..], exit), p);
  }

  lemma RunEnds(log: seq<Op>, rest: Part<Exit>, p: Part<Exit>)
    requires Remains([], log, rest, p)
    ensures log + rest.ops == p.ops && rest.result == p.result
  {
    assert [] + p.ops == p.ops;
  }
}

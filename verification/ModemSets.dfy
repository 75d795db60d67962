/**
The verified set-then-trigger sequences of `CmSnmpOperation`, against a modem that answers each SET as it likes.
*/
module ModemSets {
  import opened Wrappers
  import opened PyText

  // ---------------------------------------------------------------- the device

  datatype Payload = Word(text: string) | Num(n: int)

  /** One SET: the column, its index, and the value. */
  datatype SetReq = SetReq(column: string, index: int, value: Payload)

  /** The answer to a SET: an exception or time-out, or the texts `snmp_set_result_value` takes from the response. */
  datatype Answer = Failure | Values(values: seq<string>)

  /** A modem whose answer to its i-th SET is `answers(i)`; `log` is every SET issued. */
  class Modem {
    const answers: nat -> Answer
    var log: seq<SetReq>

    constructor (answers: nat -> Answer)
      ensures this.answers == answers && log == []
    {
      this.answers := answers;
      log := [];
    }

    method Set(req: SetReq) returns (a: Answer)
      modifies this
      ensures log == old(log) + [req] && a == answers(|old(log)|)
    {
      a := answers(|log|);
      log := log + [req];
    }
  }

  // ---------------------------------------------------------------- plans

  /** How the answer to a SET is checked. */
  datatype Check =
    | SameText        // str(result[0]) equals the text
    | SameInt         // int(result[0]) equals the number; a text that is no number raises
    | SameNonEmpty    // the spectrum check: the first result is not empty and prints like the value
    | Unchecked       // only an exception stops the method

  datatype Step = Step(req: SetReq, check: Check)

  function TextOf(p: Payload): string { match p case Word(t) => t case Num(n) => IntText(n) }

  predicate Passes(s: Step, a: Answer) {
    a.Values? &&
    match s.check
    case SameText => a.values != [] && a.values[0] == TextOf(s.req.value)
    case SameInt => a.values != [] && s.req.value.Num? && PyInt(a.values[0]) == Some(s.req.value.n)
    case SameNonEmpty => a.values != [] && a.values[0] != "" && a.values[0] == TextOf(s.req.value)
    case Unchecked => true
  }

  /**
  When an answer passes: it arrived, and its first text is the value's, or reads as the number, as the check asks; a
  number's own text is accepted by all of them.
  */
  lemma PassesIff(s: Step, a: Answer)
    ensures Passes(s, a) <==>
              a.Values?
              && (s.check.Unchecked? || a.values != [])
              && (s.check.SameText? || s.check.SameNonEmpty? ==>
                    a.values[0] == match s.req.value case Word(t) => t case Num(n) => IntText(n))
              && (s.check.SameNonEmpty? ==> a.values[0] != "")
              && (s.check.SameInt? ==> s.req.value.Num? && PyInt(a.values[0]) == Some(s.req.value.n))
    ensures s.req.value.Num? && a.Values? && a.values != [] && a.values[0] == IntText(s.req.value.n) ==> Passes(s, a)
  {
    hide IntText, PyInt;
    if s.req.value.Num? {
      PyIntText(s.req.value.n);
      IntTextTrimmed(s.req.value.n);
    }
  }

  /** The first step that does not pass, or the end of the plan. */
  function Stop(plan: seq<Step>, answers: nat -> Answer, start: nat): nat
    decreases |plan|
  {
    if plan == [] || !Passes(plan[0], answers(start)) then 0 else 1 + Stop(plan[1..], answers, start + 1)
  }

  lemma {:induction false} StopIsFirst(plan: seq<Step>, answers: nat -> Answer, start: nat)
    ensures var n := Stop(plan, answers, start);
            && n <= |plan|
            && (forall i :: 0 <= i < n ==> Passes(plan[i], answers(start + i)))
            && (n < |plan| ==> !Passes(plan[n], answers(start + n)))
    decreases |plan|
  {
    if plan != [] && Passes(plan[0], answers(start)) {
      var rest := plan[1..];
      StopIsFirst(rest, answers, start + 1);
      forall i | 0 <= i < Stop(plan, answers, start) ensures Passes(plan[i], answers(start + i)) {
        if i > 0 {
          assert Passes(rest[i - 1], answers(start + 1 + (i - 1)));
        }
      }
    }
  }

  function Requests(plan: seq<Step>): seq<SetReq> {
    seq(|plan|, i requires 0 <= i < |plan| => plan[i].req)
  }

  /**
  A plan was run: its steps were issued in order up to and including the first one that did not pass, and the
  result says whether all passed.
  */
  ghost predicate Ran(plan: seq<Step>, answers: nat -> Answer, before: seq<SetReq>, log: seq<SetReq>, ok: bool) {
    var n := Stop(plan, answers, |before|);
    && n <= |plan| && ok == (n == |plan|)
    && log == before + Requests(plan[..if n == |plan| then n else n + 1])
  }

  /** One SET with its check, as every method does it. */
  method Verified(modem: Modem, s: Step) returns (ok: bool)
    modifies modem
    ensures modem.log == old(modem.log) + [s.req]
    ensures ok == Passes(s, modem.answers(|old(modem.log)|))
  {
    var a := modem.Set(s.req);
    if a.Failure? {
      return false;
    }
    match s.check
    case SameText =>
      return a.values != [] && a.values[0] == TextOf(s.req.value);
    case SameInt =>
      return a.values != [] && s.req.value.Num? && PyInt(a.values[0]) == Some(s.req.value.n);
    case SameNonEmpty =>
      return a.values != [] && a.values[0] != "" && a.values[0] == TextOf(s.req.value);
    case Unchecked =>
      return true;
  }

  /** A run that has passed the first n steps. */
  ghost predicate Under(plan: seq<Step>, answers: nat -> Answer, before: seq<SetReq>, log: seq<SetReq>, n: nat) {
    && n <= |plan| && log == before + Requests(plan[..n])
    && forall i :: 0 <= i < n ==> Passes(plan[i], answers(|before| + i))
  }

  lemma UnderStart(plan: seq<Step>, answers: nat -> Answer, before: seq<SetReq>)
    ensures Under(plan, answers, before, before, 0)
  {}

  lemma UnderLength(plan: seq<Step>, answers: nat -> Answer, before: seq<SetReq>, log: seq<SetReq>, n: nat)
    requires Under(plan, answers, before, log, n)
    ensures |log| == |before| + n
  {}

  lemma UnderEnd(plan: seq<Step>, answers: nat -> Answer, before: seq<SetReq>, log: seq<SetReq>)
    requires Under(plan, answers, before, log, |plan|)
    ensures Ran(plan, answers, before, log, true)
  {
    StopIsFirst(plan, answers, |before|);
  }

  /** The next step of a plan. */
  method Next(modem: Modem, s: Step, ghost plan: seq<Step>, ghost n: nat, ghost before: seq<SetReq>) returns (ok: bool)
    requires n < |plan| && plan[n] == s && Under(plan, modem.answers, before, modem.log, n)
    modifies modem
    ensures modem.log == old(modem.log) + [s.req]
    ensures ok ==> Under(plan, modem.answers, before, modem.log, n + 1)
    ensures !ok ==> Ran(plan, modem.answers, before, modem.log, false)
  {
    ghost var log := modem.log;
    ok := Verified(modem, s);
    assert Requests(plan[..n + 1]) == Requests(plan[..n]) + [s.req];
    assert modem.log == before + Requests(plan[..n + 1]);
    assert |log| == |before| + n;
    StopIsFirst(plan, modem.answers, |before|);
  }

  // ---------------------------------------------------------------- what a run means

  /**
  What a run issued and what that says of the answers: a prefix of the plan, every SET but the last of it echoed; all
  of the plan iff every step before the last one passed; True iff every step passed, and on False the last SET issued
  is the first that did not pass.
  */
  lemma RunShape(plan: seq<Step>, answers: nat -> Answer, before: seq<SetReq>, log: seq<SetReq>, ok: bool)
    requires plan != [] && Ran(plan, answers, before, log, ok)
    ensures |before| < |log| <= |before| + |plan|
    ensures log == before + Requests(plan)[..|log| - |before|]
    ensures forall i :: 0 <= i < |log| - |before| - 1 ==> Passes(plan[i], answers(|before| + i))
    ensures |log| == |before| + |plan| <==> forall i :: 0 <= i < |plan| - 1 ==> Passes(plan[i], answers(|before| + i))
    ensures ok <==> forall i :: 0 <= i < |plan| ==> Passes(plan[i], answers(|before| + i))
    ensures !ok ==> !Passes(plan[|log| - |before| - 1], answers(|log| - 1))
  {
    hide Passes;
    var n := Stop(plan, answers, |before|);
    StopIsFirst(plan, answers, |before|);
    var m := if n == |plan| then n else n + 1;
    assert Requests(plan[..m]) == Requests(plan)[..m];
    assert |log| == |before| + m;
  }

  /** The plan triggers by its last step when it is asked to go, and not at all otherwise. */
  predicate TriggersBy(plan: seq<Step>, column: string, setAndGo: bool) {
    && (forall i :: 0 <= i < |plan| && plan[i].req.column == column ==> setAndGo && i == |plan| - 1)
    && (setAndGo ==> plan != [] && plan[|plan| - 1].req.column == column)
  }

  /** Trigger safety: a trigger is issued only when asked for, last, and after every earlier SET was echoed. */
  lemma TriggerSafety(plan: seq<Step>, answers: nat -> Answer, before: seq<SetReq>, log: seq<SetReq>, ok: bool,
                      column: string, setAndGo: bool, i: nat)
    requires TriggersBy(plan, column, setAndGo) && plan != [] && Ran(plan, answers, before, log, ok)
    requires |before| <= i < |log| && log[i].column == column
    ensures setAndGo && i == |log| - 1
    ensures forall k :: 0 <= k < |plan| - 1 ==> Passes(plan[k], answers(|before| + k))
  {
    RunShape(plan, answers, before, log, ok);
    assert log[i] == plan[i - |before|].req;
  }

  // ---------------------------------------------------------------- the methods

  /** A trigger column at value 1, when the caller asks for it. */
  function Go(setAndGo: bool, column: string, index: int): seq<Step> {
    if setAndGo then [Step(SetReq(column, index, Num(1)), SameInt)] else []
  }

  function FileStep(column: string, index: int, name: string): Step {
    Step(SetReq(column, index, Word(name)), SameText)
  }

  function IntStep(column: string, index: int, n: int): Step { Step(SetReq(column, index, Num(n)), SameInt) }

  function PreEqPlan(idx: int, file: string, last: string, setAndGo: bool): seq<Step> {
    [FileStep("docsPnmCmUsPreEqFileName", idx, file), FileStep("docsPnmCmUsPreEqLastUpdateFileName", idx, last)]
    + Go(setAndGo, "docsPnmCmUsPreEqFileEnable", idx)
  }

  /** `setDocsPnmCmUsPreEq` */
  method SetPreEq(modem: Modem, idx: int, file: string, last: string, setAndGo: bool) returns (ok: bool)
    modifies modem
    ensures Ran(PreEqPlan(idx, file, last, setAndGo), modem.answers, old(modem.log), modem.log, ok)
  {
    ghost var plan := PreEqPlan(idx, file, last, setAndGo);
    UnderStart(plan, modem.answers, modem.log);
    ok := Next(modem, FileStep("docsPnmCmUsPreEqFileName", idx, file), plan, 0, old(modem.log));
    if !ok {
      return false;
    }
    ok := Next(modem, FileStep("docsPnmCmUsPreEqLastUpdateFileName", idx, last), plan, 1, old(modem.log));
    if !ok {
      return false;
    }
    if setAndGo {
      ok := Next(modem, IntStep("docsPnmCmUsPreEqFileEnable", idx, 1), plan, 2, old(modem.log));
      if !ok {
        return false;
      }
    }
    UnderEnd(plan, modem.answers, old(modem.log), modem.log);
    return true;
  }

  /** The methods that set a file name and then the trigger: RxMER and channel estimation. */
  function NameThenGoPlan(nameColumn: string, goColumn: string, idx: int, file: string, setAndGo: bool): seq<Step> {
    [FileStep(nameColumn, idx, file)] + Go(setAndGo, goColumn, idx)
  }

  function RxMerPlan(idx: int, file: string, setAndGo: bool): seq<Step> {
    NameThenGoPlan("docsPnmCmDsOfdmRxMerFileName", "docsPnmCmDsOfdmRxMerFileEnable", idx, file, setAndGo)
  }

  /** `setDocsPnmCmDsOfdmRxMer`; a time-out of either SET is a failure. */
  method SetRxMer(modem: Modem, idx: int, file: string, setAndGo: bool) returns (ok: bool)
    modifies modem
    ensures Ran(RxMerPlan(idx, file, setAndGo), modem.answers, old(modem.log), modem.log, ok)
  {
    ghost var plan := RxMerPlan(idx, file, setAndGo);
    UnderStart(plan, modem.answers, modem.log);
    ok := Next(modem, FileStep("docsPnmCmDsOfdmRxMerFileName", idx, file), plan, 0, old(modem.log));
    if !ok {
      return false;
    }
    if setAndGo {
      ok := Next(modem, IntStep("docsPnmCmDsOfdmRxMerFileEnable", idx, 1), plan, 1, old(modem.log));
      if !ok {
        return false;
      }
    }
    UnderEnd(plan, modem.answers, old(modem.log), modem.log);
    return true;
  }

  function ChEstCoefPlan(idx: int, file: string, setAndGo: bool): seq<Step> {
    NameThenGoPlan("docsPnmCmOfdmChEstCoefFileName", "docsPnmCmOfdmChEstCoefTrigEnable", idx, file, setAndGo)
  }

  /** `setDocsPnmCmOfdmChEstCoef` */
  method SetChEstCoef(modem: Modem, idx: int, file: string, setAndGo: bool) returns (ok: bool)
    modifies modem
    ensures Ran(ChEstCoefPlan(idx, file, setAndGo), modem.answers, old(modem.log), modem.log, ok)
  {
    ghost var plan := ChEstCoefPlan(idx, file, setAndGo);
    UnderStart(plan, modem.answers, modem.log);
    ok := Next(modem, FileStep("docsPnmCmOfdmChEstCoefFileName", idx, file), plan, 0, old(modem.log));
    if !ok {
      return false;
    }
    if setAndGo {
      ok := Next(modem, IntStep("docsPnmCmOfdmChEstCoefTrigEnable", idx, 1), plan, 1, old(modem.log));
      if !ok {
        return false;
      }
    }
    UnderEnd(plan, modem.answers, old(modem.log), modem.log);
    return true;
  }

  function FecSumPlan(idx: int, file: string, sumType: int, setAndGo: bool): seq<Step> {
    [FileStep("docsPnmCmDsOfdmFecFileName", idx, file), IntStep("docsPnmCmDsOfdmFecSumType", idx, sumType)]
    + Go(setAndGo, "docsPnmCmDsOfdmFecFileEnable", idx)
  }

  /** `setDocsPnmCmDsOfdmFecSum` */
  method SetFecSum(modem: Modem, idx: int, file: string, sumType: int, setAndGo: bool) returns (ok: bool)
    modifies modem
    ensures Ran(FecSumPlan(idx, file, sumType, setAndGo), modem.answers, old(modem.log), modem.log, ok)
  {
    ghost var plan := FecSumPlan(idx, file, sumType, setAndGo);
    UnderStart(plan, modem.answers, modem.log);
    ok := Next(modem, FileStep("docsPnmCmDsOfdmFecFileName", idx, file), plan, 0, old(modem.log));
    if !ok {
      return false;
    }
    ok := Next(modem, IntStep("docsPnmCmDsOfdmFecSumType", idx, sumType), plan, 1, old(modem.log));
    if !ok {
      return false;
    }
    if setAndGo {
      ok := Next(modem, IntStep("docsPnmCmDsOfdmFecFileEnable", idx, 1), plan, 2, old(modem.log));
      if !ok {
        return false;
      }
    }
    UnderEnd(plan, modem.answers, old(modem.log), modem.log);
    return true;
  }

  function ConstDispPlan(idx: int, file: string, offset: int, samples: int, setAndGo: bool): seq<Step> {
    [FileStep("docsPnmCmDsConstDispFileName", idx, file), IntStep("docsPnmCmDsConstDispModOrderOffset", idx, offset),
     IntStep("docsPnmCmDsConstDispNumSampleSymb", idx, samples)]
    + Go(setAndGo, "docsPnmCmDsConstDispTrigEnable", idx)
  }

  /** `setDocsPnmCmDsConstDisp` */
  method SetConstDisp(modem: Modem, idx: int, file: string, offset: int, samples: int, setAndGo: bool)
    returns (ok: bool)
    modifies modem
    ensures Ran(ConstDispPlan(idx, file, offset, samples, setAndGo), modem.answers, old(modem.log), modem.log, ok)
  {
    ghost var plan := ConstDispPlan(idx, file, offset, samples, setAndGo);
    UnderStart(plan, modem.answers, modem.log);
    ok := Next(modem, FileStep("docsPnmCmDsConstDispFileName", idx, file), plan, 0, old(modem.log));
    if !ok {
      return false;
    }
    ok := Next(modem, IntStep("docsPnmCmDsConstDispModOrderOffset", idx, offset), plan, 1, old(modem.log));
    if !ok {
      return false;
    }
    ok := Next(modem, IntStep("docsPnmCmDsConstDispNumSampleSymb", idx, samples), plan, 2, old(modem.log));
    if !ok {
      return false;
    }
    if setAndGo {
      ok := Next(modem, IntStep("docsPnmCmDsConstDispTrigEnable", idx, 1), plan, 3, old(modem.log));
      if !ok {
        return false;
      }
    }
    UnderEnd(plan, modem.answers, old(modem.log), modem.log);
    return true;
  }

  function HistPlan(idx: int, file: string, timeout: int, setAndGo: bool): seq<Step> {
    [Step(SetReq("docsPnmCmDsHistTimeOut", idx, Num(timeout)), Unchecked),
     FileStep("docsPnmCmDsHistFileName", idx, file)]
    + Go(setAndGo, "docsPnmCmDsHistEnable", idx)
  }

  /** `setDocsPnmCmDsHist`, given the interface indices found for the MAC layer. */
  method SetHist(modem: Modem, indices: seq<int>, file: string, timeout: int, setAndGo: bool) returns (ok: bool)
    modifies modem
    ensures |indices| != 1 ==> !ok && modem.log == old(modem.log)
    ensures |indices| == 1 ==>
              Ran(HistPlan(indices[0], file, timeout, setAndGo), modem.answers, old(modem.log), modem.log, ok)
  {
    if indices == [] {
      return false;
    }
    if |indices| > 1 {
      return false;
    }
    var idx := indices[0];
    ghost var plan := HistPlan(idx, file, timeout, setAndGo);
    UnderStart(plan, modem.answers, modem.log);
    ok := Next(modem, Step(SetReq("docsPnmCmDsHistTimeOut", idx, Num(timeout)), Unchecked), plan, 0, old(modem.log));
    if !ok {
      return false;
    }
    ok := Next(modem, FileStep("docsPnmCmDsHistFileName", idx, file), plan, 1, old(modem.log));
    if !ok {
      return false;
    }
    if setAndGo {
      ok := Next(modem, IntStep("docsPnmCmDsHistEnable", idx, 1), plan, 2, old(modem.log));
      if !ok {
        return false;
      }
    }
    UnderEnd(plan, modem.answers, old(modem.log), modem.log);
    return true;
  }

  /** The six plans written out. */
  lemma PlansAre(idx: int, file: string, last: string, a: int, b: int, go: bool)
    ensures PreEqPlan(idx, file, last, go) ==
            [Step(SetReq("docsPnmCmUsPreEqFileName", idx, Word(file)), SameText),
             Step(SetReq("docsPnmCmUsPreEqLastUpdateFileName", idx, Word(last)), SameText)]
            + if go then [Step(SetReq("docsPnmCmUsPreEqFileEnable", idx, Num(1)), SameInt)] else []
    ensures RxMerPlan(idx, file, go) ==
            [Step(SetReq("docsPnmCmDsOfdmRxMerFileName", idx, Word(file)), SameText)]
            + if go then [Step(SetReq("docsPnmCmDsOfdmRxMerFileEnable", idx, Num(1)), SameInt)] else []
    ensures ChEstCoefPlan(idx, file, go) ==
            [Step(SetReq("docsPnmCmOfdmChEstCoefFileName", idx, Word(file)), SameText)]
            + if go then [Step(SetReq("docsPnmCmOfdmChEstCoefTrigEnable", idx, Num(1)), SameInt)] else []
    ensures FecSumPlan(idx, file, a, go) ==
            [Step(SetReq("docsPnmCmDsOfdmFecFileName", idx, Word(file)), SameText),
             Step(SetReq("docsPnmCmDsOfdmFecSumType", idx, Num(a)), SameInt)]
            + if go then [Step(SetReq("docsPnmCmDsOfdmFecFileEnable", idx, Num(1)), SameInt)] else []
    ensures ConstDispPlan(idx, file, a, b, go) ==
            [Step(SetReq("docsPnmCmDsConstDispFileName", idx, Word(file)), SameText),
             Step(SetReq("docsPnmCmDsConstDispModOrderOffset", idx, Num(a)), SameInt),
             Step(SetReq("docsPnmCmDsConstDispNumSampleSymb", idx, Num(b)), SameInt)]
            + if go then [Step(SetReq("docsPnmCmDsConstDispTrigEnable", idx, Num(1)), SameInt)] else []
    ensures HistPlan(idx, file, a, go) ==
            [Step(SetReq("docsPnmCmDsHistTimeOut", idx, Num(a)), Unchecked),
             Step(SetReq("docsPnmCmDsHistFileName", idx, Word(file)), SameText)]
            + if go then [Step(SetReq("docsPnmCmDsHistEnable", idx, Num(1)), SameInt)] else []
  {}

  /** All six plans trigger as TriggersBy demands. */
  lemma PlansTrigger(idx: int, file: string, last: string, a: int, b: int, go: bool)
    ensures TriggersBy(PreEqPlan(idx, file, last, go), "docsPnmCmUsPreEqFileEnable", go)
    ensures TriggersBy(RxMerPlan(idx, file, go), "docsPnmCmDsOfdmRxMerFileEnable", go)
    ensures TriggersBy(ChEstCoefPlan(idx, file, go), "docsPnmCmOfdmChEstCoefTrigEnable", go)
    ensures TriggersBy(FecSumPlan(idx, file, a, go), "docsPnmCmDsOfdmFecFileEnable", go)
    ensures TriggersBy(ConstDispPlan(idx, file, a, b, go), "docsPnmCmDsConstDispTrigEnable", go)
    ensures TriggersBy(HistPlan(idx, file, a, go), "docsPnmCmDsHistEnable", go)
  {
    // the trigger columns differ from every other column in length
    assert |"docsPnmCmUsPreEqFileName"| == 24 && |"docsPnmCmUsPreEqLastUpdateFileName"| == 34
           && |"docsPnmCmUsPreEqFileEnable"| == 26;
    assert |"docsPnmCmDsOfdmRxMerFileName"| == 28 && |"docsPnmCmDsOfdmRxMerFileEnable"| == 30;
    assert |"docsPnmCmOfdmChEstCoefFileName"| == 30 && |"docsPnmCmOfdmChEstCoefTrigEnable"| == 32;
    assert |"docsPnmCmDsOfdmFecFileName"| == 26 && |"docsPnmCmDsOfdmFecSumType"| == 25
           && |"docsPnmCmDsOfdmFecFileEnable"| == 28;
    assert |"docsPnmCmDsConstDispFileName"| == 28 && |"docsPnmCmDsConstDispModOrderOffset"| == 34
           && |"docsPnmCmDsConstDispNumSampleSymb"| == 33 && |"docsPnmCmDsConstDispTrigEnable"| == 30;
    assert |"docsPnmCmDsHistTimeOut"| == 22 && |"docsPnmCmDsHistFileName"| == 23 && |"docsPnmCmDsHistEnable"| == 21;
  }

  // ---------------------------------------------------------------- the spectrum analyzer

  /** The fields of the control command, in the order of the field map. */
  datatype Field =
    | InactivityTimeout | FirstSegmentCenterFrequency | LastSegmentCenterFrequency | SegmentFrequencySpan
    | NumBinsPerSegment | EquivalentNoiseBandwidth | WindowFunction | NumberOfAverages
    | CmdEnable | FileName | FileEnable

  const FIELDS: seq<Field> := [
    InactivityTimeout, FirstSegmentCenterFrequency, LastSegmentCenterFrequency, SegmentFrequencySpan,
    NumBinsPerSegment, EquivalentNoiseBandwidth, WindowFunction, NumberOfAverages,
    CmdEnable, FileName, FileEnable]

  function Column(f: Field): string {
    "docsIf3CmSpectrumAnalysisCtrlCmd" +
    match f
    case InactivityTimeout => "InactivityTimeout"
    case FirstSegmentCenterFrequency => "FirstSegmentCenterFrequency"
    case LastSegmentCenterFrequency => "LastSegmentCenterFrequency"
    case SegmentFrequencySpan => "SegmentFrequencySpan"
    case NumBinsPerSegment => "NumBinsPerSegment"
    case EquivalentNoiseBandwidth => "EquivalentNoiseBandwidth"
    case WindowFunction => "WindowFunction"
    case NumberOfAverages => "NumberOfAverages"
    case CmdEnable => "Enable"
    case FileName => "FileName"
    case FileEnable => "FileEnable"
  }

  /** The control command: one number a field (an Enum counts by its value), and the file name. */
  class SpectrumCommand {
    var number: map<Field, int>
    var fileName: string

    constructor (number: map<Field, int>, fileName: string)
      ensures this.number == number && this.fileName == fileName
    {
      this.number, this.fileName := number, fileName;
    }

    predicate Complete()
      reads this
    {
      forall f: Field :: f in number
    }

    /**
    `precheck_spectrum_analyzer_settings`: the first centre frequency is moved by the remainder, so that the range is
    a whole number of segments. Raised stands for the ValueError on a descending range and for the division by zero.
    */
    method Precheck() returns (changed: Result<bool>)
      requires Complete()
      modifies this`number
      ensures Complete()
      ensures changed.Raised? <==>
                (old(number)[LastSegmentCenterFrequency] < old(number)[FirstSegmentCenterFrequency]
                 || old(number)[SegmentFrequencySpan] == 0)
      ensures changed.Raised? || !changed.value ==> number == old(number)
      ensures changed.Ok? ==>
                (changed.value <==> (old(number)[LastSegmentCenterFrequency] - old(number)[FirstSegmentCenterFrequency])
                                    % old(number)[SegmentFrequencySpan] != 0)
      ensures forall f :: f in old(number) && f != FirstSegmentCenterFrequency ==> number[f] == old(number)[f]
      ensures changed.Ok? ==>
                var first, span := number[FirstSegmentCenterFrequency], number[SegmentFrequencySpan];
                && (number[LastSegmentCenterFrequency] - first) % span == 0
                && (span > 0 ==> 0 <= first - old(number)[FirstSegmentCenterFrequency] < span
                                 && first <= number[LastSegmentCenterFrequency])
    {
      var first, last, span :=
        number[FirstSegmentCenterFrequency], number[LastSegmentCenterFrequency], number[SegmentFrequencySpan];
      var total := last - first;
      if total < 0 || span == 0 {
        return Raised;
      }
      var remainder := PyMod(total, span);
      WholeSegments(total, span);
      RemainderIsZero(total, span);
      if remainder == 0 {
        return Ok(false);
      }
      number := number[FirstSegmentCenterFrequency := first + remainder];
      return Ok(true);
    }
  }

  /** Python's `%`: the remainder has the divisor's sign. */
  function PyMod(a: int, b: int): int
    requires b != 0
  {
    if b > 0 then a % b else -((-a) % (-b))
  }

  lemma RemainderIsZero(a: int, b: int)
    requires b != 0
    ensures PyMod(a, b) == 0 <==> a % b == 0
  {
    if b < 0 {
      assert a % b == a % -b;
      var q := Quotient(a, -b);
      var p := Quotient(-a, -b);
      if a % -b == 0 {
        Negated(q, -b, a);
      }
      if (-a) % -b == 0 {
        Negated(p, -b, -a);
      }
    }
  }

  lemma WholeSegments(total: int, span: int)
    requires total >= 0 && span != 0
    ensures (total - PyMod(total, span)) % span == 0
    ensures span > 0 ==> 0 <= PyMod(total, span) <= total
  {
    if span > 0 {
      var q := Quotient(total, span);
      MultipleMod(q, span);
    } else {
      var q := Quotient(-total, -span);
      Negated(q, -span, -total - (-total) % (-span));
      NegatedModulus(total - PyMod(total, span), span);
    }
  }

  lemma Quotient(a: int, d: int) returns (q: int)
    requires d > 0
    ensures a - a % d == q * d
    ensures a >= 0 ==> 0 <= a % d <= a
  {
    q := a / d;
  }

  lemma Negated(q: int, d: int, y: int)
    requires d > 0 && y == q * d
    ensures (-y) % d == 0
  {
    assert -y == (-q) * d;
    MultipleMod(-q, d);
  }

  lemma NegatedModulus(x: int, d: int)
    requires d < 0 && x % -d == 0
    ensures x % d == 0
  {}

  lemma MultipleMod(q: int, span: int)
    requires span > 0
    ensures (q * span) % span == 0
  {
    var r, k := (q * span) % span, (q * span) / span;
    assert (q - k) * span == r;
    AtLeastOnce(q - k, span);
  }

  lemma AtLeastOnce(d: int, span: int)
    requires span > 0
    ensures d >= 1 ==> d * span >= span
    ensures d <= -1 ==> d * span <= -span
  {}

  /** The SETs of one field. */
  function FieldSteps(f: Field, number: map<Field, int>, fileName: string, toFile: bool): seq<Step>
    requires f in number
  {
    match f
    case CmdEnable => [Step(SetReq(Column(f), 0, Num(2)), SameNonEmpty),
        Step(SetReq(Column(f), 0, Num(1)), SameNonEmpty)]
    case FileName => [Step(SetReq(Column(f), 0, Word(fileName)), Unchecked)]
    case FileEnable => [Step(SetReq(Column(f), 0, Word(IntText(if toFile then 1 else 2))), SameNonEmpty)]
    case _ => [Step(SetReq(Column(f), 0, Word(IntText(number[f]))), SameNonEmpty)]
  }

  /** The SETs of the first fields. */
  function SpectrumPlan(fields: seq<Field>, number: map<Field, int>, fileName: string, toFile: bool): seq<Step>
    requires forall f: Field :: f in number
  {
    if fields == [] then []
    else SpectrumPlan(fields[..|fields| - 1], number, fileName, toFile)
         + FieldSteps(fields[|fields| - 1], number, fileName, toFile)
  }

  /** The file name sent: a missing one is replaced by a time-stamped flag. */
  function NameSent(fileName: string, stamp: string): string {
    if fileName == "" then "snmp-amplitude-get-flag-" + stamp else fileName
  }

  lemma {:induction false} PlanPrefix(fields: seq<Field>, n: nat, number: map<Field, int>, fileName: string,
                                      toFile: bool)
    requires n <= |fields| && forall f: Field :: f in number
    ensures SpectrumPlan(fields[..n], number, fileName, toFile) <= SpectrumPlan(fields, number, fileName, toFile)
  {
    if n < |fields| {
      assert fields[..|fields| - 1][..n] == fields[..n];
      PlanPrefix(fields[..|fields| - 1], n, number, fileName, toFile);
    } else {
      assert fields[..n] == fields;
    }
  }

  lemma FieldInPlan(fields: seq<Field>, i: nat, number: map<Field, int>, name: string, toFile: bool)
    requires i < |fields| && forall f: Field :: f in number
    ensures var plan := SpectrumPlan(fields, number, name, toFile);
            var n := |SpectrumPlan(fields[..i], number, name, toFile)|;
            var steps := FieldSteps(fields[i], number, name, toFile);
            && n + |steps| <= |plan| && plan[n..n + |steps|] == steps
            && |SpectrumPlan(fields[..i + 1], number, name, toFile)| == n + |steps|
  {
    hide FieldSteps;
    PlanPrefix(fields, i + 1, number, name, toFile);
    assert fields[..i + 1][..i] == fields[..i];
  }

  /** CmdEnable: off, then on, each checked. */
  method Toggle(modem: Modem, ghost plan: seq<Step>, ghost n: nat, ghost before: seq<SetReq>) returns (ok: bool)
    requires n + 2 <= |plan|
    requires plan[n] == Step(SetReq(Column(CmdEnable), 0, Num(2)), SameNonEmpty)
    requires plan[n + 1] == Step(SetReq(Column(CmdEnable), 0, Num(1)), SameNonEmpty)
    requires Under(plan, modem.answers, before, modem.log, n)
    modifies modem
    ensures |old(modem.log)| < |modem.log| <= |old(modem.log)| + 2
    ensures ok ==> Under(plan, modem.answers, before, modem.log, n + 2)
    ensures !ok ==> Ran(plan, modem.answers, before, modem.log, false)
  {
    hide Under, Ran;
    ok := Next(modem, Step(SetReq(Column(CmdEnable), 0, Num(2)), SameNonEmpty), plan, n, before);
    if !ok {
      return false;
    }
    ok := Next(modem, Step(SetReq(Column(CmdEnable), 0, Num(1)), SameNonEmpty), plan, n + 1, before);
  }

  /** The SETs of one field, each checked. */
  method SetField(modem: Modem, cmd: SpectrumCommand, field: Field, toFile: bool, stamp: string,
                  ghost name: string, ghost plan: seq<Step>, ghost n: nat, ghost before: seq<SetReq>)
    returns (ok: bool)
    requires cmd.Complete() && name == NameSent(cmd.fileName, stamp)
    requires var steps := FieldSteps(field, cmd.number, name, toFile);
             n + |steps| <= |plan| && plan[n..n + |steps|] == steps
    requires Under(plan, modem.answers, before, modem.log, n)
    modifies modem, cmd`fileName
    ensures cmd.fileName == if field.FileName? then name else old(cmd.fileName)
    ensures |old(modem.log)| < |modem.log|
            <= |old(modem.log)| + |FieldSteps(field, cmd.number, name, toFile)|
    ensures ok ==> Under(plan, modem.answers, before, modem.log, n + |FieldSteps(field, cmd.number, name, toFile)|)
    ensures !ok ==> Ran(plan, modem.answers, before, modem.log, false)
  {
    hide Under, Ran, Column;
    ghost var steps := FieldSteps(field, cmd.number, name, toFile);
    assert steps[0] == plan[n];
    if field.FileName? {
      if cmd.fileName == "" {
        cmd.fileName := "snmp-amplitude-get-flag-" + stamp;
      }
      ok := Next(modem, Step(SetReq(Column(field), 0, Word(cmd.fileName)), Unchecked), plan, n, before);
    } else if field.CmdEnable? {
      assert steps[1] == plan[n + 1];
      ok := Toggle(modem, plan, n, before);
    } else {
      var value := cmd.number[field];
      if field.FileEnable? {
        value := if toFile then 1 else 2;
      }
      ok := Next(modem, Step(SetReq(Column(field), 0, Word(IntText(value))), SameNonEmpty), plan, n, before);
    }
  }

  /** The field loop of `setDocsIf3CmSpectrumAnalysisCtrlCmd`; `begun` fields were taken up. */
  method SetFields(modem: Modem, cmd: SpectrumCommand, fields: seq<Field>, toFile: bool, stamp: string)
    returns (ok: bool, ghost begun: nat)
    requires cmd.Complete()
    modifies modem, cmd`fileName
    ensures var name := NameSent(old(cmd.fileName), stamp);
            && Ran(SpectrumPlan(fields, cmd.number, name, toFile), modem.answers, old(modem.log), modem.log, ok)
            && begun <= |fields| && (ok ==> begun == |fields|)
            && (begun == 0 ==> modem.log == old(modem.log))
            && (begun > 0 ==> |SpectrumPlan(fields[..begun - 1], cmd.number, name, toFile)|
                              < |modem.log| - |old(modem.log)|
                              <= |SpectrumPlan(fields[..begun], cmd.number, name, toFile)|)
            && cmd.fileName == if FileName in fields[..begun] then name else old(cmd.fileName)
  {
    hide Under, Ran, FieldSteps, SpectrumPlan;
    ghost var name := NameSent(cmd.fileName, stamp);
    ghost var plan := SpectrumPlan(fields, cmd.number, name, toFile);
    ghost var before := modem.log;
    begun := 0;
    NoPlan(cmd.number, name, toFile);
    UnderStart(plan, modem.answers, before);
    assert fields[..0] == [];
    for i := 0 to |fields|
      invariant begun == i && name == NameSent(cmd.fileName, stamp)
      invariant i == 0 ==> modem.log == before
      invariant cmd.fileName == if FileName in fields[..i] then name else old(cmd.fileName)
      invariant i > 0 ==> |SpectrumPlan(fields[..i - 1], cmd.number, name, toFile)| < |modem.log| - |before|
      invariant |modem.log| - |before| == |SpectrumPlan(fields[..i], cmd.number, name, toFile)|
      invariant Under(plan, modem.answers, before, modem.log, |SpectrumPlan(fields[..i], cmd.number, name, toFile)|)
    {
      FieldInPlan(fields, i, cmd.number, name, toFile);
      assert fields[..i + 1] == fields[..i] + [fields[i]];
      begun := i + 1;
      ok := SetField(modem, cmd, fields[i], toFile, stamp, name, plan,
                     |SpectrumPlan(fields[..i], cmd.number, name, toFile)|, before);
      if !ok {
        return false, begun;
      }
      UnderLength(plan, modem.answers, before, modem.log, |SpectrumPlan(fields[..i + 1], cmd.number, name, toFile)|);
    }
    assert fields[..|fields|] == fields;
    UnderEnd(plan, modem.answers, before, modem.log);
    return true, begun;
  }

  lemma NoPlan(number: map<Field, int>, name: string, toFile: bool)
    requires forall f: Field :: f in number
    ensures SpectrumPlan([], number, name, toFile) == []
  {}

  /** The file name is the tenth field, after ten SETs. */
  lemma NameComesTenth(begun: nat, number: map<Field, int>, name: string, toFile: bool)
    requires 0 < begun <= |FIELDS| && forall f: Field :: f in number
    ensures begun >= 10 ==> |SpectrumPlan(FIELDS[..begun - 1], number, name, toFile)| >= 10
    ensures begun <= 9 ==> |SpectrumPlan(FIELDS[..begun], number, name, toFile)| <= 10
    ensures FileName in FIELDS[..begun] <==> begun >= 10
  {
    hide SpectrumPlan, Column;
    PlanLength(8, number, name, toFile);
    PlanSnoc(FIELDS[..8], CmdEnable, number, name, toFile);
    assert FIELDS[..9] == FIELDS[..8] + [CmdEnable];
    if begun >= 10 {
      assert FIELDS[..begun - 1][..9] == FIELDS[..9] && FIELDS[..begun][9] == FileName;
      PlanPrefix(FIELDS[..begun - 1], 9, number, name, toFile);
    } else {
      assert FIELDS[..9][..begun] == FIELDS[..begun];
      PlanPrefix(FIELDS[..9], begun, number, name, toFile);
    }
  }

  /** From the reading of the diplexer on: no SET without it; then the field loop in the order of the map. */
  method SetSpectrum(modem: Modem, cmd: SpectrumCommand, diplexerRead: bool, toFile: bool, stamp: string)
    returns (ok: bool)
    requires cmd.Complete()
    modifies modem, cmd`fileName
    ensures !diplexerRead ==> !ok && modem.log == old(modem.log) && cmd.fileName == old(cmd.fileName)
    ensures diplexerRead ==>
              var name := if old(cmd.fileName) == "" then "snmp-amplitude-get-flag-" + stamp else old(cmd.fileName);
              && Ran(SpectrumPlan(FIELDS, cmd.number, name, toFile), modem.answers, old(modem.log), modem.log, ok)
              && cmd.fileName == if |modem.log| > |old(modem.log)| + 10 then name else old(cmd.fileName)
  {
    hide Ran, SpectrumPlan;
    if !diplexerRead {
      return false;
    }
    ghost var begun;
    ok, begun := SetFields(modem, cmd, FIELDS, toFile, stamp);
    if begun > 0 {
      NameComesTenth(begun, cmd.number, NameSent(old(cmd.fileName), stamp), toFile);
    }
  }

  /** The range of a command is a whole number of segments. */
  predicate IsWhole(number: map<Field, int>)
    requires forall f: Field :: f in number
  {
    number[SegmentFrequencySpan] != 0
    && (number[LastSegmentCenterFrequency] - number[FirstSegmentCenterFrequency]) % number[SegmentFrequencySpan] == 0
  }

  /**
  The whole method. A precheck that raises issues no SET and changes nothing; otherwise the values that go out are a
  whole number of segments, the given ones but for a first frequency that is moved only if they are not.
  */
  method SetCtrlCmd(modem: Modem, cmd: SpectrumCommand, diplexerRead: bool, toFile: bool, stamp: string)
    returns (r: Result<bool>)
    requires cmd.Complete()
    modifies modem, cmd
    ensures cmd.Complete()
    ensures r.Raised? <==> (old(cmd.number)[LastSegmentCenterFrequency] < old(cmd.number)[FirstSegmentCenterFrequency]
                            || old(cmd.number)[SegmentFrequencySpan] == 0)
    ensures r.Raised? ==>
              modem.log == old(modem.log) && cmd.number == old(cmd.number) && cmd.fileName == old(cmd.fileName)
    ensures r.Ok? ==>
              && IsWhole(cmd.number)
              && (cmd.number == old(cmd.number) <==> IsWhole(old(cmd.number)))
              && cmd.number == old(cmd.number)[FirstSegmentCenterFrequency := cmd.number[FirstSegmentCenterFrequency]]
    ensures r.Ok? && !diplexerRead ==> r == Ok(false) && modem.log == old(modem.log)
    ensures r.Ok? && diplexerRead ==>
              var name := if old(cmd.fileName) == "" then "snmp-amplitude-get-flag-" + stamp else old(cmd.fileName);
              && Ran(SpectrumPlan(FIELDS, cmd.number, name, toFile), modem.answers, old(modem.log), modem.log, r.value)
              && cmd.fileName == if |modem.log| > |old(modem.log)| + 10 then name else old(cmd.fileName)
  {
    hide Ran, SpectrumPlan;
    var changed := cmd.Precheck();
    if changed.Raised? {
      return Raised;
    }
    var ok := SetSpectrum(modem, cmd, diplexerRead, toFile, stamp);
    return Ok(ok);
  }

  /** The SET of a numeric setting, confirmed by its own text. */
  function Setting(column: string, n: int): Step { Step(SetReq(column, 0, Word(IntText(n))), SameNonEmpty) }

  /**
  The plan of a spectrum run, written out: the eight settings, then Enable to false and to true, then the file name,
  then FileEnable, which is 1 exactly for file retrieval; only the file name goes unchecked.
  */
  lemma SpectrumPlanIs(number: map<Field, int>, name: string, toFile: bool)
    requires forall f: Field :: f in number
    ensures var plan := SpectrumPlan(FIELDS, number, name, toFile);
            var cmd := "docsIf3CmSpectrumAnalysisCtrlCmd";
            && |plan| == 12
            && plan[0] == Setting(cmd + "InactivityTimeout", number[InactivityTimeout])
            && plan[1] == Setting(cmd + "FirstSegmentCenterFrequency", number[FirstSegmentCenterFrequency])
            && plan[2] == Setting(cmd + "LastSegmentCenterFrequency", number[LastSegmentCenterFrequency])
            && plan[3] == Setting(cmd + "SegmentFrequencySpan", number[SegmentFrequencySpan])
            && plan[4] == Setting(cmd + "NumBinsPerSegment", number[NumBinsPerSegment])
            && plan[5] == Setting(cmd + "EquivalentNoiseBandwidth", number[EquivalentNoiseBandwidth])
            && plan[6] == Setting(cmd + "WindowFunction", number[WindowFunction])
            && plan[7] == Setting(cmd + "NumberOfAverages", number[NumberOfAverages])
            && plan[8] == Step(SetReq(cmd + "Enable", 0, Num(2)), SameNonEmpty)
            && plan[9] == Step(SetReq(cmd + "Enable", 0, Num(1)), SameNonEmpty)
            && plan[10] == Step(SetReq(cmd + "FileName", 0, Word(name)), Unchecked)
            && plan[11] == Step(SetReq(cmd + "FileEnable", 0, Word(IntText(if toFile then 1 else 2))), SameNonEmpty)
  {
    hide Column, IntText, SpectrumPlan;
    SpectrumSteps(number, name, toFile);
    ColumnsAre();
  }

  lemma SpectrumSteps(number: map<Field, int>, name: string, toFile: bool)
    requires forall f: Field :: f in number
    ensures var plan := SpectrumPlan(FIELDS, number, name, toFile);
            && |plan| == 12
            && (forall i :: 0 <= i < 8 ==> plan[i] == Setting(Column(FIELDS[i]), number[FIELDS[i]]))
            && plan[8] == Step(SetReq(Column(CmdEnable), 0, Num(2)), SameNonEmpty)
            && plan[9] == Step(SetReq(Column(CmdEnable), 0, Num(1)), SameNonEmpty)
            && plan[10] == Step(SetReq(Column(FileName), 0, Word(name)), Unchecked)
            && plan[11] == Step(SetReq(Column(FileEnable), 0, Word(IntText(if toFile then 1 else 2))), SameNonEmpty)
  {
    hide Column, IntText, SpectrumPlan;
    PlanLength(8, number, name, toFile);
    PlanSnoc(FIELDS[..8], CmdEnable, number, name, toFile);
    PlanSnoc(FIELDS[..8] + [CmdEnable], FileName, number, name, toFile);
    PlanSnoc(FIELDS[..8] + [CmdEnable] + [FileName], FileEnable, number, name, toFile);
    assert FIELDS == FIELDS[..8] + [CmdEnable] + [FileName] + [FileEnable];
  }

  /** The column of each field. */
  lemma ColumnsAre()
    ensures var cmd := "docsIf3CmSpectrumAnalysisCtrlCmd";
            && Column(InactivityTimeout) == cmd + "InactivityTimeout"
            && Column(FirstSegmentCenterFrequency) == cmd + "FirstSegmentCenterFrequency"
            && Column(LastSegmentCenterFrequency) == cmd + "LastSegmentCenterFrequency"
            && Column(SegmentFrequencySpan) == cmd + "SegmentFrequencySpan"
            && Column(NumBinsPerSegment) == cmd + "NumBinsPerSegment"
            && Column(EquivalentNoiseBandwidth) == cmd + "EquivalentNoiseBandwidth"
            && Column(WindowFunction) == cmd + "WindowFunction"
            && Column(NumberOfAverages) == cmd + "NumberOfAverages"
            && Column(CmdEnable) == cmd + "Enable"
            && Column(FileName) == cmd + "FileName"
            && Column(FileEnable) == cmd + "FileEnable"
  {}

  lemma PlanSnoc(fields: seq<Field>, f: Field, number: map<Field, int>, name: string, toFile: bool)
    requires forall f: Field :: f in number
    ensures SpectrumPlan(fields + [f], number, name, toFile)
         == SpectrumPlan(fields, number, name, toFile) + FieldSteps(f, number, name, toFile)
  {
    assert (fields + [f])[..|fields|] == fields;
  }

  /** Each of the first eight fields is one step. */
  lemma {:induction false} PlanLength(n: nat, number: map<Field, int>, name: string, toFile: bool)
    requires n <= 8 && forall f: Field :: f in number
    ensures var plan := SpectrumPlan(FIELDS[..n], number, name, toFile);
            && |plan| == n
            && (forall i :: 0 <= i < n ==> plan[i] == Setting(Column(FIELDS[i]), number[FIELDS[i]]))
  {
    hide Column, IntText;
    if n > 0 {
      PlanLength(n - 1, number, name, toFile);
      PlanSnoc(FIELDS[..n - 1], FIELDS[n - 1], number, name, toFile);
      assert FIELDS[..n] == FIELDS[..n - 1] + [FIELDS[n - 1]];
    }
  }

  /**
  What a spectrum run did, for every behaviour of the modem. On True all twelve SETs were issued, all but the file
  name confirmed. Enable goes to true only right after it went to false, and after all settings were confirmed;
  FileEnable is written only after every confirmable SET before it was confirmed.
  */
  lemma SpectrumRun(number: map<Field, int>, name: string, toFile: bool, answers: nat -> Answer,
                    before: seq<SetReq>, log: seq<SetReq>, ok: bool)
    requires forall f: Field :: f in number
    requires Ran(SpectrumPlan(FIELDS, number, name, toFile), answers, before, log, ok)
    ensures var plan, n := SpectrumPlan(FIELDS, number, name, toFile), |before|;
            && n <= |log| <= n + 12 && log == before + Requests(plan)[..|log| - n]
            && (ok <==> |log| == n + 12 && forall i :: 0 <= i < 12 ==> Passes(plan[i], answers(n + i)))
            && (|log| > n + 9 ==> forall i :: 0 <= i < 9 ==> Passes(plan[i], answers(n + i)))
            && (|log| == n + 12 ==> forall i :: 0 <= i < 11 ==> Passes(plan[i], answers(n + i)))
            && (!ok ==> |log| > n && !Passes(plan[|log| - n - 1], answers(|log| - 1)))
  {
    hide Passes, SpectrumPlan, Ran;
    SpectrumPlanIs(number, name, toFile);
    RunShape(SpectrumPlan(FIELDS, number, name, toFile), answers, before, log, ok);
  }
}

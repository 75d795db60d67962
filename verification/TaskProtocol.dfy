/**
The remote-agent task protocol of `AgentManager`: the class with its maps, its atomic steps as functions on
the manager's state, and what holds in every run of interleaved sends, messages and waits.
*/
module TaskProtocol {
  import opened Wrappers

  type TaskId = string

  /** A decoded agent message about a task. `requestId` is None when the field is absent. */
  datatype Message =
    | Response(requestId: Option<TaskId>, result: Option<string>, error: Option<string>)
    | ErrorMsg(requestId: Option<TaskId>, error: Option<string>)

  datatype PendingTask = PendingTask(completed: bool, result: Option<string>, error: Option<string>)

  const NEW_TASK := PendingTask(false, None, None)

  // ---------------------------------------------------------------- state and atomic steps

  /** The three maps keyed by task id. */
  datatype State = State(
    pending: map<TaskId, PendingTask>,
    syncQueues: map<TaskId, seq<Message>>,
    asyncQueues: map<TaskId, seq<Message>>)

  const EMPTY := State(map[], map[], map[])

  /** The part of `send_task` before the await. */
  function Register(s: State, t: TaskId): State {
    State(s.pending[t := NEW_TASK], s.syncQueues[t := []], s.asyncQueues[t := []])
  }

  /** The except branch of `send_task`: two of the three entries go. */
  function DropFailed(s: State, t: TaskId): State {
    s.(pending := s.pending - {t}, syncQueues := s.syncQueues - {t})
  }

  /** The finally block of both waits. */
  function Forget(s: State, t: TaskId): State {
    State(s.pending - {t}, s.syncQueues - {t}, s.asyncQueues - {t})
  }

  /** The record after one message. */
  function Noted(task: PendingTask, m: Message): PendingTask {
    match m
    case Response(_, result, error) => PendingTask(true, result, error)
    case ErrorMsg(_, error) => task.(completed := true, error := error)
  }

  /** `put_nowait` on a queue of size one: a full queue drops the message. */
  function PutNowait(q: seq<Message>, m: Message): seq<Message> { if |q| < 1 then q + [m] else q }

  /** `_handle_response` and `_handle_error`. */
  function Handle(s: State, m: Message): State {
    if m.requestId.None? || m.requestId.value !in s.pending then s
    else
      var t := m.requestId.value;
      State(
        s.pending[t := Noted(s.pending[t], m)],
        if t in s.syncQueues then s.syncQueues[t := s.syncQueues[t] + [m]] else s.syncQueues,
        if m.Response? && t in s.asyncQueues then s.asyncQueues[t := PutNowait(s.asyncQueues[t], m)]
        else s.asyncQueues)
  }

  // ---------------------------------------------------------------- the agents

  /** An agent id as it arrives in JSON: it may be missing. */
  type AgentKey = Option<string>

  /** Python's truth value of an agent id. */
  predicate Truthy(id: AgentKey) { id.Some? && id.value != "" }

  datatype Agent = Agent(id: AgentKey, websocket: nat, capabilities: seq<string>, authenticated: bool)

  /** `agents[a.id] = a` on a dict in insertion order: an existing key keeps its place. */
  function PutAgent(agents: seq<Agent>, a: Agent): seq<Agent> {
    if agents == [] then [a]
    else if agents[0].id == a.id then [a] + agents[1..]
    else [agents[0]] + PutAgent(agents[1..], a)
  }

  /** `remove_agent`: the first agent on that websocket, unless its id is falsy. */
  function DropAgent(agents: seq<Agent>, websocket: nat): seq<Agent> {
    if agents == [] then []
    else if agents[0].websocket == websocket then (if Truthy(agents[0].id) then agents[1..] else agents)
    else [agents[0]] + DropAgent(agents[1..], websocket)
  }

  lemma DropStep(agents: seq<Agent>, i: nat, websocket: nat)
    requires i <= |agents|
    ensures i == |agents| ==> agents[i..] == []
    ensures DropAgent(agents[i..], websocket)
         == if i == |agents| then []
            else if agents[i].websocket != websocket then [agents[i]] + DropAgent(agents[i + 1..], websocket)
            else if Truthy(agents[i].id) then agents[i + 1..] else agents[i..]
  {
    if i < |agents| {
      assert agents[i..][1..] == agents[i + 1..];
    }
  }

  predicate DistinctIds(agents: seq<Agent>) {
    forall i, j :: 0 <= i < j < |agents| ==> agents[i].id != agents[j].id
  }

  function OnSocket(agents: seq<Agent>, websocket: nat): nat {
    if agents == [] then 0
    else (if agents[0].websocket == websocket then 1 else 0) + OnSocket(agents[1..], websocket)
  }

  /** After `_handle_auth` the id is registered once, with the new data; all other ids are as before. */
  lemma {:induction false} PutAgentRegisters(agents: seq<Agent>, a: Agent)
    requires DistinctIds(agents)
    ensures DistinctIds(PutAgent(agents, a)) && a in PutAgent(agents, a)
    ensures forall b :: b in PutAgent(agents, a) <==> b == a || (b in agents && b.id != a.id)
  {
    if agents != [] {
      var rest := agents[1..];
      assert agents == [agents[0]] + rest;
      assert forall b :: b in rest ==> b.id != agents[0].id;
      if agents[0].id != a.id {
        PutAgentRegisters(rest, a);
        var r := PutAgent(rest, a);
        assert forall i :: 0 <= i < |r| ==> r[i] in r;
      }
    }
  }

  lemma {:induction false} DropKeepsDistinct(agents: seq<Agent>, websocket: nat)
    requires DistinctIds(agents)
    ensures DistinctIds(DropAgent(agents, websocket))
  {
    if agents != [] && agents[0].websocket != websocket {
      DropKeepsDistinct(agents[1..], websocket);
      DisconnectKeepsOthers(agents[1..], websocket);
      var r := DropAgent(agents[1..], websocket);
      assert forall i :: 0 <= i < |r| ==> r[i] in agents[1..];
    }
  }

  /** What changes the agents: an accepted authentication, a websocket that closes. */
  datatype Presence = Joined(agent: Agent) | Left(websocket: nat)

  function AgentsAfter(events: seq<Presence>): seq<Agent> {
    if events == [] then []
    else
      var before := AgentsAfter(events[..|events| - 1]);
      match events[|events| - 1]
      case Joined(a) => PutAgent(before, a)
      case Left(websocket) => DropAgent(before, websocket)
  }

  /** In every history of the manager each id stands for one agent. */
  lemma {:induction false} AgentsDistinct(events: seq<Presence>)
    ensures DistinctIds(AgentsAfter(events))
  {
    if events != [] {
      var before := events[..|events| - 1];
      AgentsDistinct(before);
      match events[|events| - 1]
      case Joined(a) => PutAgentRegisters(AgentsAfter(before), a);
      case Left(websocket) => DropKeepsDistinct(AgentsAfter(before), websocket);
    }
  }

  /** In every history, an authentication makes its id stand for the new agent and leaves the other ids as they were. */
  lemma JoinedIsRegistered(events: seq<Presence>, a: Agent)
    ensures var before, after := AgentsAfter(events), AgentsAfter(events + [Joined(a)]);
            && a in after && forall b :: b in after <==> b == a || (b in before && b.id != a.id)
  {
    assert (events + [Joined(a)])[..|events|] == events;
    AgentsDistinct(events);
    PutAgentRegisters(AgentsAfter(events), a);
  }

  /**
  Agents on other websockets survive a disconnect: one that reconnected on a new socket is not lost to the old one.
  */
  lemma {:induction false} DisconnectKeepsOthers(agents: seq<Agent>, websocket: nat)
    ensures forall a :: a in agents && a.websocket != websocket ==> a in DropAgent(agents, websocket)
    ensures forall a :: a in DropAgent(agents, websocket) ==> a in agents
  {
    if agents != [] {
      DisconnectKeepsOthers(agents[1..], websocket);
      assert agents == [agents[0]] + agents[1..];
    }
  }

  function FirstOn(agents: seq<Agent>, websocket: nat): Option<Agent> {
    if agents == [] then None
    else if agents[0].websocket == websocket then Some(agents[0])
    else FirstOn(agents[1..], websocket)
  }

  /** A disconnect clears the websocket iff it held no agent, or exactly one and with a truthy id. */
  lemma {:induction false} DisconnectClears(agents: seq<Agent>, websocket: nat)
    ensures var first := FirstOn(agents, websocket);
            (OnSocket(DropAgent(agents, websocket), websocket) == 0
             <==> (first.None?
                   || (OnSocket(agents, websocket) == 1 && first.value.id.Some? && first.value.id.value != "")))
  {
    if agents != [] && agents[0].websocket != websocket {
      DisconnectClears(agents[1..], websocket);
      var rest := DropAgent(agents[1..], websocket);
      assert ([agents[0]] + rest)[1..] == rest;
    }
  }

  // ---------------------------------------------------------------- the class

  /** `AgentManager`. A method is one atomic step: code between two awaits. */
  class AgentManager {
    var agents: seq<Agent>
    var pending: map<TaskId, PendingTask>
    var syncQueues: map<TaskId, seq<Message>>
    var asyncQueues: map<TaskId, seq<Message>>

    ghost function Now(): State
      reads this
    {
      State(pending, syncQueues, asyncQueues)
    }

    constructor ()
      ensures Now() == EMPTY && agents == []
    {
      agents := [];
      pending, syncQueues, asyncQueues := map[], map[], map[];
    }

    /** `_handle_auth`; the result says whether the token was accepted. */
    method HandleAuth(tokenMatches: bool, id: AgentKey, websocket: nat, capabilities: seq<string>) returns (ok: bool)
      modifies this`agents
      ensures ok == tokenMatches
      ensures agents == if ok then PutAgent(old(agents), Agent(id, websocket, capabilities, true)) else old(agents)
    {
      if !tokenMatches {
        return false;
      }
      var agent := Agent(id, websocket, capabilities, true);
      var i := 0;
      while i < |agents| && agents[i].id != id
        invariant i <= |agents|
        invariant PutAgent(agents, agent) == agents[..i] + PutAgent(agents[i..], agent)
      {
        assert agents[i..][1..] == agents[i + 1..];
        i := i + 1;
      }
      assert i < |agents| ==> agents[i..][1..] == agents[i + 1..];
      agents := if i < |agents| then agents[i := agent] else agents + [agent];
      return true;
    }

    /** `remove_agent` */
    method RemoveAgent(websocket: nat)
      modifies this`agents
      ensures agents == DropAgent(old(agents), websocket)
    {
      hide DropAgent;
      var i := 0;
      DropStep(agents, 0, websocket);
      assert agents[0..] == agents;
      while i < |agents| && agents[i].websocket != websocket
        invariant agents == old(agents) && i <= |agents|
        invariant DropAgent(agents, websocket) == agents[..i] + DropAgent(agents[i..], websocket)
      {
        DropStep(agents, i, websocket);
        assert agents[..i + 1] == agents[..i] + [agents[i]];
        i := i + 1;
      }
      DropStep(agents, i, websocket);
      assert agents == agents[..i] + agents[i..];
      if i < |agents| {
        if Truthy(agents[i].id) {
          agents := agents[..i] + agents[i + 1..];
        }
      }
    }

    /**
    `send_task` up to the await; false stands for the ValueError on an agent that is missing or not authenticated.
    */
    method BeginSend(id: AgentKey, t: TaskId) returns (ok: bool)
      modifies this`pending, this`syncQueues, this`asyncQueues
      ensures ok <==> exists i :: 0 <= i < |agents| && agents[i].id == id && agents[i].authenticated
                                  && forall j :: 0 <= j < i ==> agents[j].id != id
      ensures Now() == if ok then Register(old(Now()), t) else old(Now())
    {
      var i := 0;
      while i < |agents| && agents[i].id != id
        invariant i <= |agents|
        invariant forall j :: 0 <= j < i ==> agents[j].id != id
      {
        i := i + 1;
      }
      if i == |agents| || !agents[i].authenticated {
        return false;
      }
      assert agents[i].id == id && forall j :: 0 <= j < i ==> agents[j].id != id;
      pending := pending[t := NEW_TASK];
      syncQueues := syncQueues[t := []];
      asyncQueues := asyncQueues[t := []];
      assert agents[i].authenticated;
      return true;
    }

    /** `del` raises on a missing key, hence the requires: it holds in every run (EntriesArePresent). */
    method FailSend(t: TaskId)
      requires t in pending && t in syncQueues
      modifies this`pending, this`syncQueues, this`asyncQueues
      ensures Now() == DropFailed(old(Now()), t)
    {
      ghost var was := Now();
      pending := pending - {t};
      syncQueues := syncQueues - {t};
      assert Now() == State(was.pending - {t}, was.syncQueues - {t}, was.asyncQueues);
    }

    method HandleResponse(m: Message)
      requires m.Response?
      modifies this`pending, this`syncQueues, this`asyncQueues
      ensures Now() == Handle(old(Now()), m)
    {
      if m.requestId.None? || m.requestId.value !in pending {
        return;
      }
      var t := m.requestId.value;
      pending := pending[t := PendingTask(true, m.result, m.error)];
      var inSync := t in syncQueues;
      var inAsync := t in asyncQueues;
      if inSync {
        syncQueues := syncQueues[t := syncQueues[t] + [m]];
      }
      if inAsync {
        if |asyncQueues[t]| < 1 {
          asyncQueues := asyncQueues[t := asyncQueues[t] + [m]];
        }
      }
    }

    method HandleError(m: Message)
      requires m.ErrorMsg?
      modifies this`pending, this`syncQueues, this`asyncQueues
      ensures Now() == Handle(old(Now()), m)
    {
      if m.requestId.Some? && m.requestId.value in pending {
        var t := m.requestId.value;
        pending := pending[t := pending[t].(completed := true, error := m.error)];
        if t in syncQueues {
          syncQueues := syncQueues[t := syncQueues[t] + [m]];
        }
      }
    }

    /** The `get` of a waiter takes the head of its queue. */
    method TakeSync(t: TaskId) returns (m: Message)
      requires t in syncQueues && syncQueues[t] != []
      modifies this`pending, this`syncQueues, this`asyncQueues
      ensures m == old(syncQueues)[t][0]
      ensures Now() == old(Now()).(syncQueues := old(syncQueues)[t := old(syncQueues)[t][1..]])
    {
      m := syncQueues[t][0];
      syncQueues := syncQueues[t := syncQueues[t][1..]];
    }

    method TakeAsync(t: TaskId) returns (m: Message)
      requires t in asyncQueues && asyncQueues[t] != []
      modifies this`pending, this`syncQueues, this`asyncQueues
      ensures m == old(asyncQueues)[t][0]
      ensures Now() == old(Now()).(asyncQueues := old(asyncQueues)[t := old(asyncQueues)[t][1..]])
    {
      m := asyncQueues[t][0];
      asyncQueues := asyncQueues[t := asyncQueues[t][1..]];
    }

    /** The return of a wait, None for a timeout, and its finally block, which deletes each entry that is left. */
    method FinishWait(t: TaskId, got: Option<Message>) returns (r: Option<Message>)
      modifies this`pending, this`syncQueues, this`asyncQueues
      ensures r == got
      ensures Now() == Forget(old(Now()), t)
    {
      r := got;
      if t in syncQueues {
        syncQueues := syncQueues - {t};
      }
      if t in asyncQueues {
        asyncQueues := asyncQueues - {t};
      }
      if t in pending {
        pending := pending - {t};
      }
      assert pending == old(pending) - {t};
      assert syncQueues == old(syncQueues) - {t};
      assert asyncQueues == old(asyncQueues) - {t};
    }
  }

  // ---------------------------------------------------------------- runs

  datatype Kind = Sync | Async

  /** Where the caller that owns a task id stands. */
  datatype Phase =
    | Sending                                            // inside the await of send_task
    | Sent                                               // send_task has returned the id
    | Waiting(kind: Kind)                                // inside the get of a wait
    | Holding(kind: Kind, got: Message)                  // the get took a message, the finally block is still to come
    | Finished(kind: Kind, answer: Option<Message>)      // the wait has returned; None is a timeout
    | SendFailed                                         // send_task has raised

  predicate Live(p: Phase) { !p.Finished? && !p.SendFailed? }

  /** The manager, and the phase of every id issued so far. */
  datatype World = World(state: State, phases: map<TaskId, Phase>)

  datatype Event =
    | Begin(t: TaskId)                                   // send_task registers a fresh uuid
    | SendOk(t: TaskId)
    | SendError(t: TaskId)
    | Receive(m: Message)                                // the socket loop handles a response or an error
    | StartWait(t: TaskId, kind: Kind)
    | Take(t: TaskId)                                    // the get of the waiter completes
    | Finish(t: TaskId)                                  // the wait returns what it holds, or times out

  function QueueOf(s: State, t: TaskId, kind: Kind): seq<Message> {
    match kind
    case Sync => if t in s.syncQueues then s.syncQueues[t] else []
    case Async => if t in s.asyncQueues then s.asyncQueues[t] else []
  }

  predicate Enabled(w: World, e: Event) {
    match e
    case Begin(t) => t !in w.phases
    case SendOk(t) => t in w.phases && w.phases[t].Sending?
    case SendError(t) => t in w.phases && w.phases[t].Sending?
    case Receive(_) => true
    case StartWait(t, _) => t in w.phases && w.phases[t].Sent?
    case Take(t) => t in w.phases && w.phases[t].Waiting? && QueueOf(w.state, t, w.phases[t].kind) != []
    case Finish(t) => t in w.phases && (w.phases[t].Waiting? || w.phases[t].Holding?)
  }

  function Step(w: World, e: Event): World
    requires Enabled(w, e)
  {
    var s := w.state;
    match e
    case Begin(t) => World(Register(s, t), w.phases[t := Sending])
    case SendOk(t) => w.(phases := w.phases[t := Sent])
    case SendError(t) => World(DropFailed(s, t), w.phases[t := SendFailed])
    case Receive(m) => w.(state := Handle(s, m))
    case StartWait(t, kind) =>
      // both waits return None at once when the id is not in their own map
      if t in (if kind.Sync? then s.syncQueues.Keys else s.asyncQueues.Keys)
      then w.(phases := w.phases[t := Waiting(kind)])
      else w.(phases := w.phases[t := Finished(kind, None)])
    case Take(t) =>
      var kind := w.phases[t].kind;
      var q := QueueOf(s, t, kind);
      World(
        if kind.Sync? then s.(syncQueues := s.syncQueues[t := q[1..]])
        else s.(asyncQueues := s.asyncQueues[t := q[1..]]),
        w.phases[t := Holding(kind, q[0])])
    case Finish(t) =>
      var p := w.phases[t];
      World(Forget(s, t), w.phases[t := Finished(p.kind, if p.Holding? then Some(p.got) else None)])
  }

  const START := World(EMPTY, map[])

  /** A run is a sequence of events, each enabled where it happens. */
  ghost predicate IsRun(run: seq<Event>)
    decreases |run|, 0
  {
    run == [] || (IsRun(run[..|run| - 1]) && Enabled(After(run[..|run| - 1]), run[|run| - 1]))
  }

  ghost function After(run: seq<Event>): World
    requires IsRun(run)
    decreases |run|, 1
  {
    if run == [] then START else Step(After(run[..|run| - 1]), run[|run| - 1])
  }

  // ---------------------------------------------------------------- what the history says

  predicate About(e: Event, t: TaskId) { e.Receive? && e.m.requestId == Some(t) }

  /** The messages about `t` handled since `t` was registered, oldest first; [] before that. */
  ghost function Heard(run: seq<Event>, t: TaskId): seq<Message> {
    if run == [] then []
    else
      var before, e := run[..|run| - 1], run[|run| - 1];
      if e == Begin(t) then []
      else if About(e, t) && Begin(t) in before then Heard(before, t) + [e.m]
      else Heard(before, t)
  }

  function Responses(ms: seq<Message>): seq<Message> {
    if ms == [] then []
    else if ms[|ms| - 1].Response? then Responses(ms[..|ms| - 1]) + [ms[|ms| - 1]]
    else Responses(ms[..|ms| - 1])
  }

  function Record(ms: seq<Message>): PendingTask {
    if ms == [] then NEW_TASK else Noted(Record(ms[..|ms| - 1]), ms[|ms| - 1])
  }

  function FirstOnly(ms: seq<Message>): seq<Message> { if ms == [] then [] else [ms[0]] }

  /** What a wait of the given kind can see of the messages heard. */
  function Visible(kind: Kind, heard: seq<Message>): seq<Message> {
    if kind.Sync? then heard else Responses(heard)
  }

  /** The manager's entries for a task that is still live. */
  ghost predicate LiveEntries(s: State, t: TaskId, p: Phase, heard: seq<Message>) {
    && t in s.pending && t in s.syncQueues && t in s.asyncQueues
    && s.pending[t] == Record(heard)
    && (match p
        case Holding(Sync, got) => heard != [] && got == heard[0] && s.syncQueues[t] == heard[1..]
        case _ => s.syncQueues[t] == heard)
    && (match p
        case Holding(Async, got) => Responses(heard) != [] && got == Responses(heard)[0]
        case _ => s.asyncQueues[t] == FirstOnly(Responses(heard)))
  }

  /** Everything known about one id. */
  ghost predicate Known(w: World, t: TaskId, heard: seq<Message>) {
    if t !in w.phases then t !in w.state.pending && t !in w.state.syncQueues && t !in w.state.asyncQueues
    else match w.phases[t]
      case SendFailed => t !in w.state.pending && t !in w.state.syncQueues && t in w.state.asyncQueues
      case Finished(kind, answer) =>
        && t !in w.state.pending && t !in w.state.syncQueues && t !in w.state.asyncQueues
        && (answer.Some? ==> Visible(kind, heard) != [] && answer.value == Visible(kind, heard)[0])
      case p => LiveEntries(w.state, t, p, heard)
  }

  lemma ResponsesGrow(heard: seq<Message>, m: Message)
    ensures Responses(heard + [m]) == Responses(heard) + (if m.Response? then [m] else [])
    ensures Record(heard + [m]) == Noted(Record(heard), m)
  {
    assert (heard + [m])[..|heard|] == heard;
  }

  lemma {:induction false} IssuedIffBegun(run: seq<Event>, t: TaskId)
    requires IsRun(run)
    ensures t in After(run).phases <==> Begin(t) in run
  {
    if run != [] {
      IssuedIffBegun(run[..|run| - 1], t);
      assert run == run[..|run| - 1] + [run[|run| - 1]];
    }
  }

  lemma MessageKeeps(w: World, m: Message, t: TaskId, heard: seq<Message>)
    requires m.requestId == Some(t) && Known(w, t, heard)
    ensures Known(Step(w, Receive(m)), t, if t in w.phases then heard + [m] else heard)
  {
    hide Responses, Record;
    ResponsesGrow(heard, m);
    if t in w.phases && Live(w.phases[t]) {
      match w.phases[t]
      case Holding(Sync, got) => assert (heard + [m])[1..] == heard[1..] + [m];
      case _ =>
    }
  }

  /** An event that concerns another id leaves the entries of this one alone. */
  lemma OthersKeep(w: World, e: Event, t: TaskId)
    requires Enabled(w, e) && (if e.Receive? then !About(e, t) else e.t != t)
    ensures var s, after := w.state, Step(w, e).state;
            && (t in after.pending <==> t in s.pending) && (t in s.pending ==> after.pending[t] == s.pending[t])
            && (t in after.syncQueues <==> t in s.syncQueues)
            && (t in s.syncQueues ==> after.syncQueues[t] == s.syncQueues[t])
            && (t in after.asyncQueues <==> t in s.asyncQueues)
            && (t in s.asyncQueues ==> after.asyncQueues[t] == s.asyncQueues[t])
            && (t in Step(w, e).phases <==> t in w.phases)
            && (t in w.phases ==> Step(w, e).phases[t] == w.phases[t])
  {}

  lemma OwnStepKeeps(w: World, e: Event, t: TaskId, heard: seq<Message>)
    requires Enabled(w, e) && !e.Receive? && e.t == t && Known(w, t, heard)
    ensures Known(Step(w, e), t, if e == Begin(t) then [] else heard)
  {
    hide Noted;
  }

  /** One event keeps what is known about every id. */
  lemma StepKeeps(w: World, e: Event, t: TaskId, heard: seq<Message>)
    requires Enabled(w, e) && Known(w, t, heard)
    ensures Known(Step(w, e), t,
                  if e == Begin(t) then []
                  else if About(e, t) && t in w.phases then heard + [e.m] else heard)
  {
    hide Responses, Record, Step;
    if e.Receive? && e.m.requestId == Some(t) {
      MessageKeeps(w, e.m, t, heard);
    } else if !e.Receive? && e.t == t {
      OwnStepKeeps(w, e, t, heard);
    } else {
      OthersKeep(w, e, t);
    }
  }

  /** In every run, every id is known by its history. */
  lemma {:induction false} RunKnown(run: seq<Event>, t: TaskId)
    requires IsRun(run)
    ensures Known(After(run), t, Heard(run, t))
  {
    if run != [] {
      var before, e := run[..|run| - 1], run[|run| - 1];
      RunKnown(before, t);
      IssuedIffBegun(before, t);
      StepKeeps(After(before), e, t, Heard(before, t));
    }
  }

  // ---------------------------------------------------------------- the results

  ghost function Issued(run: seq<Event>): set<TaskId>
    requires IsRun(run)
  {
    After(run).phases.Keys
  }

  ghost function LiveIds(run: seq<Event>): set<TaskId>
    requires IsRun(run)
  {
    set t | t in After(run).phases && Live(After(run).phases[t])
  }

  ghost function FinishedIds(run: seq<Event>): set<TaskId>
    requires IsRun(run)
  {
    set t | t in After(run).phases && After(run).phases[t].Finished?
  }

  ghost function FailedIds(run: seq<Event>): set<TaskId>
    requires IsRun(run)
  {
    set t | t in After(run).phases && After(run).phases[t].SendFailed?
  }

  /** The keys of the three maps in every reachable state. */
  lemma RunInvariant(run: seq<Event>)
    requires IsRun(run)
    ensures var s := After(run).state;
            && s.pending.Keys == s.syncQueues.Keys == LiveIds(run)
            && s.asyncQueues.Keys == LiveIds(run) + FailedIds(run)
  {
    var w := After(run);
    forall t: TaskId
      ensures t in w.state.pending <==> t in LiveIds(run)
      ensures t in w.state.syncQueues <==> t in LiveIds(run)
      ensures t in w.state.asyncQueues <==> t in LiveIds(run) + FailedIds(run)
    {
      RunKnown(run, t);
    }
  }

  /** Every id ever issued is live, finished or send-failed, and only one of these. */
  lemma IssuedIdsPartition(run: seq<Event>)
    requires IsRun(run)
    ensures Issued(run) == LiveIds(run) + FinishedIds(run) + FailedIds(run)
    ensures LiveIds(run) !! FinishedIds(run) !! FailedIds(run)
    ensures forall t :: t in Issued(run) <==> Begin(t) in run
  {
    forall t: TaskId ensures t in Issued(run) <==> Begin(t) in run {
      IssuedIffBegun(run, t);
    }
  }

  /** The queue of size one never overfills, not even for an id whose send failed. */
  lemma {:induction false} AsyncQueueSize(run: seq<Event>, t: TaskId)
    requires IsRun(run)
    ensures t in After(run).state.asyncQueues ==> |After(run).state.asyncQueues[t]| <= 1
  {
    if run != [] {
      AsyncQueueSize(run[..|run| - 1], t);
    }
  }

  /** Neither a late message about a finished or failed id nor one about an unknown id changes anything. */
  lemma LateMessageChangesNothing(run: seq<Event>, m: Message)
    requires IsRun(run)
    requires m.requestId.None? || m.requestId.value !in LiveIds(run)
    ensures Handle(After(run).state, m) == After(run).state
  {
    RunInvariant(run);
  }

  /** A message about one id leaves the entries of every other id alone. */
  lemma MessagesStaySeparate(s: State, m: Message, t: TaskId)
    requires m.requestId != Some(t)
    ensures var s' := Handle(s, m);
            && (t in s'.pending <==> t in s.pending) && (t in s.pending ==> s'.pending[t] == s.pending[t])
            && (forall k: Kind :: QueueOf(s', t, k) == QueueOf(s, t, k))
  {}

  lemma {:induction false} HeardCarryId(run: seq<Event>, t: TaskId)
    ensures forall m :: m in Heard(run, t) ==> m.requestId == Some(t)
  {
    if run != [] {
      HeardCarryId(run[..|run| - 1], t);
    }
  }

  lemma {:induction false} ResponsesAre(ms: seq<Message>)
    ensures forall m :: m in Responses(ms) <==> m in ms && m.Response?
  {
    if ms != [] {
      ResponsesAre(ms[..|ms| - 1]);
      assert ms == ms[..|ms| - 1] + [ms[|ms| - 1]];
    }
  }

  /** A non-None result of `wait_for_task_async(t)` is the first response about t since its registration. */
  lemma AsyncResultIsFirstResponse(run: seq<Event>, t: TaskId, m: Message)
    requires IsRun(run) && t in After(run).phases
    requires After(run).phases[t] == Finished(Async, Some(m))
    ensures Responses(Heard(run, t)) != [] && m == Responses(Heard(run, t))[0]
    ensures m.Response? && m.requestId == Some(t)
  {
    RunKnown(run, t);
    ResponsesAre(Heard(run, t));
    HeardCarryId(run, t);
    assert m in Responses(Heard(run, t));
  }

  /**
  A non-None result of `wait_for_task(t)` is the first message, response or error, about t since its registration.
  */
  lemma SyncResultIsFirstMessage(run: seq<Event>, t: TaskId, m: Message)
    requires IsRun(run) && t in After(run).phases
    requires After(run).phases[t] == Finished(Sync, Some(m))
    ensures Heard(run, t) != [] && m == Heard(run, t)[0] && m.requestId == Some(t)
  {
    RunKnown(run, t);
    HeardCarryId(run, t);
  }

  /** A waiter can complete its get iff a message it may see has been handled: an error never wakes an async waiter. */
  lemma WaiterWakesIffHeard(run: seq<Event>, t: TaskId)
    requires IsRun(run) && t in After(run).phases && After(run).phases[t].Waiting?
    ensures var kind, heard := After(run).phases[t].kind, Heard(run, t);
            Enabled(After(run), Take(t)) <==> if kind.Sync? then heard != [] else exists m :: m in heard && m.Response?
  {
    RunKnown(run, t);
    ResponsesAre(Heard(run, t));
    var rs := Responses(Heard(run, t));
    assert rs != [] ==> rs[0] in rs;
  }

  /** A wait on a returned id always gets to its queue. */
  lemma StartWaitWaits(run: seq<Event>, t: TaskId, kind: Kind)
    requires IsRun(run) && Enabled(After(run), StartWait(t, kind))
    ensures Step(After(run), StartWait(t, kind)).phases[t] == Waiting(kind)
  {
    RunKnown(run, t);
  }

  /** What the phase of an id says of the get of its waiter. */
  ghost predicate TookIff(w: World, t: TaskId, took: bool) {
    if t !in w.phases then !took
    else match w.phases[t]
      case Holding(_, _) => took
      case Finished(_, answer) => answer.Some? <==> took
      case _ => !took
  }

  /** In every run a wait has returned a message exactly if its get has completed. */
  lemma {:induction false} TakenIff(run: seq<Event>, t: TaskId)
    requires IsRun(run)
    ensures TookIff(After(run), t, Take(t) in run)
  {
    if run != [] {
      var before, e := run[..|run| - 1], run[|run| - 1];
      hide Step;
      TakenIff(before, t);
      assert run == before + [e];
      if !e.Receive? && e.t == t {
        RunKnown(before, t);
        TookStep(After(before), e, t, Take(t) in before, Heard(before, t));
      } else {
        OtherTook(After(before), e, t, Take(t) in before);
      }
    }
  }

  lemma TookStep(w: World, e: Event, t: TaskId, took: bool, heard: seq<Message>)
    requires Enabled(w, e) && !e.Receive? && e.t == t && Known(w, t, heard) && TookIff(w, t, took)
    ensures TookIff(Step(w, e), t, took || e == Take(t))
  {
    hide Record, Responses, Visible;
  }

  lemma OtherTook(w: World, e: Event, t: TaskId, took: bool)
    requires Enabled(w, e) && (e.Receive? || e.t != t) && TookIff(w, t, took)
    ensures TookIff(Step(w, e), t, took)
  {
    hide Handle, Register, DropFailed, Forget;
  }

  /**
  What a wait has returned, in every run: None iff its get did not complete, otherwise the first message about the id
  that its kind of wait may see - any message for a blocking wait, the first response for an async one.
  */
  lemma WaitReturns(run: seq<Event>, t: TaskId)
    requires IsRun(run) && t in After(run).phases && After(run).phases[t].Finished?
    ensures var p, heard := After(run).phases[t], Heard(run, t);
            && (p.answer == None <==> Take(t) !in run)
            && (Take(t) in run && p.kind.Sync? ==> heard != [] && p.answer == Some(heard[0]))
            && (Take(t) in run && p.kind.Async? ==>
                  Responses(heard) != [] && p.answer == Some(Responses(heard)[0]))
  {
    TakenIff(run, t);
    RunKnown(run, t);
  }

  /** From any reachable state: a send, a wait, and a message the wait may see. The wait returns the message. */
  lemma WaitDelivers(run: seq<Event>, t: TaskId, kind: Kind, m: Message)
    requires IsRun(run) && t !in After(run).phases
    requires m.requestId == Some(t) && (kind.Sync? || m.Response?)
    ensures var r := run + [Begin(t)] + [SendOk(t)] + [StartWait(t, kind)] + [Receive(m)] + [Take(t)] + [Finish(t)];
            IsRun(r) && After(r).phases[t] == Finished(kind, Some(m))
  {
    hide After, Handle, Heard;
    var a := run + [Begin(t)] + [SendOk(t)] + [StartWait(t, kind)];
    Sends(run, t, kind);
    Extends(a, Receive(m));
    HeardNext(a, Receive(m), t);
    WakesThen(a + [Receive(m)], t, kind, m);
  }

  lemma Extends(run: seq<Event>, e: Event)
    requires IsRun(run) && Enabled(After(run), e)
    ensures IsRun(run + [e]) && After(run + [e]) == Step(After(run), e)
  {
    assert (run + [e])[..|run|] == run;
  }

  lemma HeardNext(run: seq<Event>, e: Event, t: TaskId)
    ensures Heard(run + [e], t)
         == if e == Begin(t) then []
            else if About(e, t) && Begin(t) in run then Heard(run, t) + [e.m] else Heard(run, t)
  {
    assert (run + [e])[..|run|] == run;
  }

  lemma Sends(run: seq<Event>, t: TaskId, kind: Kind)
    requires IsRun(run) && t !in After(run).phases
    ensures var a := run + [Begin(t)] + [SendOk(t)] + [StartWait(t, kind)];
            && IsRun(a) && t in After(a).phases && After(a).phases[t] == Waiting(kind)
            && Begin(t) in a && Heard(a, t) == []
  {
    hide After, Heard;
    Extends(run, Begin(t));
    HeardNext(run, Begin(t), t);
    Extends(run + [Begin(t)], SendOk(t));
    HeardNext(run + [Begin(t)], SendOk(t), t);
    StartWaitWaits(run + [Begin(t)] + [SendOk(t)], t, kind);
    Extends(run + [Begin(t)] + [SendOk(t)], StartWait(t, kind));
    HeardNext(run + [Begin(t)] + [SendOk(t)], StartWait(t, kind), t);
  }

  lemma WakesThen(run: seq<Event>, t: TaskId, kind: Kind, m: Message)
    requires IsRun(run) && t in After(run).phases && After(run).phases[t] == Waiting(kind)
    requires Heard(run, t) == [m] && (kind.Sync? || m.Response?)
    ensures var r := run + [Take(t)] + [Finish(t)]; IsRun(r) && After(r).phases[t] == Finished(kind, Some(m))
  {
    hide After, Heard;
    WaiterWakesIffHeard(run, t);
    assert m in Heard(run, t);
    Extends(run, Take(t));
    HeardNext(run, Take(t), t);
    Extends(run + [Take(t)], Finish(t));
    HeardNext(run + [Take(t)], Finish(t), t);
    var r := run + [Take(t)] + [Finish(t)];
    WaitReturns(r, t);
    assert Take(t) in r;
    ResponsesGrow([], m);
    assert [] + [m] == [m];
  }

  /** From any reachable state: a send that fails, and a wait that times out with None. */
  lemma FailsAndTimesOut(run: seq<Event>, t: TaskId, kind: Kind)
    requires IsRun(run) && t !in After(run).phases
    ensures var f := run + [Begin(t)] + [SendError(t)]; IsRun(f) && After(f).phases[t] == SendFailed
    ensures var r := run + [Begin(t)] + [SendOk(t)] + [StartWait(t, kind)] + [Finish(t)];
            IsRun(r) && After(r).phases[t] == Finished(kind, None)
  {
    hide After, Heard;
    Extends(run, Begin(t));
    Extends(run + [Begin(t)], SendError(t));
    Sends(run, t, kind);
    Extends(run + [Begin(t)] + [SendOk(t)] + [StartWait(t, kind)], Finish(t));
  }

  /** The messages about `t` in a stretch of a run, oldest first. */
  function MessagesAbout(run: seq<Event>, t: TaskId): seq<Message> {
    if run == [] then []
    else (if About(run[0], t) then [run[0].m] else []) + MessagesAbout(run[1..], t)
  }

  /** What was heard about an id is what was received about it after its only registration. */
  lemma {:induction false} HeardSplits(before: seq<Event>, after: seq<Event>, t: TaskId)
    requires Begin(t) !in after
    ensures Heard(before + [Begin(t)] + after, t) == MessagesAbout(after, t)
  {
    hide MessagesAbout, Heard, About;
    AboutNone(t);
    if after == [] {
      assert before + [Begin(t)] + [] == before + [Begin(t)];
      HeardNext(before, Begin(t), t);
    } else {
      var n := |after| - 1;
      HeardSplits(before, after[..n], t);
      var run := before + [Begin(t)] + after[..n];
      assert before + [Begin(t)] + after == run + [after[n]];
      assert run[|before|] == Begin(t) && after[n] != Begin(t);
      HeardNext(run, after[n], t);
      AboutNext(after[..n], after[n], t);
      assert after == after[..n] + [after[n]];
    }
  }

  lemma {:induction false} AboutNext(run: seq<Event>, e: Event, t: TaskId)
    ensures MessagesAbout(run + [e], t) == MessagesAbout(run, t) + (if About(e, t) then [e.m] else [])
  {
    hide MessagesAbout, About;
    AboutNone(t);
    if run == [] {
      AboutFirst(e, [], t);
      assert [] + [e] == [e] + [];
    } else {
      AboutFirst(run[0], run[1..], t);
      AboutFirst(run[0], run[1..] + [e], t);
      AboutNext(run[1..], e, t);
      assert run == [run[0]] + run[1..];
      assert run + [e] == [run[0]] + (run[1..] + [e]);
    }
  }

  lemma AboutNone(t: TaskId)
    ensures MessagesAbout([], t) == []
  {}

  lemma AboutFirst(e: Event, rest: seq<Event>, t: TaskId)
    ensures MessagesAbout([e] + rest, t) == (if About(e, t) then [e.m] else []) + MessagesAbout(rest, t)
  {
    assert ([e] + rest)[1..] == rest;
  }

  /** A send that fails always finds the two entries it deletes, and a wait on a returned id always finds its queue. */
  lemma EntriesArePresent(run: seq<Event>, t: TaskId)
    requires IsRun(run) && t in After(run).phases
    ensures Enabled(After(run), SendError(t)) ==> t in After(run).state.pending && t in After(run).state.syncQueues
    ensures After(run).phases[t].Sent? ==> t in After(run).state.syncQueues && t in After(run).state.asyncQueues
  {
    RunKnown(run, t);
  }

  /** In every run the record of a pending task is completed exactly if a message about it was handled. */
  lemma CompletedIffHeard(run: seq<Event>, t: TaskId)
    requires IsRun(run) && t in After(run).state.pending
    ensures After(run).state.pending[t].completed <==> Heard(run, t) != []
  {
    RunKnown(run, t);
    RecordCompleted(Heard(run, t));
  }

  lemma RecordCompleted(ms: seq<Message>)
    ensures Record(ms).completed <==> ms != []
  {}

  /** In every run the stored record of a pending task holds the last error field and the last response's result. */
  lemma RecordTells(run: seq<Event>, t: TaskId)
    requires IsRun(run) && t in After(run).state.pending
    ensures var record, heard := After(run).state.pending[t], Heard(run, t);
            var rs := Responses(heard);
            && record.error == (if heard == [] then None else heard[|heard| - 1].error)
            && (rs == [] ==> record.result == None)
            && (rs != [] ==> rs[|rs| - 1].Response? && record.result == rs[|rs| - 1].result)
  {
    hide After;
    RunKnown(run, t);
    ReplayTells(Heard(run, t));
    ResponsesAre(Heard(run, t));
  }

  lemma {:induction false} ReplayTells(ms: seq<Message>)
    ensures Record(ms).error == if ms == [] then None else ms[|ms| - 1].error
    ensures var rs := Responses(ms);
            (forall m :: m in rs ==> m.Response?)
            && Record(ms).result == if rs == [] then None else rs[|rs| - 1].result
  {
    if ms != [] {
      ReplayTells(ms[..|ms| - 1]);
    }
  }

  // ---------------------------------------------------------------- the caller of the async wait

  /** What `AgentSnmpTransport._send_and_wait` makes of the wait's result. */
  datatype Delivery = NoData | Payload(data: Option<string>) | AgentError

  function SendAndWait(answer: Option<Message>): Delivery {
    match answer
    case None => NoData
    case Some(Response(_, result, _)) => Payload(result)
    case Some(ErrorMsg(_, _)) => AgentError
  }

  /** The result that the first response among the messages carries. */
  function FirstResult(ms: seq<Message>): Option<string> {
    if ms == [] then None else if ms[0].Response? then ms[0].result else FirstResult(ms[1..])
  }

  lemma {:induction false} FirstResultIs(ms: seq<Message>)
    ensures Responses(ms) != [] ==> Responses(ms)[0].Response? && FirstResult(ms) == Responses(ms)[0].result
    ensures Responses(ms) == [] ==> FirstResult(ms) == None
  {
    if ms != [] {
      FirstResultIs(ms[1..]);
      ResponsesFront(ms);
    }
  }

  lemma {:induction false} ResponsesFront(ms: seq<Message>)
    requires ms != []
    ensures Responses(ms) == (if ms[0].Response? then [ms[0]] else []) + Responses(ms[1..])
  {
    var n := |ms| - 1;
    if n > 0 {
      ResponsesFront(ms[..n]);
      assert ms[..n][1..] == ms[1..][..n - 1];
    }
  }

  /**
  The caller gets the result of the first response if the wait's get completed, and nothing otherwise. The error branch
  is dead: an agent's error reply reaches the transport only as a timeout.
  */
  lemma AgentErrorNeverDelivered(run: seq<Event>, t: TaskId)
    requires IsRun(run) && t in After(run).phases
    requires After(run).phases[t].Finished? && After(run).phases[t].kind.Async?
    ensures SendAndWait(After(run).phases[t].answer) != AgentError
    ensures Responses(Heard(run, t)) == [] ==> SendAndWait(After(run).phases[t].answer) == NoData
    ensures SendAndWait(After(run).phases[t].answer)
         == if Take(t) in run then Payload(FirstResult(Heard(run, t))) else NoData
  {
    RunKnown(run, t);
    WaitReturns(run, t);
    FirstResultIs(Heard(run, t));
    var answer := After(run).phases[t].answer;
    if answer.Some? {
      AsyncResultIsFirstResponse(run, t, answer.value);
    }
  }
}

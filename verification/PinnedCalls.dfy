/**
  Calls that pin a plugin runtime while reloads swap the current one. Every atomic step of a
  call, of a reload and of reference counting is one action; a run is any interleaving.
 */
module PinnedCalls {
  import opened Common
  import opened RuntimeRegistry

  type RuntimeId = nat
  type CallId = nat

  const TWO_TO_64: nat := 0x1_0000_0000_0000_0000

  datatype Phase =
    | Selected       // holds the runtime it loaded; no correlation id yet
    | Identified     // has its correlation id; the pre hook has not run
    | Waiting        // call state kept for the post hook; the backend call is out
    | Detached       // no call state; the backend call is out
    | Answered       // the response went through
    | Abandoned      // denied, or failed on the way

  /**
    `ticket` counts the ids handed out before this call's own; `tracked` says that the in-flight map holds a clone of
    the call state; `handlers` are the notifications being handled, each with a clone of its own.
   */
  datatype Call = Call(
    operation: Operation,
    runtime: RuntimeId,
    ticket: Option<nat>,
    phase: Phase,
    tracked: bool,
    handlers: nat)

  /** A pre hook's run keeps its answer. */
  datatype HookKind = Pre(accepted: bool) | Notify | Post

  datatype HookRun = HookRun(call: CallId, runtime: RuntimeId, correlation: nat, kind: HookKind)

  datatype State = State(
    current: Option<RuntimeId>,
    runtimes: map<RuntimeId, PluginRuntime>,
    references: map<RuntimeId, nat>,
    released: seq<RuntimeId>,
    correlation: nat,
    issued: nat,
    calls: map<CallId, Call>,
    log: seq<HookRun>)

  datatype CallStep =
    | Identify | RunPre(accepted: bool)
    | Track | Untrack | BeginNotify | RunNotify | EndNotify
    | Answer | Abandon

  datatype Action =
    | Install(id: RuntimeId, runtime: PluginRuntime)
    | InstallFailed
    | Select(call: CallId, operation: Operation)
    | Advance(call: CallId, step: CallStep)

  /** The registry starts with the default runtime and no call. */
  function Init(): State {
    State(Some(0), map[0 := DefaultRuntime], map[0 := 1], [], IdOf(0), 0, map[], [])
  }

  /** `fetch_add` on an atomic 64-bit counter that starts at one. */
  function IdOf(ticket: nat): nat { (1 + ticket) % TWO_TO_64 }

  // ----- One call -----

  /** What one step does to its call, and the hook it runs, or none if it is not enabled. */
  function CallNext(hooks: HookPair, call: Call, step: CallStep, issued: nat): Option<(Call, Option<HookKind>)> {
    match step
    case Identify =>
      if call.phase != Selected then None
      else if !hooks.pre && !hooks.post then Some((call.(phase := Detached), None))
      else Some((call.(ticket := Some(issued), phase := Identified), None))
    case RunPre(accepted) =>
      if call.phase != Identified then None
      else if hooks.pre && !accepted then Some((call.(phase := Abandoned), Some(Pre(false))))
      else Some((call.(phase := if hooks.post then Waiting else Detached), if hooks.pre then Some(Pre(true)) else None))
    case Track =>
      if call.phase != Waiting || call.operation != Tool || call.tracked then None
      else Some((call.(tracked := true), None))
    case Untrack => if !call.tracked then None else Some((call.(tracked := false), None))
    case BeginNotify => if !call.tracked then None else Some((call.(handlers := call.handlers + 1), None))
    case RunNotify => if call.handlers == 0 then None else Some((call, Some(Notify)))
    case EndNotify => if call.handlers == 0 then None else Some((call.(handlers := call.handlers - 1), None))
    case Answer =>
      // A tool call stops tracking before it looks at the response.
      if call.phase == Waiting && !call.tracked then Some((call.(phase := Answered), Some(Post)))
      else if call.phase == Detached then Some((call.(phase := Answered), None))
      else None
    case Abandon =>
      if call.phase == Answered || call.phase == Abandoned then None else Some((call.(phase := Abandoned), None))
  }

  function Extend<T>(xs: seq<T>, x: Option<T>): seq<T> { if x.Some? then xs + [x.value] else xs }

  /** The call's own hold keeps the runtime, or its call state in the in-flight map or with a notification handler. */
  predicate Pins(call: Call, id: RuntimeId) {
    && call.runtime == id
    && (call.phase == Selected || call.phase == Identified || call.phase == Waiting
        || call.tracked || call.handlers > 0)
  }

  /** A declared pre hook ran first, and only then, and accepted the call. */
  predicate PreFirst(hooks: HookPair, trace: seq<HookKind>) {
    && (hooks.pre ==> trace != [] && trace[0] == Pre(true))
    && forall k | 0 <= k < |trace| :: trace[k].Pre? ==> k == 0 && hooks.pre
  }

  /** The hooks a call has run, in order, fit the hooks of its runtime and the point it has reached. */
  predicate CallFits(hooks: HookPair, call: Call, trace: seq<HookKind>) {
    && (call.ticket.None? ==> trace == [])
    && ((call.tracked || call.handlers > 0 || Notify in trace || Post in trace) ==> hooks.post)
    && (call.tracked ==> call.phase == Waiting || call.phase == Abandoned)
    && (call.handlers > 0 ==> call.phase == Waiting || call.phase == Answered || call.phase == Abandoned)
    && (call.tracked || call.handlers > 0 ==> PreFirst(hooks, trace) && call.ticket.Some?)
    && match call.phase
       case Selected => trace == [] && call.ticket.None?
       case Identified => trace == [] && call.ticket.Some?
       case Waiting => hooks.post && call.ticket.Some? && PreFirst(hooks, trace) && multiset(trace)[Post] == 0
       case Detached => !hooks.post && PreFirst(hooks, trace)
       case Answered => PreFirst(hooks, trace) && multiset(trace)[Post] == if hooks.post then 1 else 0
       case Abandoned =>
         multiset(trace)[Post] == 0 && (trace == [] || trace == [Pre(false)] || PreFirst(hooks, trace))
  }

  lemma CallNextFits(hooks: HookPair, call: Call, step: CallStep, issued: nat, trace: seq<HookKind>)
    requires CallFits(hooks, call, trace) && CallNext(hooks, call, step, issued).Some?
    ensures var (next, ran) := CallNext(hooks, call, step, issued).value; CallFits(hooks, next, Extend(trace, ran))
  {
  }

  /** A step changes neither operation nor runtime, takes a ticket at most once, and never pins again. */
  lemma CallNextKeeps(hooks: HookPair, call: Call, step: CallStep, issued: nat, trace: seq<HookKind>)
    requires CallFits(hooks, call, trace) && CallNext(hooks, call, step, issued).Some?
    ensures var (next, ran) := CallNext(hooks, call, step, issued).value;
            && next.runtime == call.runtime && next.operation == call.operation
            && (Pins(next, call.runtime) ==> Pins(call, call.runtime))
            && (next.ticket == call.ticket || (call.ticket.None? && next.ticket == Some(issued)))
            && (ran.Some? ==> next.ticket.Some?)
  {
  }

  // ----- Reference counting -----

  function References(s: State, id: RuntimeId): nat { if id in s.references then s.references[id] else 0 }

  function Retain(s: State, id: RuntimeId): State {
    s.(references := s.references[id := References(s, id) + 1])
  }

  /** Dropping the last reference releases the runtime. */
  function Drop(s: State, id: RuntimeId): State {
    if References(s, id) == 0 then s
    else
      s.(references := s.references[id := References(s, id) - 1],
         released := if References(s, id) == 1 then s.released + [id] else s.released)
  }

  /** Stores the call's next state; a call that stops pinning drops its reference. */
  function SetCall(s: State, c: CallId, next: Call): State
    requires c in s.calls
  {
    var updated := s.(calls := s.calls[c := next]);
    var id := s.calls[c].runtime;
    if Pins(s.calls[c], id) && !Pins(next, id) then Drop(updated, id) else updated
  }

  /** The swap drops the registry's reference to the old runtime. */
  function DropCurrent(s: State): (r: State)
    ensures r.current.None? && r.runtimes == s.runtimes && r.calls == s.calls && r.log == s.log
    ensures r.issued == s.issued && r.correlation == s.correlation
  {
    if s.current.None? then s else Drop(s, s.current.value).(current := None)
  }

  function SetCurrent(s: State, id: RuntimeId, runtime: PluginRuntime): State {
    s.(current := Some(id), runtimes := s.runtimes[id := runtime], references := s.references[id := 1])
  }

  function SelectCall(s: State, c: CallId, id: RuntimeId, operation: Operation): State {
    Retain(s, id).(calls := s.calls[c := Call(operation, id, None, Selected, false, 0)])
  }

  function CorrelationOf(call: Call): nat { if call.ticket.Some? then IdOf(call.ticket.value) else 0 }

  /** Records a hook run of a call, under the call's id. */
  function Record(s: State, c: CallId, call: Call, ran: Option<HookKind>): State {
    if ran.None? then s else s.(log := s.log + [HookRun(c, call.runtime, CorrelationOf(call), ran.value)])
  }

  function TakeTicket(s: State, before: Call, after: Call): State {
    if before.ticket == after.ticket then s
    else s.(correlation := (s.correlation + 1) % TWO_TO_64, issued := s.issued + 1)
  }

  // ----- Invariants -----

  function Pinners(s: State, id: RuntimeId): set<CallId> { set c | c in s.calls && Pins(s.calls[c], id) }

  function Holders(s: State, id: RuntimeId): nat { |Pinners(s, id)| + if s.current == Some(id) then 1 else 0 }

  predicate Counted(s: State) {
    && s.references.Keys == s.runtimes.Keys
    && (s.current.Some? ==> s.current.value in s.runtimes)
    && (forall c | c in s.calls :: s.calls[c].runtime in s.runtimes)
    && forall id | id in s.references :: s.references[id] == Holders(s, id)
  }

  /** The release list holds exactly the runtimes that nothing holds any more, each once. */
  ghost predicate ReleasedOnce(s: State) {
    && (forall i, j | 0 <= i < j < |s.released| :: s.released[i] != s.released[j])
    && forall id :: id in s.released <==> id in s.references && s.references[id] == 0
  }

  predicate Ticketed(s: State) {
    && s.correlation == IdOf(s.issued)
    && (forall c | c in s.calls && s.calls[c].ticket.Some? :: s.calls[c].ticket.value < s.issued)
    && forall c, d | c in s.calls && d in s.calls && c != d && s.calls[c].ticket.Some? && s.calls[d].ticket.Some? ::
         s.calls[c].ticket != s.calls[d].ticket
  }

  /** Every logged hook ran on its call's runtime under its call's id. */
  predicate LogFits(s: State) {
    forall k {:trigger HookFits(s, s.log[k])} | 0 <= k < |s.log| :: HookFits(s, s.log[k])
  }

  predicate HookFits(s: State, run: HookRun) {
    && run.call in s.calls && s.calls[run.call].runtime == run.runtime
    && s.calls[run.call].ticket.Some?
    && run.correlation == IdOf(s.calls[run.call].ticket.value)
  }

  /** The hooks that one call has run, in order. */
  function Trace(log: seq<HookRun>, c: CallId): seq<HookKind> {
    if log == [] then []
    else Trace(log[..|log| - 1], c) + if log[|log| - 1].call == c then [log[|log| - 1].kind] else []
  }

  /** The hooks of the call's operation on the call's runtime. */
  function HooksOf(s: State, c: CallId): HookPair
    requires c in s.calls
  {
    if s.calls[c].runtime in s.runtimes then s.runtimes[s.calls[c].runtime].Hooks(s.calls[c].operation)
    else HookPair(false, false)
  }

  predicate CallsFit(s: State) {
    forall c {:trigger CallFits(HooksOf(s, c), s.calls[c], Trace(s.log, c))} | c in s.calls ::
      CallFits(HooksOf(s, c), s.calls[c], Trace(s.log, c))
  }

  ghost predicate Inv(s: State) {
    Counted(s) && ReleasedOnce(s) && Ticketed(s) && LogFits(s) && CallsFit(s)
  }

  // ----- Steps -----

  /** The state after an action, or none if it is not enabled. */
  function Step(s: State, a: Action): Option<State> {
    match a
    case Install(id, runtime) =>
      if id in s.runtimes then None else Some(SetCurrent(DropCurrent(s), id, runtime))
    case InstallFailed => Some(DropCurrent(s))
    case Select(c, operation) =>
      if c in s.calls || s.current.None? then None
      else Some(SelectCall(s, c, s.current.value, operation))
    case Advance(c, step) =>
      if c !in s.calls then None
      else
        match CallNext(HooksOf(s, c), s.calls[c], step, s.issued)
        case None => None
        case Some((next, ran)) => Some(SetCall(Record(TakeTicket(s, s.calls[c], next), c, next, ran), c, next))
  }

  function Run(actions: seq<Action>): Option<State> {
    if actions == [] then Some(Init())
    else
      match Run(actions[..|actions| - 1])
      case None => None
      case Some(s) => Step(s, actions[|actions| - 1])
  }

  // ----- Every step keeps the invariant -----

  lemma PinnedIsPositive(s: State, c: CallId)
    requires Counted(s) && c in s.calls && Pins(s.calls[c], s.calls[c].runtime)
    ensures s.references[s.calls[c].runtime] > 0
  {
    assert c in Pinners(s, s.calls[c].runtime);
  }

  /** Lowering one count by one, where it belongs, keeps the release list exact. */
  lemma DropReleases(s: State, id: RuntimeId)
    requires ReleasedOnce(s) && References(s, id) > 0
    ensures ReleasedOnce(Drop(s, id))
    ensures Drop(s, id).references == s.references[id := s.references[id] - 1]
  {
    assert id !in s.released;
  }

  lemma DropCurrentKeeps(s: State)
    requires Counted(s) && ReleasedOnce(s)
    ensures Counted(DropCurrent(s)) && ReleasedOnce(DropCurrent(s))
  {
    if s.current.Some? {
      var id := s.current.value;
      assert s.references[id] == Holders(s, id);
      DropReleases(s, id);
      forall i | i in DropCurrent(s).references ensures DropCurrent(s).references[i] == Holders(DropCurrent(s), i) {
        assert Pinners(DropCurrent(s), i) == Pinners(s, i);
      }
    }
  }

  lemma SetCurrentKeeps(s: State, id: RuntimeId, runtime: PluginRuntime)
    requires Counted(s) && ReleasedOnce(s) && s.current.None? && id !in s.runtimes
    ensures Counted(SetCurrent(s, id, runtime)) && ReleasedOnce(SetCurrent(s, id, runtime))
  {
    var next := SetCurrent(s, id, runtime);
    forall i | i in next.references ensures next.references[i] == Holders(next, i) {
      assert Pinners(next, i) == Pinners(s, i);
      if i == id {
        assert Pinners(s, id) == {};
      }
    }
  }

  lemma SelectKeeps(s: State, c: CallId, id: RuntimeId, operation: Operation)
    requires Counted(s) && ReleasedOnce(s) && c !in s.calls && s.current == Some(id)
    ensures Counted(SelectCall(s, c, id, operation)) && ReleasedOnce(SelectCall(s, c, id, operation))
  {
    var next := SelectCall(s, c, id, operation);
    assert s.references[id] == Holders(s, id) > 0;
    SelectRetains(s, c, id, operation);
    forall i | i in next.references ensures next.references[i] == Holders(next, i) {
      PinnersAfterSelect(s, c, id, operation, i);
      assert s.references[i] == Holders(s, i);
    }
  }

  lemma SelectRetains(s: State, c: CallId, id: RuntimeId, operation: Operation)
    requires ReleasedOnce(s) && References(s, id) > 0
    ensures SelectCall(s, c, id, operation).references == s.references[id := s.references[id] + 1]
    ensures ReleasedOnce(SelectCall(s, c, id, operation))
  {
  }

  lemma PinnersAfterSelect(s: State, c: CallId, id: RuntimeId, operation: Operation, i: RuntimeId)
    requires c !in s.calls
    ensures |Pinners(SelectCall(s, c, id, operation), i)| == |Pinners(s, i)| + if i == id then 1 else 0
  {
    assert Pinners(SelectCall(s, c, id, operation), i) == Pinners(s, i) + if i == id then {c} else {};
  }

  lemma PinnersAfterSet(s: State, c: CallId, next: Call, i: RuntimeId)
    requires c in s.calls && next.runtime == s.calls[c].runtime
    requires Pins(next, next.runtime) ==> Pins(s.calls[c], next.runtime)
    ensures var dropped := Pins(s.calls[c], i) && !Pins(next, i);
            |Pinners(SetCall(s, c, next), i)| == |Pinners(s, i)| - if dropped then 1 else 0
  {
    var dropped := Pins(s.calls[c], i) && !Pins(next, i);
    assert Pinners(SetCall(s, c, next), i) == Pinners(s, i) - if dropped then {c} else {};
    assert dropped ==> c in Pinners(s, i);
  }

  lemma SetCallKeeps(s: State, c: CallId, next: Call)
    requires Counted(s) && ReleasedOnce(s) && c in s.calls && next.runtime == s.calls[c].runtime
    requires Pins(next, next.runtime) ==> Pins(s.calls[c], next.runtime)
    ensures Counted(SetCall(s, c, next)) && ReleasedOnce(SetCall(s, c, next))
  {
    var id, after := next.runtime, SetCall(s, c, next);
    if Pins(s.calls[c], id) && !Pins(next, id) {
      PinnedIsPositive(s, c);
      DropReleases(s.(calls := s.calls[c := next]), id);
    }
    forall i | i in after.references ensures after.references[i] == Holders(after, i) {
      PinnersAfterSet(s, c, next, i);
      assert s.references[i] == Holders(s, i);
    }
  }

  lemma {:induction false} TraceOfCall(log: seq<HookRun>, entry: HookRun, c: CallId)
    ensures Trace(log + [entry], c) == Trace(log, c) + if entry.call == c then [entry.kind] else []
  {
    assert (log + [entry])[..|log|] == log;
  }

  lemma NextId(ticket: nat)
    ensures IdOf(ticket + 1) == (IdOf(ticket) + 1) % TWO_TO_64
  {
  }

  lemma {:induction false} NoTrace(log: seq<HookRun>, c: CallId)
    requires forall k | 0 <= k < |log| :: log[k].call != c
    ensures Trace(log, c) == []
  {
    if log != [] {
      NoTrace(log[..|log| - 1], c);
    }
  }

  /** What an advance does to the fields that reference counting leaves alone. */
  predicate Advanced(s: State, after: State, c: CallId, next: Call, ran: Option<HookKind>) {
    && c in s.calls
    && after.calls == s.calls[c := next] && after.runtimes == s.runtimes
    && after.log == (if ran.Some? then s.log + [HookRun(c, next.runtime, CorrelationOf(next), ran.value)] else s.log)
    && (if next.ticket == s.calls[c].ticket then after.issued == s.issued && after.correlation == s.correlation
        else after.issued == s.issued + 1 && after.correlation == (s.correlation + 1) % TWO_TO_64)
    && next.runtime == s.calls[c].runtime && next.operation == s.calls[c].operation
    && (next.ticket == s.calls[c].ticket || (s.calls[c].ticket.None? && next.ticket == Some(s.issued)))
    && (ran.Some? ==> next.ticket.Some?)
  }

  lemma AdvancedTicketed(s: State, after: State, c: CallId, next: Call, ran: Option<HookKind>)
    requires Advanced(s, after, c, next, ran) && Ticketed(s)
    ensures Ticketed(after)
  {
    NextId(s.issued);
  }

  lemma AdvancedLogFits(s: State, after: State, c: CallId, next: Call, ran: Option<HookKind>)
    requires Advanced(s, after, c, next, ran) && LogFits(s)
    ensures LogFits(after)
  {
    forall k | 0 <= k < |after.log| ensures HookFits(after, after.log[k]) {
      if k < |s.log| {
        assert HookFits(s, s.log[k]);
      }
    }
  }

  lemma AdvancedCallFits(s: State, after: State, c: CallId, next: Call, ran: Option<HookKind>, d: CallId)
    requires Advanced(s, after, c, next, ran) && d in s.calls
    requires CallFits(HooksOf(s, d), if d == c then next else s.calls[d],
                      if d == c then Extend(Trace(s.log, d), ran) else Trace(s.log, d))
    ensures CallFits(HooksOf(after, d), after.calls[d], Trace(after.log, d))
  {
    assert HooksOf(after, d) == HooksOf(s, d);
    assert Trace(after.log, d) == if d == c then Extend(Trace(s.log, d), ran) else Trace(s.log, d) by {
      if ran.Some? {
        TraceOfCall(s.log, HookRun(c, next.runtime, CorrelationOf(next), ran.value), d);
      }
    }
  }

  lemma AdvancedCallsFit(s: State, after: State, c: CallId, next: Call, ran: Option<HookKind>)
    requires Advanced(s, after, c, next, ran) && CallsFit(s)
    requires CallFits(HooksOf(s, c), next, Extend(Trace(s.log, c), ran))
    ensures CallsFit(after)
  {
    forall d | d in after.calls ensures CallFits(HooksOf(after, d), after.calls[d], Trace(after.log, d)) {
      AdvancedCallFits(s, after, c, next, ran, d);
    }
  }

  lemma AdvancedHeap(s: State, c: CallId, next: Call, ran: Option<HookKind>)
    requires Counted(s) && ReleasedOnce(s) && c in s.calls && next.runtime == s.calls[c].runtime
    requires Pins(next, next.runtime) ==> Pins(s.calls[c], next.runtime)
    ensures var after := SetCall(Record(TakeTicket(s, s.calls[c], next), c, next, ran), c, next);
            Counted(after) && ReleasedOnce(after)
  {
    var recorded := Record(TakeTicket(s, s.calls[c], next), c, next, ran);
    forall i | i in recorded.references ensures recorded.references[i] == Holders(recorded, i) {
      assert Pinners(recorded, i) == Pinners(s, i);
      assert s.references[i] == Holders(s, i);
    }
    SetCallKeeps(recorded, c, next);
  }

  lemma RecordedAdvances(s: State, c: CallId, next: Call, ran: Option<HookKind>)
    requires c in s.calls && next.runtime == s.calls[c].runtime && next.operation == s.calls[c].operation
    requires next.ticket == s.calls[c].ticket || (s.calls[c].ticket.None? && next.ticket == Some(s.issued))
    requires ran.Some? ==> next.ticket.Some?
    ensures Advanced(s, SetCall(Record(TakeTicket(s, s.calls[c], next), c, next, ran), c, next), c, next, ran)
  {
  }

  lemma AdvanceAdvances(s: State, c: CallId, step: CallStep)
    requires CallsFit(s) && c in s.calls && CallNext(HooksOf(s, c), s.calls[c], step, s.issued).Some?
    ensures var (next, ran) := CallNext(HooksOf(s, c), s.calls[c], step, s.issued).value;
            && CallFits(HooksOf(s, c), next, Extend(Trace(s.log, c), ran))
            && (Pins(next, next.runtime) ==> Pins(s.calls[c], next.runtime))
            && Advanced(s, Step(s, Advance(c, step)).value, c, next, ran)
  {
    var hooks, call, trace := HooksOf(s, c), s.calls[c], Trace(s.log, c);
    assert CallFits(hooks, call, trace);
    var (next, ran) := CallNext(hooks, call, step, s.issued).value;
    CallNextFits(hooks, call, step, s.issued, trace);
    CallNextKeeps(hooks, call, step, s.issued, trace);
    RecordedAdvances(s, c, next, ran);
  }

  lemma AdvanceKeeps(s: State, c: CallId, step: CallStep)
    requires Inv(s) && c in s.calls && CallNext(HooksOf(s, c), s.calls[c], step, s.issued).Some?
    ensures Inv(Step(s, Advance(c, step)).value)
  {
    var (next, ran) := CallNext(HooksOf(s, c), s.calls[c], step, s.issued).value;
    var after := Step(s, Advance(c, step)).value;
    AdvanceAdvances(s, c, step);
    AdvancedHeap(s, c, next, ran);
    AdvancedTicketed(s, after, c, next, ran);
    AdvancedLogFits(s, after, c, next, ran);
    AdvancedCallsFit(s, after, c, next, ran);
  }

  /** Adding a runtime leaves the calls and their log as they are. */
  lemma SameCallsFit(s: State, after: State)
    requires Counted(s) && CallsFit(s) && after.calls == s.calls && after.log == s.log
    requires forall id | id in s.runtimes :: id in after.runtimes && after.runtimes[id] == s.runtimes[id]
    requires LogFits(s) && Ticketed(s) && after.issued == s.issued && after.correlation == s.correlation
    ensures CallsFit(after) && LogFits(after) && Ticketed(after)
  {
    forall k | 0 <= k < |after.log| ensures HookFits(after, after.log[k]) {
      assert HookFits(s, s.log[k]);
    }
    forall c | c in after.calls ensures CallFits(HooksOf(after, c), after.calls[c], Trace(after.log, c)) {
      assert CallFits(HooksOf(s, c), s.calls[c], Trace(s.log, c));
      assert HooksOf(after, c) == HooksOf(s, c);
    }
  }

  lemma NewCallFits(s: State, c: CallId, id: RuntimeId, operation: Operation)
    requires CallsFit(s) && LogFits(s) && Ticketed(s) && c !in s.calls
    ensures CallsFit(SelectCall(s, c, id, operation)) && LogFits(SelectCall(s, c, id, operation))
    ensures Ticketed(SelectCall(s, c, id, operation))
  {
    var next := SelectCall(s, c, id, operation);
    forall k | 0 <= k < |s.log| ensures s.log[k].call != c && HookFits(next, s.log[k]) {
      assert HookFits(s, s.log[k]);
    }
    NoTrace(s.log, c);
    forall d | d in next.calls ensures CallFits(HooksOf(next, d), next.calls[d], Trace(next.log, d)) {
      if d != c {
        assert CallFits(HooksOf(s, d), s.calls[d], Trace(s.log, d));
        assert HooksOf(next, d) == HooksOf(s, d);
      }
    }
  }

  lemma InstallKeeps(s: State, id: RuntimeId, runtime: PluginRuntime)
    requires Inv(s) && id !in s.runtimes
    ensures Inv(Step(s, Install(id, runtime)).value)
  {
    var dropped := DropCurrent(s);
    DropCurrentKeeps(s);
    SetCurrentKeeps(dropped, id, runtime);
    var after := SetCurrent(dropped, id, runtime);
    assert after.calls == s.calls && after.log == s.log && after.runtimes == s.runtimes[id := runtime];
    SameCallsFit(s, after);
  }

  lemma InstallFailedKeeps(s: State)
    requires Inv(s)
    ensures Inv(Step(s, InstallFailed).value)
  {
    DropCurrentKeeps(s);
    SameCallsFit(s, DropCurrent(s));
  }

  lemma StepKeepsInv(s: State, a: Action)
    requires Inv(s) && Step(s, a).Some?
    ensures Inv(Step(s, a).value)
  {
    match a
    case Install(id, runtime) => InstallKeeps(s, id, runtime);
    case InstallFailed => InstallFailedKeeps(s);
    case Select(c, operation) =>
      SelectKeeps(s, c, s.current.value, operation);
      NewCallFits(s, c, s.current.value, operation);
    case Advance(c, step) =>
      AdvanceKeeps(s, c, step);
  }

  lemma {:induction false} RunKeepsInv(actions: seq<Action>)
    requires Run(actions).Some?
    ensures Inv(Run(actions).value)
  {
    if actions == [] {
      var s := Init();
      assert Pinners(s, 0) == {};
      assert Counted(s);
    } else {
      RunKeepsInv(actions[..|actions| - 1]);
      StepKeepsInv(Run(actions[..|actions| - 1]).value, actions[|actions| - 1]);
    }
  }

  // ----- Main results, over every run -----

  /** A call's hooks run on one runtime with one correlation id, which no other call shares. */
  lemma OneRuntimeOneId(actions: seq<Action>, i: nat, j: nat)
    requires Run(actions).Some? && i < |Run(actions).value.log| && j < |Run(actions).value.log|
    requires Run(actions).value.issued <= TWO_TO_64
    ensures var log := Run(actions).value.log;
            && (log[i].call == log[j].call ==> log[i].runtime == log[j].runtime)
            && (log[i].call == log[j].call <==> log[i].correlation == log[j].correlation)
  {
    RunKeepsInv(actions);
    var s := Run(actions).value;
    assert HookFits(s, s.log[i]) && HookFits(s, s.log[j]);
    IdInjective(s.calls[s.log[i].call].ticket.value, s.calls[s.log[j].call].ticket.value);
  }

  lemma IdInjective(x: nat, y: nat)
    requires x < TWO_TO_64 && y < TWO_TO_64
    ensures IdOf(x) == IdOf(y) <==> x == y
  {
    assert forall t: nat | t < TWO_TO_64 :: IdOf(t) == if t == TWO_TO_64 - 1 then 0 else 1 + t;
  }

  /** The hook trace of an answered call: pre first if declared, the post hook once if declared and else never. */
  lemma PostRunsIffDeclared(actions: seq<Action>, c: CallId)
    requires Run(actions).Some? && c in Run(actions).value.calls && Run(actions).value.calls[c].phase == Answered
    ensures var s := Run(actions).value;
            var hooks, trace := HooksOf(s, c), Trace(s.log, c);
            && PreFirst(hooks, trace) && (hooks.pre ==> trace[0] == Pre(true))
            && multiset(trace)[Post] == if hooks.post then 1 else 0
  {
    RunKeepsInv(actions);
    var s := Run(actions).value;
    assert CallFits(HooksOf(s, c), s.calls[c], Trace(s.log, c));
  }

  // ----- What a refusal means -----

  /** The pre hook refused the call, and that is the end of it: no backend call, no notification, no post hook. */
  predicate Refused(s: State, c: CallId) {
    && c in s.calls && s.calls[c].phase == Abandoned && !s.calls[c].tracked && s.calls[c].handlers == 0
    && Trace(s.log, c) == [Pre(false)]
  }

  lemma RefusedCallIsStuck(hooks: HookPair, call: Call, step: CallStep, issued: nat)
    requires call.phase == Abandoned && !call.tracked && call.handlers == 0
    ensures CallNext(hooks, call, step, issued).None?
  {
  }

  /** A step of another call leaves the hooks that this one has run. */
  lemma OthersKeepTrace(s: State, after: State, d: CallId, next: Call, ran: Option<HookKind>, c: CallId)
    requires Advanced(s, after, d, next, ran) && c != d && c in s.calls
    ensures c in after.calls && after.calls[c] == s.calls[c] && Trace(after.log, c) == Trace(s.log, c)
  {
    if ran.Some? {
      TraceOfCall(s.log, HookRun(d, next.runtime, CorrelationOf(next), ran.value), c);
    }
  }

  lemma StepKeepsRefusal(s: State, a: Action, c: CallId)
    requires Inv(s) && Step(s, a).Some? && Refused(s, c)
    ensures Refused(Step(s, a).value, c)
  {
    if a.Advance? {
      if a.call == c {
        RefusedCallIsStuck(HooksOf(s, c), s.calls[c], a.step, s.issued);
      } else {
        AdvanceAdvances(s, a.call, a.step);
        var (next, ran) := CallNext(HooksOf(s, a.call), s.calls[a.call], a.step, s.issued).value;
        OthersKeepTrace(s, Step(s, a).value, a.call, next, ran, c);
      }
    } else {
      OnlyAdvancesLog(s, a, c);
    }
  }

  lemma OnlyAdvancesLog(s: State, a: Action, c: CallId)
    requires Step(s, a).Some? && !a.Advance? && c in s.calls
    ensures var t := Step(s, a).value; c in t.calls && t.calls[c] == s.calls[c] && t.log == s.log
  {
  }

  lemma RefusalIsFinal(s: State, c: CallId)
    requires Inv(s) && c in s.calls && HooksOf(s, c).pre && Step(s, Advance(c, RunPre(false))).Some?
    ensures Refused(Step(s, Advance(c, RunPre(false))).value, c)
  {
    var hooks, call := HooksOf(s, c), s.calls[c];
    AdvanceAdvances(s, c, RunPre(false));
    assert CallFits(hooks, call, Trace(s.log, c));
    var next := CallNext(hooks, call, RunPre(false), s.issued).value.0;
    TraceOfCall(s.log, HookRun(c, next.runtime, CorrelationOf(next), Pre(false)), c);
  }

  lemma OneMoreKeepsRefusal(actions: seq<Action>, a: Action, c: CallId)
    requires Run(actions).Some? && Step(Run(actions).value, a).Some? && Refused(Run(actions).value, c)
    ensures Refused(Step(Run(actions).value, a).value, c)
  {
    RunKeepsInv(actions);
    StepKeepsRefusal(Run(actions).value, a, c);
  }

  lemma RefusalEndsCall(actions: seq<Action>, c: CallId)
    requires Run(actions).Some? && c in Run(actions).value.calls && HooksOf(Run(actions).value, c).pre
    requires Step(Run(actions).value, Advance(c, RunPre(false))).Some?
    ensures Refused(Step(Run(actions).value, Advance(c, RunPre(false))).value, c)
  {
    RunKeepsInv(actions);
    RefusalIsFinal(Run(actions).value, c);
  }

  lemma {:induction false} RefusalLasts(actions: seq<Action>, rest: seq<Action>, c: CallId)
    requires Run(actions).Some? && Refused(Run(actions).value, c) && Run(actions + rest).Some?
    ensures Refused(Run(actions + rest).value, c)
  {
    if rest == [] {
      assert actions + rest == actions;
    } else {
      var before, a := actions + rest[..|rest| - 1], rest[|rest| - 1];
      assert actions + rest == before + [a];
      RunSnoc(before, a);
      RefusalLasts(actions, rest[..|rest| - 1], c);
      OneMoreKeepsRefusal(before, a, c);
    }
  }

  lemma RunSnoc(actions: seq<Action>, a: Action)
    requires Run(actions + [a]).Some?
    ensures Run(actions).Some? && Step(Run(actions).value, a) == Run(actions + [a])
  {
    assert (actions + [a])[..|actions|] == actions;
  }

  /** A declared pre hook that refuses ends its call for good, whatever happens afterwards. */
  lemma RefusedCallStops(actions: seq<Action>, rest: seq<Action>, c: CallId)
    requires Run(actions).Some? && c in Run(actions).value.calls && HooksOf(Run(actions).value, c).pre
    requires Run(actions + [Advance(c, RunPre(false))]).Some?
    requires Run(actions + [Advance(c, RunPre(false))] + rest).Some?
    ensures Refused(Run(actions + [Advance(c, RunPre(false))] + rest).value, c)
  {
    RunSnoc(actions, Advance(c, RunPre(false)));
    RefusalEndsCall(actions, c);
    RefusalLasts(actions + [Advance(c, RunPre(false))], rest, c);
  }

  /** Whatever goes on after its pre hook was accepted by it, if there is one. */
  lemma OnlyAcceptedCallsGoOn(actions: seq<Action>, c: CallId)
    requires Run(actions).Some? && c in Run(actions).value.calls
    requires var call := Run(actions).value.calls[c];
             || call.phase == Waiting || call.phase == Detached || call.phase == Answered
             || call.tracked || call.handlers > 0
    ensures var s := Run(actions).value;
            var trace := Trace(s.log, c);
            HooksOf(s, c).pre ==> trace != [] && trace[0] == Pre(true)
  {
    RunKeepsInv(actions);
    var s := Run(actions).value;
    assert CallFits(HooksOf(s, c), s.calls[c], Trace(s.log, c));
  }

  // ----- What an undisturbed call runs -----

  /** The call after some steps, and the hooks they ran; a step that is not enabled is passed over. */
  function Walked(hooks: HookPair, call: Call, steps: seq<CallStep>, issued: nat): (Call, seq<HookKind>) {
    if steps == [] then (call, [])
    else
      var (before, trace) := Walked(hooks, call, steps[..|steps| - 1], issued);
      match CallNext(hooks, before, steps[|steps| - 1], issued)
      case None => (before, trace)
      case Some((next, ran)) => (next, Extend(trace, ran))
  }

  lemma WalkOn(hooks: HookPair, call: Call, steps: seq<CallStep>, step: CallStep, issued: nat)
    ensures var (before, trace) := Walked(hooks, call, steps, issued);
            Walked(hooks, call, steps + [step], issued)
            == match CallNext(hooks, before, step, issued)
               case None => (before, trace)
               case Some((next, ran)) => (next, Extend(trace, ran))
  {
    assert (steps + [step])[..|steps|] == steps;
  }

  /** A started call, up to the point where the backend has its request. */
  lemma StartWalks(hooks: HookPair, operation: Operation, id: RuntimeId, accepted: bool, issued: nat)
    requires hooks.pre ==> accepted
    ensures Walked(hooks, Call(operation, id, None, Selected, false, 0), [Identify] + [RunPre(accepted)], issued)
            == (Call(operation, id, if hooks.pre || hooks.post then Some(issued) else None,
                     if hooks.post then Waiting else Detached, false, 0),
                if hooks.pre then [Pre(true)] else [])
  {
    var call := Call(operation, id, None, Selected, false, 0);
    assert [] + [Identify] == [Identify];
    assert Walked(hooks, call, [], issued) == (call, []);
    WalkOn(hooks, call, [], Identify, issued);
    WalkOn(hooks, call, [Identify], RunPre(accepted), issued);
    assert [] + [Pre(true)] == [Pre(true)];
  }

  /** The steps of a call with one progress notification on the way. */
  const UNDISTURBED: seq<CallStep> := [Track] + [BeginNotify] + [RunNotify] + [EndNotify] + [Untrack] + [Answer]

  /** A call that waits for its response runs the hook on the notification, if it is a tool call, and the post hook. */
  lemma WaitingCallWalks(hooks: HookPair, call: Call, issued: nat)
    requires call.phase == Waiting && !call.tracked && call.handlers == 0
    ensures Walked(hooks, call, UNDISTURBED, issued)
            == (call.(phase := Answered), (if call.operation == Tool then [Notify] else []) + [Post])
  {
    var s1 := [Track];
    var s2 := s1 + [BeginNotify];
    var s3 := s2 + [RunNotify];
    var s4 := s3 + [EndNotify];
    var s5 := s4 + [Untrack];
    assert [] + s1 == s1 && s5 + [Answer] == UNDISTURBED;
    assert Walked(hooks, call, [], issued) == (call, []);
    var tool := call.operation == Tool;
    var ran := if tool then [Notify] else [];
    WalkOn(hooks, call, [], Track, issued);
    assert Walked(hooks, call, s1, issued) == (call.(tracked := tool), []);
    WalkOn(hooks, call, s1, BeginNotify, issued);
    assert Walked(hooks, call, s2, issued) == (call.(tracked := tool, handlers := if tool then 1 else 0), []);
    WalkOn(hooks, call, s2, RunNotify, issued);
    assert [] + ran == ran;
    assert Walked(hooks, call, s3, issued) == (call.(tracked := tool, handlers := if tool then 1 else 0), ran);
    WalkOn(hooks, call, s3, EndNotify, issued);
    assert Walked(hooks, call, s4, issued) == (call.(tracked := tool), ran);
    WalkOn(hooks, call, s4, Untrack, issued);
    assert Walked(hooks, call, s5, issued) == (call, ran);
    WalkOn(hooks, call, s5, Answer, issued);
  }

  /** A call without call state runs nothing more and is answered; any call that has not ended can be abandoned. */
  lemma OtherWaysOut(hooks: HookPair, call: Call, issued: nat)
    ensures call.phase == Detached ==>
              CallNext(hooks, call, Answer, issued) == Some((call.(phase := Answered), None))
    ensures call.phase != Answered && call.phase != Abandoned ==>
              CallNext(hooks, call, Abandon, issued) == Some((call.(phase := Abandoned), None))
  {
  }

  /** A notification may begin exactly while the map has the call, and the map may let go of it at any time. */
  lemma NotificationsIff(hooks: HookPair, call: Call, issued: nat)
    ensures CallNext(hooks, call, BeginNotify, issued).Some? <==> call.tracked
    ensures call.tracked ==> CallNext(hooks, call, Untrack, issued) == Some((call.(tracked := false), None))
    ensures call.handlers > 0 ==>
              && CallNext(hooks, call, RunNotify, issued) == Some((call, Some(Notify)))
              && CallNext(hooks, call, EndNotify, issued) == Some((call.(handlers := call.handlers - 1), None))
    ensures CallNext(hooks, call, Track, issued).Some?
            <==> call.phase == Waiting && call.operation == Tool && !call.tracked
    ensures call.phase == Waiting ==> (CallNext(hooks, call, Answer, issued).Some? <==> !call.tracked)
  {
  }

  /** A call starts exactly while there is a current runtime, and it gets that one. */
  lemma SelectedIff(s: State, c: CallId, operation: Operation)
    requires c !in s.calls
    ensures Step(s, Select(c, operation)).Some? <==> s.current.Some?
    ensures s.current.Some? ==>
              Step(s, Select(c, operation)).value.calls
              == s.calls[c := Call(operation, s.current.value, None, Selected, false, 0)]
  {
  }

  /** A swap installs the new runtime, a failed reload leaves none, and neither touches a call. */
  lemma ReloadSwaps(s: State, id: RuntimeId, runtime: PluginRuntime)
    requires id !in s.runtimes
    ensures Step(s, Install(id, runtime)).Some? && Step(s, InstallFailed).Some?
    ensures var t := Step(s, Install(id, runtime)).value;
            t.current == Some(id) && t.runtimes == s.runtimes[id := runtime] && t.calls == s.calls
    ensures var t := Step(s, InstallFailed).value; t.current == None && t.runtimes == s.runtimes && t.calls == s.calls
  {
  }

  /** Ids count up from one; only past 2^64 of them do they start again. */
  lemma IdsCountUp(ticket: nat)
    ensures ticket + 1 < 0x1_0000_0000_0000_0000 ==> IdOf(ticket) == ticket + 1
    ensures IdOf(0x1_0000_0000_0000_0000 - 1) == 0
  {
  }

  /** Every installed runtime was built from a document. */
  ghost predicate BuiltInstalls(actions: seq<Action>, loader: Loader) {
    forall k | 0 <= k < |actions| && actions[k].Install? :: BuiltRuntime(actions[k].runtime, loader)
  }

  predicate BuiltRuntime(runtime: PluginRuntime, loader: Loader) {
    runtime == DefaultRuntime || FromConfig(runtime.config, loader) == Ok(runtime)
  }

  lemma {:induction false} RuntimesAreBuilt(actions: seq<Action>, loader: Loader, id: RuntimeId)
    requires Run(actions).Some? && BuiltInstalls(actions, loader) && id in Run(actions).value.runtimes
    ensures BuiltRuntime(Run(actions).value.runtimes[id], loader)
  {
    if actions != [] {
      var front, last := actions[..|actions| - 1], actions[|actions| - 1];
      assert forall k | 0 <= k < |front| :: front[k] == actions[k];
      var s := Run(front).value;
      RuntimesAfterStep(s, last);
      if last.Install? && id == last.id {
        assert actions[|actions| - 1].Install?;
      } else {
        RuntimesAreBuilt(front, loader, id);
      }
    }
  }

  lemma RuntimesAfterStep(s: State, a: Action)
    requires Step(s, a).Some?
    ensures Step(s, a).value.runtimes == if a.Install? then s.runtimes[a.id := a.runtime] else s.runtimes
  {
  }

  /** The plugins of the document that a runtime was built from; the default runtime has none. */
  function Plugins(runtime: PluginRuntime): seq<PluginSpec> {
    if runtime == DefaultRuntime then [] else runtime.config.plugins
  }

  /**
    From the document to the call: an answered call ran its post hook exactly once if some plugin of the document
    behind its runtime lists that hook, and never otherwise; and a pre hook that some plugin lists ran first.
   */
  lemma HooksRunIffListed(actions: seq<Action>, loader: Loader, c: CallId)
    requires Run(actions).Some? && BuiltInstalls(actions, loader)
    requires c in Run(actions).value.calls && Run(actions).value.calls[c].phase == Answered
    ensures var s := Run(actions).value;
            var call, trace := s.calls[c], Trace(s.log, c);
            && call.runtime in s.runtimes
            && var plugins := Plugins(s.runtimes[call.runtime]);
               && multiset(trace)[Post]
                  == (if exists i | 0 <= i < |plugins| :: call.operation.PostHook() in plugins[i].hooks then 1 else 0)
               && ((exists i | 0 <= i < |plugins| :: call.operation.PreHook() in plugins[i].hooks)
                   <==> trace != [] && trace[0] == Pre(true))
  {
    RunKeepsInv(actions);
    PostRunsIffDeclared(actions, c);
    var s := Run(actions).value;
    var call := s.calls[c];
    RuntimesAreBuilt(actions, loader, call.runtime);
    if s.runtimes[call.runtime] != DefaultRuntime {
      HooksAreDeclared(s.runtimes[call.runtime].config, loader, call.operation);
    }
  }

  /** The runtime and operation of a call never change, nor what its runtime declares. */
  lemma {:induction false} CallKeepsItsRuntime(actions: seq<Action>, n: nat, c: CallId)
    requires n <= |actions| && Run(actions).Some?
    ensures Run(actions[..n]).Some?
    ensures c in Run(actions[..n]).value.calls ==>
              var early, late := Run(actions[..n]).value, Run(actions).value;
              && c in late.calls && late.calls[c].runtime == early.calls[c].runtime
              && HooksOf(late, c) == HooksOf(early, c)
  {
    if n < |actions| {
      var front := actions[..|actions| - 1];
      assert front[..n] == actions[..n];
      CallKeepsItsRuntime(front, n, c);
      RunKeepsInv(front);
      RunKeepsInv(actions);
      if c in Run(actions[..n]).value.calls {
        StepKeepsRuntimes(Run(front).value, actions[|actions| - 1], c);
      }
    } else {
      assert actions[..n] == actions;
    }
  }

  lemma StepKeepsRuntimes(s: State, a: Action, c: CallId)
    requires Inv(s) && Step(s, a).Some? && c in s.calls
    ensures var next := Step(s, a).value;
            && c in next.calls && next.calls[c].runtime == s.calls[c].runtime
            && HooksOf(next, c) == HooksOf(s, c)
  {
    match a
    case Advance(d, step) => AdvanceAdvances(s, d, step);
    case _ =>
  }

  /** A runtime is released exactly once, and exactly when it is neither current nor pinned by a call. */
  lemma ReleasedExactly(actions: seq<Action>, id: RuntimeId)
    requires Run(actions).Some?
    ensures var s := Run(actions).value;
            && (id in s.released <==>
                  id in s.runtimes && s.current != Some(id) && forall c | c in s.calls :: !Pins(s.calls[c], id))
            && multiset(s.released)[id] <= 1
  {
    RunKeepsInv(actions);
    var s := Run(actions).value;
    if id in s.runtimes {
      assert s.references[id] == Holders(s, id);
      if forall c | c in s.calls :: !Pins(s.calls[c], id) {
        assert Pinners(s, id) == {};
      }
      forall c | c in s.calls && Pins(s.calls[c], id) ensures Holders(s, id) > 0 {
        assert c in Pinners(s, id);
      }
    }
    DistinctOnce(s.released, id);
  }

  lemma {:induction false} DistinctOnce(ids: seq<RuntimeId>, id: RuntimeId)
    requires forall i, j | 0 <= i < j < |ids| :: ids[i] != ids[j]
    ensures multiset(ids)[id] <= 1
  {
    if ids != [] {
      var front, last := ids[..|ids| - 1], ids[|ids| - 1];
      DistinctOnce(front, id);
      assert ids == front + [last];
      if last == id {
        assert id !in front;
      }
    }
  }
}

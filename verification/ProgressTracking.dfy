/**
  Progress tokens of in-flight tool calls: a map under a read/write lock, written around the
  enqueuing of a call and read by progress notifications. Lock, enqueue, insert, lookup and
  remove are separate steps of any interleaving.
 */
module ProgressTracking {
  import opened Common

  type CallId = nat
  type NoteId = nat
  type Token = nat

  datatype Phase =
    | Starting   // untracked: about to be enqueued without the lock
    | Locked     // holds the write guard
    | Enqueued   // sent, mapping not yet inserted; still holds the guard
    | Inserted   // mapping inserted; still holds the guard
    | Running    // the call is out
    | Finishing  // the response, an error or a cancellation arrived
    | Stopping   // holds the write guard to stop tracking
    | Removed    // mapping removed; still holds the guard
    | Closed
    | Failed     // the send failed, or the start was dropped

  /** `downstream` is the caller's progress token, if it asked for progress. */
  datatype Call = Call(downstream: Option<Token>, token: Option<Token>, phase: Phase)

  datatype Entry = Entry(call: CallId, downstream: Token)

  datatype NotePhase =
    | Received
    | Reading                             // holds a read guard
    | Looked(found: Option<Entry>)        // looked up; still holds the guard
    | Resolved(found: Option<Entry>)
    | Forwarded(call: CallId, downstream: Token)
    | Dropped

  datatype Note = Note(token: Token, phase: NotePhase)

  datatype State = State(
    writer: Option<CallId>,
    readers: set<NoteId>,
    inFlight: map<Token, Entry>,
    calls: map<CallId, Call>,
    used: set<Token>,
    notes: map<NoteId, Note>)

  datatype Action =
    | Start(call: CallId, downstream: Option<Token>)
    | Lock(call: CallId)
    | Enqueue(call: CallId, token: Token)
    | SendFails(call: CallId)
    | Insert(call: CallId)
    | Unlock(call: CallId)
    | DropStart(call: CallId)
    | Finish(call: CallId)
    | LockToStop(call: CallId)
    | Remove(call: CallId)
    | Close(call: CallId)
    | Emit(note: NoteId, token: Token)
    | ReadLock(note: NoteId)
    | Lookup(note: NoteId)
    | ReadUnlock(note: NoteId)
    | Forward(note: NoteId, accepted: bool)   // the event hook may drop the notification

  function Init(): State { State(None, {}, map[], map[], {}, map[]) }

  predicate InPhase(s: State, c: CallId, phase: Phase) { c in s.calls && s.calls[c].phase == phase }

  function SetPhase(s: State, c: CallId, phase: Phase): State
    requires c in s.calls
  {
    s.(calls := s.calls[c := s.calls[c].(phase := phase)])
  }

  predicate NoteIn(s: State, n: NoteId, phase: NotePhase) { n in s.notes && s.notes[n].phase == phase }

  function SetNote(s: State, n: NoteId, phase: NotePhase): State
    requires n in s.notes
  {
    s.(notes := s.notes[n := s.notes[n].(phase := phase)])
  }

  function Find(inFlight: map<Token, Entry>, token: Token): Option<Entry> {
    if token in inFlight then Some(inFlight[token]) else None
  }

  /** The state after an action, or none if it is not enabled. */
  function Step(s: State, a: Action): Option<State> {
    match a
    case Start(c, downstream) =>
      if c in s.calls then None
      else Some(s.(calls := s.calls[c := Call(downstream, None, Starting)]))
    case Lock(c) =>
      if !InPhase(s, c, Starting) || s.calls[c].downstream.None? || s.writer.Some? || s.readers != {} then None
      else Some(SetPhase(s, c, Locked).(writer := Some(c)))
    case Enqueue(c, token) =>
      // The generated token is fresh: no call and no notification has used it.
      if token in s.used then None
      else if InPhase(s, c, Locked) || (InPhase(s, c, Starting) && s.calls[c].downstream.None?) then
        var phase := if s.calls[c].phase == Locked then Enqueued else Running;
        Some(s.(used := s.used + {token}, calls := s.calls[c := s.calls[c].(token := Some(token), phase := phase)]))
      else None
    case SendFails(c) =>
      if InPhase(s, c, Locked) then Some(SetPhase(s, c, Failed).(writer := None))
      else if InPhase(s, c, Starting) && s.calls[c].downstream.None? then Some(SetPhase(s, c, Failed))
      else None
    case Insert(c) =>
      if !InPhase(s, c, Enqueued) || s.calls[c].token.None? || s.calls[c].downstream.None? then None
      else
        Some(SetPhase(s, c, Inserted).(
             inFlight := s.inFlight[s.calls[c].token.value := Entry(c, s.calls[c].downstream.value)]))
    case Unlock(c) => if !InPhase(s, c, Inserted) then None else Some(SetPhase(s, c, Running).(writer := None))
    case DropStart(c) =>
      if InPhase(s, c, Locked) || InPhase(s, c, Enqueued) then Some(SetPhase(s, c, Failed).(writer := None)) else None
    case Finish(c) => if !InPhase(s, c, Running) then None else Some(SetPhase(s, c, Finishing))
    case LockToStop(c) =>
      if !InPhase(s, c, Finishing) || s.writer.Some? || s.readers != {} then None
      else Some(SetPhase(s, c, Stopping).(writer := Some(c)))
    case Remove(c) =>
      if !InPhase(s, c, Stopping) || s.calls[c].token.None? then None
      else Some(SetPhase(s, c, Removed).(inFlight := s.inFlight - {s.calls[c].token.value}))
    case Close(c) => if !InPhase(s, c, Removed) then None else Some(SetPhase(s, c, Closed).(writer := None))
    case Emit(n, token) =>
      if n in s.notes then None
      else Some(s.(used := s.used + {token}, notes := s.notes[n := Note(token, Received)]))
    case ReadLock(n) =>
      if !NoteIn(s, n, Received) || s.writer.Some? then None
      else Some(SetNote(s, n, Reading).(readers := s.readers + {n}))
    case Lookup(n) =>
      if !NoteIn(s, n, Reading) then None else Some(SetNote(s, n, Looked(Find(s.inFlight, s.notes[n].token))))
    case ReadUnlock(n) =>
      if n !in s.notes || !s.notes[n].phase.Looked? then None
      else Some(SetNote(s, n, Resolved(s.notes[n].phase.found)).(readers := s.readers - {n}))
    case Forward(n, accepted) =>
      if n !in s.notes || !s.notes[n].phase.Resolved? then None
      else
        match s.notes[n].phase.found
        case None => Some(SetNote(s, n, Dropped))
        case Some(entry) => Some(SetNote(s, n, if accepted then Forwarded(entry.call, entry.downstream) else Dropped))
  }

  function Run(actions: seq<Action>): Option<State> {
    if actions == [] then Some(Init())
    else
      match Run(actions[..|actions| - 1])
      case None => None
      case Some(s) => Step(s, actions[|actions| - 1])
  }

  /**
    Which interleavings there are: calls and notifications come in at any time, with any token; readers share the
    lock and exclude only writers; and a start may be dropped, or its send fail, wherever it holds the lock.
   */
  lemma WhatMayHappen(s: State, c: CallId, n: NoteId, downstream: Option<Token>, token: Token)
    ensures Step(s, Start(c, downstream)).Some? <==> c !in s.calls
    ensures Step(s, Emit(n, token)).Some? <==> n !in s.notes
    ensures NoteIn(s, n, Received) ==> (Step(s, ReadLock(n)).Some? <==> s.writer == None)
    ensures InPhase(s, c, Starting) && s.calls[c].downstream.Some? ==>
              (Step(s, Lock(c)).Some? <==> s.writer == None && s.readers == {})
    ensures InPhase(s, c, Locked) ==>
              && Step(s, SendFails(c)).Some? && Step(s, DropStart(c)).Some?
              && (Step(s, Enqueue(c, token)).Some? <==> token !in s.used)
    ensures InPhase(s, c, Enqueued) ==> Step(s, DropStart(c)).Some?
    ensures InPhase(s, c, Running) ==> Step(s, Finish(c)).Some?
  {
  }

  // ----- Invariants -----

  predicate HoldsWriteGuard(phase: Phase) { phase in {Locked, Enqueued, Inserted, Stopping, Removed} }

  /** Tracked and published, and not yet removed. */
  predicate Published(call: Call) {
    call.downstream.Some? && call.token.Some? && call.phase in {Inserted, Running, Finishing, Stopping}
  }

  predicate CallFits(s: State, c: CallId)
    requires c in s.calls
  {
    var call := s.calls[c];
    && (HoldsWriteGuard(call.phase) <==> s.writer == Some(c))
    && (call.token.Some? ==> call.token.value in s.used)
    && (call.phase in {Starting, Locked} ==> call.token.None?)
    && (call.phase in {Enqueued, Inserted, Running, Finishing, Stopping, Removed, Closed} ==> call.token.Some?)
    && (call.phase in {Locked, Enqueued, Inserted} ==> call.downstream.Some?)
    && (Published(call) ==> Find(s.inFlight, call.token.value) == Some(Entry(c, call.downstream.value)))
  }

  predicate EntryFits(s: State, token: Token)
    requires token in s.inFlight
  {
    var entry := s.inFlight[token];
    && entry.call in s.calls && Published(s.calls[entry.call])
    && s.calls[entry.call].token == Some(token) && s.calls[entry.call].downstream == Some(entry.downstream)
  }

  /** A found entry belongs to the call that owns the notification's token. */
  predicate FoundFits(s: State, token: Token, found: Option<Entry>) {
    found.Some? ==>
      && found.value.call in s.calls
      && s.calls[found.value.call].token == Some(token)
      && s.calls[found.value.call].downstream == Some(found.value.downstream)
  }

  predicate NoteFits(s: State, n: NoteId)
    requires n in s.notes
  {
    var note := s.notes[n];
    && note.token in s.used
    && (n in s.readers <==> note.phase == Reading || note.phase.Looked?)
    && match note.phase
       case Looked(found) => FoundFits(s, note.token, found)
       case Resolved(found) => FoundFits(s, note.token, found)
       case Forwarded(c, downstream) => FoundFits(s, note.token, Some(Entry(c, downstream)))
       case _ => true
  }

  predicate LockFits(s: State) {
    && (s.writer.Some? ==> s.readers == {} && s.writer.value in s.calls)
    && s.readers <= s.notes.Keys
  }

  predicate TokensUnique(s: State) {
    forall c, d | c in s.calls && d in s.calls && c != d && s.calls[c].token.Some? && s.calls[d].token.Some? ::
      s.calls[c].token != s.calls[d].token
  }

  predicate Inv(s: State) {
    && LockFits(s) && TokensUnique(s)
    && (forall c {:trigger CallFits(s, c)} | c in s.calls :: CallFits(s, c))
    && (forall token {:trigger EntryFits(s, token)} | token in s.inFlight :: EntryFits(s, token))
    && (forall n {:trigger NoteFits(s, n)} | n in s.notes :: NoteFits(s, n))
  }

  lemma StepKeepsLock(s: State, a: Action)
    requires Inv(s) && Step(s, a).Some?
    ensures LockFits(Step(s, a).value)
  {
    if a.Lock? || a.LockToStop? {
      assert CallFits(s, a.call);
    }
  }

  /** Only enqueuing gives a call a token. */
  lemma TokensStay(s: State, a: Action)
    requires Step(s, a).Some? && !a.Enqueue?
    ensures forall c | c in Step(s, a).value.calls ::
              Step(s, a).value.calls[c].token == if c in s.calls then s.calls[c].token else None
  {
  }

  lemma FreshTokenStaysUnique(s: State, c: CallId, token: Token)
    requires Inv(s) && Step(s, Enqueue(c, token)).Some?
    ensures TokensUnique(Step(s, Enqueue(c, token)).value)
  {
    forall d | d in s.calls && s.calls[d].token.Some? ensures s.calls[d].token.value != token {
      assert CallFits(s, d);
    }
  }

  lemma StepKeepsTokens(s: State, a: Action)
    requires Inv(s) && Step(s, a).Some?
    ensures TokensUnique(Step(s, a).value)
  {
    if a.Enqueue? {
      FreshTokenStaysUnique(s, a.call, a.token);
    } else {
      TokensStay(s, a);
    }
  }

  lemma StepKeepsCall(s: State, a: Action, c: CallId)
    requires Inv(s) && Step(s, a).Some? && c in Step(s, a).value.calls
    ensures CallFits(Step(s, a).value, c)
  {
    if c in s.calls {
      assert CallFits(s, c);
    }
    if a.Insert? || a.Remove? || a.DropStart? || a.SendFails? || a.Lock? || a.LockToStop? || a.Unlock? || a.Close? {
      assert CallFits(s, a.call);
    }
  }

  lemma StepKeepsEntry(s: State, a: Action, token: Token)
    requires Inv(s) && Step(s, a).Some? && token in Step(s, a).value.inFlight
    ensures EntryFits(Step(s, a).value, token)
  {
    if token in s.inFlight {
      assert EntryFits(s, token);
    }
    if a.Insert? {
      assert CallFits(s, a.call);
    }
  }

  lemma StepKeepsFound(s: State, a: Action, token: Token, found: Option<Entry>)
    requires Inv(s) && Step(s, a).Some? && FoundFits(s, token, found)
    ensures FoundFits(Step(s, a).value, token, found)
  {
    if found.Some? {
      assert CallFits(s, found.value.call);
    }
  }

  lemma StepKeepsNote(s: State, a: Action, n: NoteId)
    requires Inv(s) && Step(s, a).Some? && n in Step(s, a).value.notes
    ensures NoteFits(Step(s, a).value, n)
  {
    if n in s.notes {
      assert NoteFits(s, n);
      var token := s.notes[n].token;
      if a.Lookup? && token in s.inFlight {
        assert EntryFits(s, token);
      }
      match s.notes[n].phase
      case Looked(found) => StepKeepsFound(s, a, token, found);
      case Resolved(found) => StepKeepsFound(s, a, token, found);
      case Forwarded(c, downstream) => StepKeepsFound(s, a, token, Some(Entry(c, downstream)));
      case _ =>
    }
  }

  lemma StepKeepsInv(s: State, a: Action)
    requires Inv(s) && Step(s, a).Some?
    ensures Inv(Step(s, a).value)
  {
    var next := Step(s, a).value;
    StepKeepsLock(s, a);
    StepKeepsTokens(s, a);
    forall c | c in next.calls ensures CallFits(next, c) {
      StepKeepsCall(s, a, c);
    }
    forall token | token in next.inFlight ensures EntryFits(next, token) {
      StepKeepsEntry(s, a, token);
    }
    forall n | n in next.notes ensures NoteFits(next, n) {
      StepKeepsNote(s, a, n);
    }
  }

  lemma {:induction false} RunKeepsInv(actions: seq<Action>)
    requires Run(actions).Some?
    ensures Inv(Run(actions).value)
  {
    if actions != [] {
      RunKeepsInv(actions[..|actions| - 1]);
      StepKeepsInv(Run(actions[..|actions| - 1]).value, actions[|actions| - 1]);
    }
  }

  // ----- Main results, over every run -----

  /** Sent and not yet stopped: from the enqueuing of a tracked call to the removal of its mapping. */
  predicate Live(call: Call) {
    call.downstream.Some? && call.token.Some? && call.phase in {Enqueued, Inserted, Running, Finishing, Stopping}
  }

  /** No early progress is lost: whenever a lookup happens, a live call's notification finds exactly that call. */
  lemma LiveCallIsFound(actions: seq<Action>, n: NoteId, c: CallId)
    requires Run(actions + [Lookup(n)]).Some? && Run(actions).Some?
    requires c in Run(actions).value.calls && Live(Run(actions).value.calls[c])
    requires n in Run(actions).value.notes
             && Run(actions).value.calls[c].token == Some(Run(actions).value.notes[n].token)
    ensures Run(actions + [Lookup(n)]).value.notes[n].phase
            == Looked(Some(Entry(c, Run(actions).value.calls[c].downstream.value)))
  {
    RunKeepsInv(actions);
    assert (actions + [Lookup(n)])[..|actions|] == actions;
    var s := Run(actions).value;
    assert CallFits(s, c) && NoteFits(s, n);
  }

  /** A token that no live call owns, unknown, untracked or stopped, is not found. */
  lemma OtherTokensAreNotFound(actions: seq<Action>, n: NoteId)
    requires Run(actions + [Lookup(n)]).Some? && Run(actions).Some? && n in Run(actions).value.notes
    requires forall c | c in Run(actions).value.calls && Live(Run(actions).value.calls[c]) ::
               Run(actions).value.calls[c].token != Some(Run(actions).value.notes[n].token)
    ensures Run(actions + [Lookup(n)]).value.notes[n].phase == Looked(None)
  {
    RunKeepsInv(actions);
    assert (actions + [Lookup(n)])[..|actions|] == actions;
    var s := Run(actions).value;
    var token := s.notes[n].token;
    if token in s.inFlight {
      InFlightIsLive(s, token);
    }
  }

  /** Whoever holds the lock can go on: the writer up to giving it up, and every reader likewise. */
  lemma LockIsGivenUp(actions: seq<Action>)
    requires Run(actions).Some?
    ensures var s := Run(actions).value;
            && (s.writer.Some? ==>
                  var c := s.writer.value;
                  && c in s.calls
                  && match s.calls[c].phase
                     case Locked => Step(s, DropStart(c)).Some? && Step(s, DropStart(c)).value.writer.None?
                     case Enqueued => Step(s, Insert(c)).Some? && InPhase(Step(s, Insert(c)).value, c, Inserted)
                     case Inserted => Step(s, Unlock(c)).Some? && Step(s, Unlock(c)).value.writer.None?
                     case Stopping => Step(s, Remove(c)).Some? && InPhase(Step(s, Remove(c)).value, c, Removed)
                     case Removed => Step(s, Close(c)).Some? && Step(s, Close(c)).value.writer.None?
                     case _ => false)
            && forall n | n in s.readers ::
                 && n in s.notes
                 && match s.notes[n].phase
                    case Reading => Step(s, Lookup(n)).Some? && Step(s, Lookup(n)).value.notes[n].phase.Looked?
                    case Looked(_) => Step(s, ReadUnlock(n)).Some? && n !in Step(s, ReadUnlock(n)).value.readers
                    case _ => false
  {
    RunKeepsInv(actions);
    var s := Run(actions).value;
    if s.writer.Some? {
      assert CallFits(s, s.writer.value);
    }
    forall n | n in s.readers ensures n in s.notes && NoteFits(s, n) {
    }
  }

  lemma InFlightIsLive(s: State, token: Token)
    requires Inv(s) && token in s.inFlight
    ensures s.inFlight[token].call in s.calls && Live(s.calls[s.inFlight[token].call])
    ensures s.calls[s.inFlight[token].call].token == Some(token)
  {
    assert EntryFits(s, token);
  }

  /** A forwarded notification goes to the call that owns its token, under that call's downstream token. */
  lemma ForwardedToOwner(actions: seq<Action>, n: NoteId)
    requires Run(actions).Some? && n in Run(actions).value.notes && Run(actions).value.notes[n].phase.Forwarded?
    ensures var s := Run(actions).value;
            var note := s.notes[n];
            && note.phase.call in s.calls
            && s.calls[note.phase.call].token == Some(note.token)
            && s.calls[note.phase.call].downstream == Some(note.phase.downstream)
            && forall c | c in s.calls && s.calls[c].token == Some(note.token) :: c == note.phase.call
  {
    RunKeepsInv(actions);
    assert NoteFits(Run(actions).value, n);
  }

  /** A failed or dropped start leaves no mapping, and once every call has ended the map is empty. */
  lemma EndedCallsLeaveNothing(actions: seq<Action>)
    requires Run(actions).Some?
    ensures forall token | token in Run(actions).value.inFlight ::
              var c := Run(actions).value.inFlight[token].call;
              c in Run(actions).value.calls && Run(actions).value.calls[c].phase !in {Closed, Failed}
    ensures (forall c | c in Run(actions).value.calls :: Run(actions).value.calls[c].phase in {Closed, Failed})
            ==> Run(actions).value.inFlight == map[]
  {
    RunKeepsInv(actions);
    var s := Run(actions).value;
    forall token | token in s.inFlight
      ensures s.inFlight[token].call in s.calls && Published(s.calls[s.inFlight[token].call])
    {
      assert EntryFits(s, token);
    }
    if forall c | c in s.calls :: s.calls[c].phase in {Closed, Failed} {
      assert forall token :: token !in s.inFlight;
    }
  }

  // ----- The sections of the client, run alone -----

  /** The state after an action if it is enabled, and else as it was. */
  function Then(s: State, a: Action): State {
    match Step(s, a) case Some(t) => t case None => s
  }

  predicate Unlocked(s: State) { s.writer.None? && s.readers == {} }

  /** The steps of one start with no other action between; `sent` is the generated token, or a failed send. */
  function StartAlone(s: State, c: CallId, downstream: Option<Token>, sent: Option<Token>): State {
    var locked := Then(Then(s, Start(c, downstream)), Lock(c));
    var enqueued := Then(locked, if sent.Some? then Enqueue(c, sent.value) else SendFails(c));
    Then(Then(enqueued, Insert(c)), Unlock(c))
  }

  /** The steps of stopping to track a call whose response came in. */
  function StopAlone(s: State, c: CallId): State { Then(Then(Then(s, LockToStop(c)), Remove(c)), Close(c)) }

  /** The steps of one notification. */
  function NotifyAlone(s: State, n: NoteId, token: Token, accepted: bool): State {
    var looked := Then(Then(Then(s, Emit(n, token)), ReadLock(n)), Lookup(n));
    Then(Then(looked, ReadUnlock(n)), Forward(n, accepted))
  }

  /** The steps of one tool call from its start to the end of its tracking. */
  function CallAlone(s: State, c: CallId, downstream: Option<Token>, sent: Option<Token>): State {
    StopAlone(Then(StartAlone(s, c, downstream, sent), Finish(c)), c)
  }

  function Tracked(inFlight: map<Token, Entry>, c: CallId, downstream: Option<Token>, sent: Option<Token>)
      : map<Token, Entry>
  {
    if downstream.Some? && sent.Some? then inFlight[sent.value := Entry(c, downstream.value)] else inFlight
  }

  lemma StartsAlone(s: State, c: CallId, downstream: Option<Token>, sent: Option<Token>)
    requires Unlocked(s) && c !in s.calls && (sent.Some? ==> sent.value !in s.used)
    ensures var t := StartAlone(s, c, downstream, sent);
            && Unlocked(t) && t.inFlight == Tracked(s.inFlight, c, downstream, sent)
            && c in t.calls && t.calls[c] == Call(downstream, sent, if sent.Some? then Running else Failed)
  {
    var started := Then(s, Start(c, downstream));
    assert started.calls[c] == Call(downstream, None, Starting) && started.used == s.used && Unlocked(started);
    var locked := Then(started, Lock(c));
    assert locked.calls[c] == Call(downstream, None, if downstream.Some? then Locked else Starting);
  }

  lemma StopsAlone(s: State, c: CallId)
    requires Unlocked(s) && InPhase(s, c, Finishing) && s.calls[c].token.Some?
    ensures var t := StopAlone(s, c);
            && Unlocked(t) && t.inFlight == s.inFlight - {s.calls[c].token.value}
            && c in t.calls && t.calls[c] == s.calls[c].(phase := Closed)
  {
    var locked := Then(s, LockToStop(c));
    assert locked.calls[c] == s.calls[c].(phase := Stopping);
  }

  lemma NotifiesAlone(s: State, n: NoteId, token: Token, accepted: bool)
    requires Unlocked(s) && n !in s.notes
    ensures var t := NotifyAlone(s, n, token, accepted);
            && t.inFlight == s.inFlight && n in t.notes
            && t.notes[n].phase == match Find(s.inFlight, token)
                                   case Some(entry) =>
                                     if accepted then Forwarded(entry.call, entry.downstream) else Dropped
                                   case None => Dropped
  {
    var emitted := Then(s, Emit(n, token));
    assert emitted.notes[n] == Note(token, Received) && emitted.inFlight == s.inFlight && emitted.writer.None?;
    var reading := Then(emitted, ReadLock(n));
    assert reading.notes[n] == Note(token, Reading) && reading.inFlight == s.inFlight;
    LookedUpAlone(reading, n, accepted);
  }

  lemma LookedUpAlone(s: State, n: NoteId, accepted: bool)
    requires NoteIn(s, n, Reading)
    ensures var t := Then(Then(Then(s, Lookup(n)), ReadUnlock(n)), Forward(n, accepted));
            && t.inFlight == s.inFlight && n in t.notes
            && t.notes[n].phase == match Find(s.inFlight, s.notes[n].token)
                                   case Some(entry) =>
                                     if accepted then Forwarded(entry.call, entry.downstream) else Dropped
                                   case None => Dropped
  {
    var looked := Then(s, Lookup(n));
    assert looked.notes[n] == Note(s.notes[n].token, Looked(Find(s.inFlight, s.notes[n].token)));
  }

  lemma FinishesAlone(s: State, c: CallId)
    requires Unlocked(s) && c in s.calls
    requires s.calls[c].phase == Failed || (s.calls[c].phase == Running && s.calls[c].token.Some?)
    ensures var t := StopAlone(Then(s, Finish(c)), c);
            var out := s.calls[c].phase == Running;
            && Unlocked(t) && InPhase(t, c, if out then Closed else Failed)
            && t.inFlight == if out then s.inFlight - {s.calls[c].token.value} else s.inFlight
  {
    if s.calls[c].phase == Running {
      StopsAlone(Then(s, Finish(c)), c);
    }
  }

  lemma CallsAlone(s: State, c: CallId, downstream: Option<Token>, sent: Option<Token>)
    requires Unlocked(s) && c !in s.calls && (sent.Some? ==> sent.value !in s.used && sent.value !in s.inFlight)
    ensures var t := CallAlone(s, c, downstream, sent);
            && Unlocked(t) && t.inFlight == s.inFlight
            && c in t.calls && t.calls[c].phase == if sent.Some? then Closed else Failed
  {
    StartsAlone(s, c, downstream, sent);
    FinishesAlone(StartAlone(s, c, downstream, sent), c);
    if sent.Some? {
      assert Tracked(s.inFlight, c, downstream, sent) - {sent.value} == s.inFlight;
    }
  }

  class GatewayBackendClient {
    var inFlightCalls: map<Token, Entry>

    constructor ()
      ensures inFlightCalls == map[]
    {
      inFlightCalls := map[];
    }

    /** `s` is a state of the protocol with this client's map and nobody at the lock. */
    ghost predicate Mirrors(s: State)
      reads this
    {
      Unlocked(s) && s.inFlight == inFlightCalls
    }

    /** In every such state the steps of the start, taken one after another, end with this handle and this map. */
    method StartToolCall(call: CallId, downstream: Option<Token>, sent: Option<Token>) returns (handle: Option<Token>)
      modifies this
      ensures forall s {:trigger StartAlone(s, call, downstream, sent)}
                | old(Mirrors(s)) && call !in s.calls && (sent.Some? ==> sent.value !in s.used) ::
                var t := StartAlone(s, call, downstream, sent);
                && Mirrors(t) && call in t.calls
                && t.calls[call] == Call(downstream, handle, if handle.Some? then Running else Failed)
      ensures handle == sent && inFlightCalls == Tracked(old(inFlightCalls), call, downstream, sent)
    {
      forall s | Mirrors(s) && call !in s.calls && (sent.Some? ==> sent.value !in s.used)
        ensures var t := StartAlone(s, call, downstream, sent);
                && Unlocked(t) && t.inFlight == Tracked(inFlightCalls, call, downstream, sent)
                && call in t.calls && t.calls[call] == Call(downstream, sent, if sent.Some? then Running else Failed)
      {
        StartsAlone(s, call, downstream, sent);
      }
      if downstream.None? {
        return sent;
      }
      if sent.None? {
        return None;
      }
      inFlightCalls := inFlightCalls[sent.value := Entry(call, downstream.value)];
      handle := sent;
    }

    /** In every such state the steps of stopping the call with this token end with this map. */
    method StopTrackingToolCall(token: Token)
      modifies this
      ensures forall s, c {:trigger StopAlone(s, c)}
                | old(Mirrors(s)) && InPhase(s, c, Finishing) && s.calls[c].token == Some(token) ::
                Mirrors(StopAlone(s, c)) && InPhase(StopAlone(s, c), c, Closed)
      ensures inFlightCalls == old(inFlightCalls) - {token}
    {
      forall s, c | Mirrors(s) && InPhase(s, c, Finishing) && s.calls[c].token == Some(token)
        ensures var t := StopAlone(s, c);
                Unlocked(t) && t.inFlight == inFlightCalls - {token} && InPhase(t, c, Closed)
      {
        StopsAlone(s, c);
      }
      inFlightCalls := inFlightCalls - {token};
    }

    /**
      A known token is replaced by the caller's own before the notification goes on, unless a hook drops it; the
      steps of the notification, taken one after another, end alike.
     */
    method OnProgress(token: Token, accepted: bool) returns (forwarded: Option<Token>)
      ensures forwarded.Some? <==> accepted && token in inFlightCalls
      ensures forwarded.Some? ==> forwarded.value == inFlightCalls[token].downstream
      ensures forall s, n {:trigger NotifyAlone(s, n, token, accepted)} | Mirrors(s) && n !in s.notes ::
                var t := NotifyAlone(s, n, token, accepted);
                && n in t.notes
                && t.notes[n].phase ==
                      if forwarded.Some? then Forwarded(inFlightCalls[token].call, forwarded.value) else Dropped
    {
      forall s, n | Mirrors(s) && n !in s.notes
        ensures var t := NotifyAlone(s, n, token, accepted);
                && n in t.notes
                && t.notes[n].phase == match Find(inFlightCalls, token)
                                       case Some(entry) =>
                                         if accepted then Forwarded(entry.call, entry.downstream) else Dropped
                                       case None => Dropped
      {
        NotifiesAlone(s, n, token, accepted);
      }
      var call := Find(inFlightCalls, token);
      if call.None? {
        return None;
      }
      var downstream := call.value.downstream;
      forwarded := if accepted then Some(downstream) else None;
    }

    /**
      One tool call under a fresh token: a failed send ends it, tracking stops before the response is looked at, and
      the map is as it was before. `during` is what becomes of a notification while the call is out.
     */
    method CallTool(call: CallId, downstream: Option<Token>, sent: Option<Token>, response: Option<string>)
        returns (r: Option<string>, during: Option<Token>)
      requires sent.Some? ==> sent.value !in inFlightCalls
      modifies this
      ensures inFlightCalls == old(inFlightCalls)
      ensures r == if sent.Some? then response else None
      ensures during == if sent.Some? then downstream else None
      ensures forall s {:trigger CallAlone(s, call, downstream, sent)}
                | old(Mirrors(s)) && call !in s.calls && (sent.Some? ==> sent.value !in s.used) ::
                var t := CallAlone(s, call, downstream, sent);
                Mirrors(t) && InPhase(t, call, if sent.Some? then Closed else Failed)
    {
      forall s | Mirrors(s) && call !in s.calls && (sent.Some? ==> sent.value !in s.used)
        ensures var t := CallAlone(s, call, downstream, sent);
                && Unlocked(t) && t.inFlight == inFlightCalls
                && InPhase(t, call, if sent.Some? then Closed else Failed)
      {
        CallsAlone(s, call, downstream, sent);
      }
      var handle := StartToolCall(call, downstream, sent);
      if handle.None? {
        return None, None;
      }
      during := OnProgress(handle.value, true);
      StopTrackingToolCall(handle.value);
      assert inFlightCalls == old(inFlightCalls);
      r := response;
    }
  }
}

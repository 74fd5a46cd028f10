/**
  The plugin context of one tool call, shared by its progress notifications and its final
  response under a mutex. Payloads and context tables are opaque values.
 */
module HookContext {
  import opened Common

  type Context = string
  type Payload = string

  datatype HookResult = HookResult(denied: bool, context: Context, modified: Option<Payload>)

  /** One completed post-hook invocation: the context it was given and what it answered. */
  datatype Invocation = Invocation(given: Context, result: HookResult)

  /** The context left by the last invocation that was not denied, or the initial one. */
  function Threaded(initial: Context, log: seq<Invocation>): Context {
    if log == [] then initial
    else if log[|log| - 1].result.denied then Threaded(initial, log[..|log| - 1])
    else log[|log| - 1].result.context
  }

  /** Every invocation was given what the ones before it left. */
  predicate NoLostUpdate(initial: Context, log: seq<Invocation>) {
    forall k | 0 <= k < |log| :: log[k].given == Threaded(initial, log[..k])
  }

  lemma NoLostUpdateSnoc(initial: Context, log: seq<Invocation>, last: Invocation)
    requires NoLostUpdate(initial, log) && last.given == Threaded(initial, log)
    ensures NoLostUpdate(initial, log + [last])
    ensures Threaded(initial, log + [last]) == if last.result.denied then last.given else last.result.context
  {
    var next := log + [last];
    forall k | 0 <= k < |next| ensures next[k].given == Threaded(initial, next[..k]) {
      assert next[..k] == log[..k];
      assert log[..|log|] == log;
    }
    assert next[..|log|] == log;
  }

  // ----- The call state, used by one task at a time -----

  datatype HookError = Unsupported | Denied | CannotApply

  class CallState {
    var contextTable: Context
    ghost const initial: Context
    ghost var log: seq<Invocation>

    ghost predicate Valid()
      reads this
    {
      contextTable == Threaded(initial, log) && NoLostUpdate(initial, log)
    }

    constructor (context: Context)
      ensures Valid() && initial == context && log == []
    {
      contextTable, initial, log := context, context, [];
    }

    /** `s` is a state of the mutex protocol with this context and log, and nobody at the lock. */
    ghost predicate Mirrors(s: Shared)
      reads this
    {
      s.holder.None? && s.context == contextTable && s.log == log
    }

    /**
      Runs the post hook on a projected response; a denial leaves the context alone. The steps of a task that
      nothing interrupts do the same in every such state.
     */
    method Invoke(payload: Option<Payload>, hook: (Payload, Context) -> HookResult)
        returns (r: Result<HookResult, HookError>)
      requires Valid()
      modifies this
      ensures Valid()
      ensures payload.None? ==> r == Err(Unsupported) && log == old(log) && contextTable == old(contextTable)
      ensures payload.Some? ==>
                && r == Ok(hook(payload.value, old(contextTable)))
                && log == old(log) + [Invocation(old(contextTable), r.value)]
      ensures r.Ok? ==>
                forall s, t {:trigger InvokeAlone(s, t, r.value)} | old(Mirrors(s)) && t !in s.tasks ::
                  Mirrors(InvokeAlone(s, t, r.value))
    {
      if payload.None? {
        return Err(Unsupported);
      }
      var result := hook(payload.value, contextTable);
      forall s, t | Mirrors(s) && t !in s.tasks
        ensures var after := InvokeAlone(s, t, result);
                && after.holder.None? && after.log == log + [Invocation(contextTable, result)]
                && after.context == if result.denied then contextTable else result.context
      {
        InvokesAlone(s, t, result);
      }
      NoLostUpdateSnoc(initial, log, Invocation(contextTable, result));
      log := log + [Invocation(contextTable, result)];
      if !result.denied {
        contextTable := result.context;
      }
      r := Ok(result);
    }

    /**
      The final response: a denial is an error and leaves the context, else the context moves on and an edit counts.
     */
    method After(response: Payload, payload: Option<Payload>, hook: (Payload, Context) -> HookResult,
                 apply: (Payload, Payload) -> Option<Payload>)
        returns (r: Result<Payload, HookError>)
      requires Valid()
      modifies this
      ensures Valid()
      ensures payload.None? ==> r == Err(Unsupported) && log == old(log) && contextTable == old(contextTable)
      ensures payload.Some? ==>
                var result := hook(payload.value, old(contextTable));
                && log == old(log) + [Invocation(old(contextTable), result)]
                && contextTable == (if result.denied then old(contextTable) else result.context)
                && (r == Err(Denied) <==> result.denied)
                && (!result.denied && result.modified == None ==> r == Ok(response))
                && (!result.denied && result.modified.Some? ==>
                      var edited := apply(response, result.modified.value);
                      && (edited.Some? ==> r == Ok(edited.value))
                      && (edited.None? ==> r == Err(CannotApply)))
    {
      var result := Invoke(payload, hook);
      assert payload.Some? ==> log[..|log| - 1] == old(log);
      if result.Err? {
        return Err(result.error);
      }
      if result.value.denied {
        return Err(Denied);
      }
      if result.value.modified.None? {
        return Ok(response);
      }
      var applied := apply(response, result.value.modified.value);
      r := if applied.Some? then Ok(applied.value) else Err(CannotApply);
    }

    /** A notification: a denial drops it quietly, and everything else is as for the response. */
    method AfterStreamEvent(event: Payload, payload: Option<Payload>, hook: (Payload, Context) -> HookResult,
                            apply: (Payload, Payload) -> Option<Payload>)
        returns (r: Result<Option<Payload>, HookError>)
      requires Valid()
      modifies this
      ensures Valid()
      ensures payload.None? ==> r == Err(Unsupported) && log == old(log) && contextTable == old(contextTable)
      ensures payload.Some? ==>
                var result := hook(payload.value, old(contextTable));
                && log == old(log) + [Invocation(old(contextTable), result)]
                && contextTable == (if result.denied then old(contextTable) else result.context)
                && (r == Ok(None) <==> result.denied)
                && (!result.denied && result.modified == None ==> r == Ok(Some(event)))
                && (!result.denied && result.modified.Some? ==>
                      var edited := apply(event, result.modified.value);
                      && (edited.Some? ==> r == Ok(Some(edited.value)))
                      && (edited.None? ==> r == Err(CannotApply)))
    {
      var result := Invoke(payload, hook);
      assert payload.Some? ==> log[..|log| - 1] == old(log);
      if result.Err? {
        return Err(result.error);
      }
      if result.value.denied {
        return Ok(None);
      }
      if result.value.modified.None? {
        return Ok(Some(event));
      }
      var applied := apply(event, result.value.modified.value);
      r := if applied.Some? then Ok(Some(applied.value)) else Err(CannotApply);
    }
  }

  // ----- Tasks that contend for the mutex -----

  type TaskId = nat

  datatype TaskPhase = Idle | Holding | Invoking(given: Context) | Settled

  datatype Shared = Shared(
    context: Context,
    holder: Option<TaskId>,
    tasks: map<TaskId, TaskPhase>,
    log: seq<Invocation>)

  datatype Action =
    | Arrive(task: TaskId)                       // a notification or the response comes in
    | Lock(task: TaskId)
    | Begin(task: TaskId)                        // the hook starts with a copy of the context
    | Complete(task: TaskId, result: HookResult) // the hook answers; the context is written unless denied
    | Unlock(task: TaskId)                       // also when the payload cannot be projected or the task is dropped

  function Init(initial: Context): Shared { Shared(initial, None, map[], []) }

  function Step(s: Shared, a: Action): Option<Shared> {
    match a
    case Arrive(t) => if t in s.tasks then None else Some(s.(tasks := s.tasks[t := Idle]))
    case Lock(t) =>
      if t !in s.tasks || s.tasks[t] != Idle || s.holder.Some? then None
      else Some(s.(holder := Some(t), tasks := s.tasks[t := Holding]))
    case Begin(t) =>
      if t !in s.tasks || s.tasks[t] != Holding then None
      else Some(s.(tasks := s.tasks[t := Invoking(s.context)]))
    case Complete(t, result) =>
      if t !in s.tasks || !s.tasks[t].Invoking? then None
      else
        Some(s.(tasks := s.tasks[t := Settled],
                log := s.log + [Invocation(s.tasks[t].given, result)],
                context := if result.denied then s.context else result.context))
    case Unlock(t) =>
      if s.holder != Some(t) then None
      else Some(s.(holder := None, tasks := s.tasks - {t}))
  }

  function Run(initial: Context, actions: seq<Action>): Option<Shared> {
    if actions == [] then Some(Init(initial))
    else
      match Run(initial, actions[..|actions| - 1])
      case None => None
      case Some(s) => Step(s, actions[|actions| - 1])
  }

  /** The state after an action if it is enabled, and else as it was. */
  function Then(s: Shared, a: Action): Shared {
    match Step(s, a) case Some(t) => t case None => s
  }

  /** The steps of one task with no other action between. */
  function InvokeAlone(s: Shared, task: TaskId, result: HookResult): Shared {
    var holding := Then(Then(s, Arrive(task)), Lock(task));
    Then(Then(Then(holding, Begin(task)), Complete(task, result)), Unlock(task))
  }

  lemma InvokesAlone(s: Shared, task: TaskId, result: HookResult)
    requires s.holder.None? && task !in s.tasks
    ensures var t := InvokeAlone(s, task, result);
            && t.holder.None? && t.tasks == s.tasks
            && t.log == s.log + [Invocation(s.context, result)]
            && t.context == if result.denied then s.context else result.context
  {
    var holding := Then(Then(s, Arrive(task)), Lock(task));
    assert holding == s.(holder := Some(task), tasks := s.tasks[task := Holding]);
    var invoking := Then(holding, Begin(task));
    assert invoking.tasks == s.tasks[task := Invoking(s.context)];
    var settled := Then(invoking, Complete(task, result));
    assert settled.tasks == s.tasks[task := Settled];
    assert s.tasks[task := Settled] - {task} == s.tasks;
  }

  /** Tasks come at any time; the mutex has one holder; and that may leave at any point, hook or no hook. */
  lemma WhatMayHappen(s: Shared, task: TaskId, result: HookResult)
    ensures Step(s, Arrive(task)).Some? <==> task !in s.tasks
    ensures task in s.tasks && s.tasks[task] == Idle ==> (Step(s, Lock(task)).Some? <==> s.holder == None)
    ensures task in s.tasks && s.tasks[task] == Holding ==> Step(s, Begin(task)).Some?
    ensures task in s.tasks && s.tasks[task].Invoking? ==> Step(s, Complete(task, result)).Some?
    ensures s.holder == Some(task) ==> Step(s, Unlock(task)) == Some(s.(holder := None, tasks := s.tasks - {task}))
  {
  }

  /** Only the holder is past the lock, and a running hook has the context as it is now. */
  predicate Exclusive(s: Shared) {
    && (s.holder.Some? ==> s.holder.value in s.tasks)
    && forall t | t in s.tasks ::
      && (s.tasks[t] != Idle <==> s.holder == Some(t))
      && (s.tasks[t].Invoking? ==> s.tasks[t].given == s.context)
  }

  ghost predicate Good(initial: Context, s: Shared) {
    Exclusive(s) && NoLostUpdate(initial, s.log) && s.context == Threaded(initial, s.log)
  }

  lemma StepKeepsExclusive(s: Shared, a: Action)
    requires Exclusive(s) && Step(s, a).Some?
    ensures Exclusive(Step(s, a).value)
  {
  }

  lemma StepThreads(initial: Context, s: Shared, a: Action)
    requires Good(initial, s) && Step(s, a).Some?
    ensures Good(initial, Step(s, a).value)
  {
    StepKeepsExclusive(s, a);
    if a.Complete? {
      NoLostUpdateSnoc(initial, s.log, Invocation(s.tasks[a.task].given, a.result));
    }
  }

  /** In every interleaving each hook is given the context left by the last earlier one that was not denied. */
  lemma {:induction false} ContextIsThreaded(initial: Context, actions: seq<Action>)
    requires Run(initial, actions).Some?
    ensures var s := Run(initial, actions).value;
            Exclusive(s) && NoLostUpdate(initial, s.log) && s.context == Threaded(initial, s.log)
  {
    if actions != [] {
      ContextIsThreaded(initial, actions[..|actions| - 1]);
      StepThreads(initial, Run(initial, actions[..|actions| - 1]).value, actions[|actions| - 1]);
    }
  }
}

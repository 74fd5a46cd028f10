/**
  The registry of the plugin runtime: loading a configuration document, swapping the runtime,
  failing closed, and the watcher that skips a reload when the document has not changed.
 */
module RuntimeRegistry {
  import opened Common

  type Bytes = string

  const CONFIG_VERSION: nat := 1

  // ----- Configuration documents -----

  datatype PluginSpec = PluginSpec(hooks: seq<string>, hasConditions: bool)

  datatype CpexConfig = CpexConfig(
    routingEnabled: bool,
    failOnPluginError: bool,
    hasRoutes: bool,
    hasPluginDirs: bool,
    hasPolicies: bool,
    hasDefaults: bool,
    plugins: seq<PluginSpec>)

  datatype Document = Document(version: nat, cpex: CpexConfig)

  datatype RuntimeError =
    | StoreUnavailable
    | WrongFormat
    | ConfigMissing
    | Unsupported
    | Configuration
    | Initialization

  datatype Operation = Tool | Prompt | Resource {
    function PreHook(): string {
      match this
      case Tool => "cmf.tool_pre_invoke"
      case Prompt => "cmf.prompt_pre_fetch"
      case Resource => "cmf.resource_pre_fetch"
    }

    function PostHook(): string {
      match this
      case Tool => "cmf.tool_post_invoke"
      case Prompt => "cmf.prompt_post_fetch"
      case Resource => "cmf.resource_post_fetch"
    }
  }

  datatype HookPair = HookPair(pre: bool, post: bool)

  datatype PluginRuntime =
    | DefaultRuntime
    | FromDocument(config: CpexConfig, tool: HookPair, prompt: HookPair, resource: HookPair)
  {
    function Hooks(operation: Operation): HookPair {
      match this
      case DefaultRuntime => HookPair(false, false)
      case FromDocument(_, tool, prompt, resource) =>
        match operation case Tool => tool case Prompt => prompt case Resource => resource
    }
  }

  /** The library steps: decoding the stored bytes, and building and initializing a plugin manager. */
  datatype Loader = Loader(decode: Bytes -> Option<Document>, manager: CpexConfig -> Option<RuntimeError>)

  predicate Declares(config: CpexConfig, hook: string) {
    exists i | 0 <= i < |config.plugins| :: hook in config.plugins[i].hooks
  }

  predicate SupportedHook(hook: string) {
    exists operation: Operation :: hook == operation.PreHook() || hook == operation.PostHook()
  }

  predicate SupportedConfig(config: CpexConfig) {
    && !config.routingEnabled && !config.failOnPluginError && !config.hasRoutes
    && !config.hasPluginDirs && !config.hasPolicies && !config.hasDefaults
    && forall i | 0 <= i < |config.plugins| ::
         !config.plugins[i].hasConditions && forall hook | hook in config.plugins[i].hooks :: SupportedHook(hook)
  }

  function HookPairOf(config: CpexConfig, operation: Operation): HookPair {
    HookPair(Declares(config, operation.PreHook()), Declares(config, operation.PostHook()))
  }

  function FromConfig(config: CpexConfig, loader: Loader): Result<PluginRuntime, RuntimeError> {
    if !SupportedConfig(config) then Err(Unsupported)
    else
      match loader.manager(config)
      case Some(error) => Err(error)
      case None =>
        Ok(FromDocument(config, HookPairOf(config, Tool), HookPairOf(config, Prompt), HookPairOf(config, Resource)))
  }

  /** A runtime knows a hook exactly when some plugin of its document declares it. */
  lemma HooksAreDeclared(config: CpexConfig, loader: Loader, operation: Operation)
    requires FromConfig(config, loader).Ok?
    ensures var hooks := FromConfig(config, loader).value.Hooks(operation);
            && (hooks.pre <==> Declares(config, operation.PreHook()))
            && (hooks.post <==> Declares(config, operation.PostHook()))
  {
    match operation case Tool => case Prompt => case Resource =>
  }

  // ----- The store -----

  /** What a read of the store yields at one moment. */
  datatype StoreView = Unavailable | Missing | Present(bytes: Bytes)

  datatype Loaded = Loaded(document: Document, fingerprint: Bytes)

  function GetConfig(view: StoreView, loader: Loader): Result<Option<Loaded>, RuntimeError> {
    match view
    case Unavailable => Err(StoreUnavailable)
    case Missing => Ok(None)
    case Present(bytes) =>
      match loader.decode(bytes)
      case None => Err(WrongFormat)
      case Some(document) => Ok(Some(Loaded(document, bytes)))
  }

  function CpexConfigOf(document: Document): Result<CpexConfig, RuntimeError> {
    if document.version != CONFIG_VERSION then Err(WrongFormat) else Ok(document.cpex)
  }

  // ----- The reference: rebuild on every read -----

  datatype RuntimeState = Active(runtime: PluginRuntime) | Failed(error: RuntimeError)

  /** The state that a reload without any memory of earlier reloads gives. */
  function Rebuilt(view: StoreView, loader: Loader): RuntimeState {
    match GetConfig(view, loader)
    case Err(error) => Failed(error)
    case Ok(None) => Failed(ConfigMissing)
    case Ok(Some(loaded)) =>
      match CpexConfigOf(loaded.document)
      case Err(error) => Failed(error)
      case Ok(config) =>
        match FromConfig(config, loader)
        case Err(error) => Failed(error)
        case Ok(runtime) => Active(runtime)
  }

  /** The remembered fingerprint tells the state: the bytes that built it, or none after a failure. */
  predicate InStep(state: RuntimeState, lastApplied: Option<Bytes>, loader: Loader) {
    match lastApplied
    case None => state.Failed?
    case Some(bytes) => state.Active? && state == Rebuilt(Present(bytes), loader)
  }

  class CpexRuntimeRegistry {
    var runtime: RuntimeState
    var watcherStarted: bool
    const hasStore: bool
    const loader: Loader

    constructor (hasStore: bool, loader: Loader)
      ensures this.hasStore == hasStore && this.loader == loader
      ensures runtime == Active(DefaultRuntime) && !watcherStarted
    {
      this.hasStore, this.loader := hasStore, loader;
      runtime, watcherStarted := Active(DefaultRuntime), false;
    }

    /**
      Only a watcher that has forgotten its fingerprint is in step with a failure, so it cannot skip the next reload.
     */
    method SetRuntimeFailed(error: RuntimeError)
      modifies this`runtime
      ensures runtime == Failed(error)
      ensures forall lastApplied :: InStep(runtime, lastApplied, loader) <==> lastApplied.None?
    {
      runtime := Failed(error);
    }

    method ApplyRuntimeConfig(config: Option<CpexConfig>) returns (result: Result<(), RuntimeError>)
      modifies this`runtime
      ensures config.None? ==> result.Ok? && runtime == Active(DefaultRuntime)
      ensures config.Some? ==> (result.Ok? <==> FromConfig(config.value, loader).Ok?)
      ensures config.Some? && result.Ok? ==> runtime == Active(FromConfig(config.value, loader).value)
      ensures result.Err? ==>
                runtime == old(runtime) && config.Some? && FromConfig(config.value, loader) == Err(result.error)
    {
      if config.None? {
        runtime := Active(DefaultRuntime);
        return Ok(());
      }
      var built := FromConfig(config.value, loader);
      match built
      case Err(error) =>
        result := Err(error);
      case Ok(value) =>
        runtime := Active(value);
        result := Ok(());
    }

    /** Everything that can fail, before the failure is recorded. */
    method TryReload(view: StoreView, lastApplied: Option<Bytes>) returns (result: Result<Option<Bytes>, RuntimeError>)
      modifies this`runtime
      ensures result.Ok? && result.value.Some? ==>
                && view == Present(result.value.value)
                && Rebuilt(view, loader).Active? && runtime == Rebuilt(view, loader)
      ensures result == Ok(None) ==>
                && lastApplied.Some? && view == Present(lastApplied.value) && GetConfig(view, loader).Ok?
                && runtime == old(runtime)
      ensures result.Err? ==> Rebuilt(view, loader) == Failed(result.error)
    {
      var fetched := GetConfig(view, loader);
      if fetched.Err? {
        return Err(fetched.error);
      }
      if fetched.value.None? {
        return Err(ConfigMissing);
      }
      var loaded := fetched.value.value;
      if lastApplied == Some(loaded.fingerprint) {
        return Ok(None);
      }
      var config := CpexConfigOf(loaded.document);
      if config.Err? {
        return Err(config.error);
      }
      var applied := ApplyRuntimeConfig(Some(config.value));
      if applied.Err? {
        return Err(applied.error);
      }
      result := Ok(Some(loaded.fingerprint));
    }

    method ReloadRuntime(view: StoreView, lastApplied: Option<Bytes>)
        returns (result: Result<Option<Bytes>, RuntimeError>)
      modifies this`runtime
      ensures !hasStore ==> result == Ok(None) && runtime == old(runtime)
      ensures hasStore && lastApplied.None? ==> runtime == Rebuilt(view, loader)
      ensures hasStore && InStep(old(runtime), lastApplied, loader) ==> runtime == Rebuilt(view, loader)
      ensures hasStore ==>
                match result
                case Err(error) => runtime == Failed(error)
                case Ok(Some(bytes)) =>
                  view == Present(bytes) && runtime.Active? && InStep(runtime, Some(bytes), loader)
                case Ok(None) => lastApplied.Some? && view == Present(lastApplied.value) && runtime == old(runtime)
    {
      if !hasStore {
        return Ok(None);
      }
      result := TryReload(view, lastApplied);
      if result.Err? {
        SetRuntimeFailed(result.error);
      }
    }

    /** Startup: a first reload and, if it succeeds, at most one watcher over the registry's life. */
    method Initialize(view: StoreView) returns (result: Result<Option<ConfigWatcher>, RuntimeError>)
      modifies this
      ensures hasStore ==> runtime == Rebuilt(view, loader)
      ensures hasStore ==> (result.Ok? <==> Rebuilt(view, loader).Active?)
      ensures result.Ok? && result.value.Some? ==>
                && hasStore && !old(watcherStarted) && fresh(result.value.value)
                && result.value.value.registry == this && result.value.value.Valid()
      ensures hasStore && result.Ok? && !old(watcherStarted) ==> result.value.Some? && watcherStarted
      ensures result.Err? ==> watcherStarted == old(watcherStarted)
      ensures old(watcherStarted) ==> watcherStarted
      ensures !hasStore ==> result == Ok(None) && runtime == old(runtime) && watcherStarted == old(watcherStarted)
    {
      var initial := ReloadRuntime(view, None);
      if initial.Err? {
        return Err(initial.error);
      }
      if !hasStore {
        return Ok(None);
      }
      if watcherStarted {
        return Ok(None);
      }
      watcherStarted := true;
      var watcher := new ConfigWatcher(this, initial.value);
      result := Ok(Some(watcher));
    }

    /**
      The runtime a new call gets. While the watcher is in step with the registry, the call is refused exactly if the
      watcher remembers no bytes, and is otherwise served by what a rebuild from the remembered bytes gives.
     */
    method Current() returns (r: Result<PluginRuntime, RuntimeError>)
      ensures forall lastApplied | InStep(runtime, lastApplied, loader) ::
                && (r.Ok? <==> lastApplied.Some?)
                && (r.Ok? ==> Rebuilt(Present(lastApplied.value), loader) == Active(r.value))
      ensures r == match runtime case Active(value) => Ok(value) case Failed(error) => Err(error)
    {
      match runtime
      case Active(value) => r := Ok(value);
      case Failed(error) => r := Err(error);
    }
  }

  class ConfigWatcher {
    const registry: CpexRuntimeRegistry
    var lastAppliedConfig: Option<Bytes>

    ghost predicate Valid()
      reads this, registry
    {
      registry.hasStore && InStep(registry.runtime, lastAppliedConfig, registry.loader)
    }

    constructor (registry: CpexRuntimeRegistry, initial: Option<Bytes>)
      ensures this.registry == registry && lastAppliedConfig == initial
    {
      this.registry, lastAppliedConfig := registry, initial;
    }

    /** One turn of the watcher loop keeps the fingerprint in step and ends where a rebuild would end. */
    method Tick(view: StoreView)
      requires Valid()
      modifies this, registry`runtime
      ensures Valid()
      ensures registry.runtime == Rebuilt(view, registry.loader)
      ensures lastAppliedConfig == Remembered(view, registry.loader)
    {
      var result := registry.ReloadRuntime(view, lastAppliedConfig);
      match result
      case Ok(Some(fingerprint)) => lastAppliedConfig := Some(fingerprint);
      case Ok(None) =>
      case Err(_) => lastAppliedConfig := None;
    }
  }

  /** What is remembered after a reload that reads `view`. */
  function Remembered(view: StoreView, loader: Loader): Option<Bytes> {
    if Rebuilt(view, loader).Active? then Some(view.bytes) else None
  }

  // ----- Runs -----

  /** The store over time: contents that writers set or clear, and outages that hide them. */
  datatype Store = Store(contents: Option<Bytes>, available: bool) {
    function View(): StoreView {
      if !available then Unavailable else if contents.None? then Missing else Present(contents.value)
    }
  }

  datatype Event = Write(bytes: Bytes) | Clear | Outage | Restore | WatcherTick

  /** What a read sees after each event. */
  lemma StoreEvents(store: Store, bytes: Bytes)
    ensures StoreStep(store, Write(bytes)).View() == if store.available then Present(bytes) else Unavailable
    ensures StoreStep(store, Clear).View() == if store.available then Missing else Unavailable
    ensures StoreStep(store, Outage).View() == Unavailable
    ensures StoreStep(StoreStep(store, Write(bytes)), Restore).View() == Present(bytes)
    ensures StoreStep(StoreStep(store, Clear), Restore).View() == Missing
    ensures StoreStep(store, WatcherTick) == store
  {
  }

  datatype Watched = Watched(store: Store, runtime: RuntimeState, lastApplied: Option<Bytes>)

  function StoreStep(store: Store, event: Event): Store {
    match event
    case Write(bytes) => store.(contents := Some(bytes))
    case Clear => store.(contents := None)
    case Outage => store.(available := false)
    case Restore => store.(available := true)
    case WatcherTick => store
  }

  /** The watcher's reload, with its skip on an equal fingerprint. */
  function SkippingTick(s: Watched, loader: Loader): Watched {
    match GetConfig(s.store.View(), loader)
    case Ok(Some(loaded)) =>
      if s.lastApplied == Some(loaded.fingerprint) then s
      else
        var state := Rebuilt(s.store.View(), loader);
        s.(runtime := state, lastApplied := if state.Active? then Some(loaded.fingerprint) else None)
    case _ => s.(runtime := Rebuilt(s.store.View(), loader), lastApplied := None)
  }

  /** The skipping tick of a run is the one that the watcher object performs. */
  lemma SkippingTickRebuilds(s: Watched, loader: Loader)
    requires InStep(s.runtime, s.lastApplied, loader)
    ensures SkippingTick(s, loader)
            == Watched(s.store, Rebuilt(s.store.View(), loader), Remembered(s.store.View(), loader))
  {
    if s.lastApplied.Some? && s.store.View() == Present(s.lastApplied.value) {
      assert s.runtime == Rebuilt(s.store.View(), loader);
    }
  }

  function Step(s: Watched, event: Event, loader: Loader): Watched {
    if event.WatcherTick? then SkippingTick(s, loader) else s.(store := StoreStep(s.store, event))
  }

  function Run(s: Watched, events: seq<Event>, loader: Loader): Watched {
    if events == [] then s else Step(Run(s, events[..|events| - 1], loader), events[|events| - 1], loader)
  }

  /** The same run with an unconditional rebuild at each tick and no memory. */
  function RebuildRun(store: Store, state: RuntimeState, events: seq<Event>, loader: Loader): (Store, RuntimeState) {
    if events == [] then (store, state)
    else
      var (before, current) := RebuildRun(store, state, events[..|events| - 1], loader);
      var event := events[|events| - 1];
      (StoreStep(before, event), if event.WatcherTick? then Rebuilt(before.View(), loader) else current)
  }

  /** The fingerprint skip refines rebuilding at every tick, and stays in step, over every run. */
  lemma {:induction false} SkipRefinesRebuild(s: Watched, events: seq<Event>, loader: Loader)
    requires InStep(s.runtime, s.lastApplied, loader)
    ensures InStep(Run(s, events, loader).runtime, Run(s, events, loader).lastApplied, loader)
    ensures (Run(s, events, loader).store, Run(s, events, loader).runtime)
            == RebuildRun(s.store, s.runtime, events, loader)
  {
    if events != [] {
      SkipRefinesRebuild(s, events[..|events| - 1], loader);
    }
  }

  /** Whatever happened before, one tick over a valid document ends a failure. */
  lemma FailureHeals(s: Watched, events: seq<Event>, loader: Loader)
    requires InStep(s.runtime, s.lastApplied, loader)
    requires Rebuilt(Run(s, events, loader).store.View(), loader).Active?
    ensures Run(s, events + [WatcherTick], loader).runtime == Rebuilt(Run(s, events, loader).store.View(), loader)
    ensures Run(s, events + [WatcherTick], loader).lastApplied == Run(s, events, loader).store.contents
  {
    SkipRefinesRebuild(s, events, loader);
    assert (events + [WatcherTick])[..|events|] == events;
  }

  // ----- Which stored documents give a runtime -----

  const HOOKS: seq<string> := [
    "cmf.tool_pre_invoke", "cmf.tool_post_invoke",
    "cmf.prompt_pre_fetch", "cmf.prompt_post_fetch",
    "cmf.resource_pre_fetch", "cmf.resource_post_fetch"]

  /** Nothing in the document asks for what the gateway does not do. */
  predicate Ordinary(config: CpexConfig) {
    && !config.routingEnabled && !config.failOnPluginError && !config.hasRoutes
    && !config.hasPluginDirs && !config.hasPolicies && !config.hasDefaults
    && forall i, k | 0 <= i < |config.plugins| && 0 <= k < |config.plugins[i].hooks| ::
         config.plugins[i].hooks[k] in HOOKS
  }

  lemma SupportedHooks(hook: string)
    ensures SupportedHook(hook) <==> hook in HOOKS
  {
    forall operation: Operation ensures operation.PreHook() in HOOKS && operation.PostHook() in HOOKS {
      match operation case Tool => assert HOOKS[0] in HOOKS && HOOKS[1] in HOOKS;
                      case Prompt => assert HOOKS[2] in HOOKS && HOOKS[3] in HOOKS;
                      case Resource => assert HOOKS[4] in HOOKS && HOOKS[5] in HOOKS;
    }
    if hook in HOOKS {
      assert || hook == Tool.PreHook() || hook == Tool.PostHook()
             || hook == Prompt.PreHook() || hook == Prompt.PostHook()
             || hook == Resource.PreHook() || hook == Resource.PostHook();
    }
  }

  lemma SupportedIff(config: CpexConfig)
    ensures SupportedConfig(config)
            <==> Ordinary(config) && forall i | 0 <= i < |config.plugins| :: !config.plugins[i].hasConditions
  {
    forall hook ensures SupportedHook(hook) <==> hook in HOOKS {
      SupportedHooks(hook);
    }
    if SupportedConfig(config) {
      forall i, k | 0 <= i < |config.plugins| && 0 <= k < |config.plugins[i].hooks|
        ensures config.plugins[i].hooks[k] in HOOKS
      {
        assert config.plugins[i].hooks[k] in config.plugins[i].hooks;
      }
    }
  }

  /** Some plugin of the document lists the hook. */
  predicate Listed(config: CpexConfig, hook: string) {
    exists i, k | 0 <= i < |config.plugins| && 0 <= k < |config.plugins[i].hooks| :: config.plugins[i].hooks[k] == hook
  }

  lemma ListedIffDeclared(config: CpexConfig, hook: string)
    ensures Declares(config, hook) <==> Listed(config, hook)
  {
  }

  /**
    A read of the store gives an active runtime exactly if a document is there, decodes, has version 1, asks for
    nothing unsupported, and its manager starts; the runtime then has the hooks that the document lists.
   */
  lemma RebuiltIff(view: StoreView, loader: Loader)
    ensures Rebuilt(view, loader).Active?
            <==> && view.Present? && loader.decode(view.bytes).Some?
                 && var document := loader.decode(view.bytes).value;
                    && document.version == 1 && Ordinary(document.cpex)
                    && (forall i | 0 <= i < |document.cpex.plugins| :: !document.cpex.plugins[i].hasConditions)
                    && loader.manager(document.cpex) == None
    ensures Rebuilt(view, loader).Active? ==>
              var config := loader.decode(view.bytes).value.cpex;
              Rebuilt(view, loader).runtime
              == FromDocument(config,
                              HookPair(Listed(config, "cmf.tool_pre_invoke"), Listed(config, "cmf.tool_post_invoke")),
                              HookPair(Listed(config, "cmf.prompt_pre_fetch"), Listed(config, "cmf.prompt_post_fetch")),
                              HookPair(Listed(config, "cmf.resource_pre_fetch"),
                                       Listed(config, "cmf.resource_post_fetch")))
  {
    if view.Present? && loader.decode(view.bytes).Some? {
      var config := loader.decode(view.bytes).value.cpex;
      SupportedIff(config);
      forall hook ensures Declares(config, hook) <==> Listed(config, hook) {
        ListedIffDeclared(config, hook);
      }
    }
  }

  /** Each way to fail has its own error. */
  lemma RebuildErrors(view: StoreView, loader: Loader)
    ensures view.Unavailable? ==> Rebuilt(view, loader) == Failed(StoreUnavailable)
    ensures view.Missing? ==> Rebuilt(view, loader) == Failed(ConfigMissing)
    ensures view.Present? && loader.decode(view.bytes) == None ==> Rebuilt(view, loader) == Failed(WrongFormat)
    ensures view.Present? && loader.decode(view.bytes).Some? ==>
              var document := loader.decode(view.bytes).value;
              && (document.version != 1 ==> Rebuilt(view, loader) == Failed(WrongFormat))
              && (document.version == 1 && !SupportedConfig(document.cpex) ==>
                    Rebuilt(view, loader) == Failed(Unsupported))
              && (document.version == 1 && SupportedConfig(document.cpex) && loader.manager(document.cpex).Some? ==>
                    Rebuilt(view, loader) == Failed(loader.manager(document.cpex).value))
  {
  }
}

/**
 * The servlet lifecycle of ExhibitorServletContextListener: contextInitialized
 * builds, starts and publishes the Exhibitor; contextDestroyed closes it and
 * every closeable its creator registered.
 */
module Lifecycle {
  import opened Wrappers
  import opened Arguments
  import opened RemoteAuth

  /** The attribute the running Exhibitor is published under: the listener's class name. */
  const ListenerAttribute: string := "com.netflix.exhibitor.servlet.ExhibitorServletContextListener"

  // Collaborators, known only by identity.
  datatype ConfigProvider = ConfigProvider(id: nat)
  datatype BackupProvider = BackupProvider(id: nat)
  datatype Closeable = Closeable(id: nat)
  datatype Exhibitor = Exhibitor(id: nat)

  /** An ExhibitorCreator, seen through its getters. */
  datatype ExhibitorCreator = ExhibitorCreator(
    configProvider: ConfigProvider,
    backupProvider: Option<BackupProvider>,
    builder: ArgumentsBuilder,
    closeables: seq<Closeable>)

  /** What ExhibitorArguments.Builder.build() hands to the Exhibitor. */
  datatype ExhibitorArguments = ExhibitorArguments(
    settings: map<string, string>,
    remoteConnection: Option<RemoteConnectionConfiguration>)

  function Build(builder: ArgumentsBuilder): ExhibitorArguments
  {
    ExhibitorArguments(builder.settings, builder.remoteConnection)
  }

  /** The exceptions the three catch arms of contextInitialized tell apart. */
  datatype Cause =
    | MissingConfigurationType             // MissingConfigurationTypeException
    | CreatorExit(error: Option<string>)   // ExhibitorCreatorExit, with its optional message
    | Unexpected(problem: Problem)         // any other Exception

  /** Where an exception of the third kind came from. */
  datatype Problem =
    | CreatorFailed(message: string)
    | RemoteAuthFailed(error: AuthError)
    | ConstructionFailed(message: string)
    | StartFailed(message: string)

  /** contextInitialized returns normally or throws a RuntimeException wrapping the cause. */
  datatype RuntimeException = RuntimeException(cause: Cause)
  datatype InitOutcome = Initialized | Threw(exception: RuntimeException)

  /**
   * Everything contextInitialized consults: the bundled resource, the system
   * properties, the name of the remote-authorization option, and the
   * collaborators it calls (each result a normal return or a thrown cause).
   */
  datatype Environment = Environment(
    resource: PropertiesResource,
    system: map<string, string>,
    remoteAuthOption: string,
    newCreator: seq<string> -> Result<ExhibitorCreator, Cause>,
    decode: string -> string,
    newExhibitor: (ConfigProvider, Option<BackupProvider>, ExhibitorArguments) -> Result<Exhibitor, string>,
    start: Exhibitor -> Option<string>)

  /** Something the listener can close. */
  datatype Handle = ExhibitorHandle(exhibitor: Exhibitor) | CloseableHandle(closeable: Closeable)

  /** A call the listener makes on a collaborator. */
  datatype Call = Start(exhibitor: Exhibitor) | CloseQuietly(target: Handle, threw: bool)

  // ------------------------------------------------------------ teardown

  /** Closing each closeable quietly, in order; `throws` says which closes throw an IOException. */
  function CloseAll(closeables: seq<Closeable>, throws: Handle -> bool): (calls: seq<Call>)
  {
    if closeables == [] then []
    else
      var h := CloseableHandle(closeables[0]);
      [CloseQuietly(h, throws(h))] + CloseAll(closeables[1..], throws)
  }

  /** One quiet close per closeable, in order, each recording whether it threw. */
  lemma {:induction false} CloseAllSpec(closeables: seq<Closeable>, throws: Handle -> bool)
    ensures |CloseAll(closeables, throws)| == |closeables|
    ensures forall i :: 0 <= i < |closeables| ==>
      CloseAll(closeables, throws)[i] ==
        CloseQuietly(CloseableHandle(closeables[i]), throws(CloseableHandle(closeables[i])))
  {
    if closeables != [] {
      CloseAllSpec(closeables[1..], throws);
    }
  }

  /** The calls contextDestroyed makes for the given field values. */
  function TeardownCalls(exhibitor: Option<Exhibitor>, creator: Option<ExhibitorCreator>, throws: Handle -> bool)
    : seq<Call>
  {
    (match exhibitor
     case Some(e) => [CloseQuietly(ExhibitorHandle(e), throws(ExhibitorHandle(e)))]
     case None => [])
    + (match creator
       case Some(c) => CloseAll(c.closeables, throws)
       case None => [])
  }

  /** What contextDestroyed must close, in order: the Exhibitor, then every registered closeable. */
  function TeardownTargets(exhibitor: Option<Exhibitor>, creator: Option<ExhibitorCreator>): seq<Handle>
  {
    (if exhibitor.Some? then [ExhibitorHandle(exhibitor.value)] else [])
    + (if creator.Some? then seq(|creator.value.closeables|, i requires 0 <= i < |creator.value.closeables| =>
                                   CloseableHandle(creator.value.closeables[i]))
       else [])
  }

  /**
   * Teardown attempts every target once, in order, whichever of the closes
   * throw: a failure is recorded and the next close still happens.
   */
  lemma TeardownAttemptsAll(exhibitor: Option<Exhibitor>, creator: Option<ExhibitorCreator>, throws: Handle -> bool)
    ensures var calls, targets := TeardownCalls(exhibitor, creator, throws), TeardownTargets(exhibitor, creator);
      && |calls| == |targets|
      && forall i :: 0 <= i < |targets| ==> calls[i] == CloseQuietly(targets[i], throws(targets[i]))
  {
    var calls, targets := TeardownCalls(exhibitor, creator, throws), TeardownTargets(exhibitor, creator);
    var offset := if exhibitor.Some? then 1 else 0;
    if creator.Some? {
      var cs := creator.value.closeables;
      CloseAllSpec(cs, throws);
      forall i | offset <= i < |targets|
        ensures calls[i] == CloseQuietly(targets[i], throws(targets[i]))
      {
        assert calls[i] == CloseAll(cs, throws)[i - offset];
      }
    }
  }

  /** With both fields null, teardown does nothing. */
  lemma TeardownIdle(throws: Handle -> bool)
    ensures TeardownCalls(None, None, throws) == []
  {
  }

  /** Teardown is the Exhibitor's close followed by the creator's closes. */
  lemma TeardownSplit(exhibitor: Option<Exhibitor>, creator: Option<ExhibitorCreator>, throws: Handle -> bool)
    ensures TeardownCalls(exhibitor, creator, throws) ==
      TeardownCalls(exhibitor, None, throws) + TeardownCalls(None, creator, throws)
  {
    var first := match exhibitor
      case Some(e) => [CloseQuietly(ExhibitorHandle(e), throws(ExhibitorHandle(e)))]
      case None => [];
    var rest := match creator
      case Some(c) => CloseAll(c.closeables, throws)
      case None => [];
    calc {
      TeardownCalls(exhibitor, None, throws) + TeardownCalls(None, creator, throws);
      (first + []) + ([] + rest);
      { assert first + [] == first && [] + rest == rest; }
      first + rest;
    }
  }

  /**
   * A second teardown, the first having cleared the Exhibitor but kept the
   * creator, repeats the closeables' closes and never closes the Exhibitor again.
   */
  lemma RepeatedTeardown(creator: ExhibitorCreator, throws: Handle -> bool)
    ensures var again := TeardownCalls(None, Some(creator), throws);
      forall i :: 0 <= i < |again| ==> again[i].CloseQuietly? && again[i].target.CloseableHandle?
  {
    var again := CloseAll(creator.closeables, throws);
    assert TeardownCalls(None, Some(creator), throws) == [] + again;
    CloseAllSpec(creator.closeables, throws);
    forall i | 0 <= i < |again|
      ensures again[i].CloseQuietly? && again[i].target.CloseableHandle?
    {
      assert again[i] == CloseQuietly(CloseableHandle(creator.closeables[i]), throws(CloseableHandle(creator.closeables[i])));
    }
  }

  // ------------------------------------------------------ initialisation

  /** argsBuilder.get("--" + option): null when absent. */
  function RemoteAuthSpec(argsBuilder: map<string, string>, option: string): Option<string>
  {
    if "--" + option in argsBuilder then Some(argsBuilder["--" + option]) else None
  }

  /** What one run of contextInitialized leaves behind. */
  datatype InitEffect = InitEffect(
    exhibitor: Option<Exhibitor>,
    creator: Option<ExhibitorCreator>,
    calls: seq<Call>,
    published: Option<Exhibitor>,
    outcome: InitOutcome)

  /**
   * contextInitialized step by step, given the argument array `argv` handed to
   * the creator, the map it came from and the fields' values before the call.
   */
  function Initialization(env: Environment, argv: seq<string>, argsBuilder: map<string, string>,
                          exhibitor: Option<Exhibitor>, creator: Option<ExhibitorCreator>): InitEffect
  {
    match env.newCreator(argv)
    case Failure(cause) => InitEffect(exhibitor, creator, [], None, Threw(RuntimeException(cause)))
    case Success(c) =>
      match AddRemoteAuth(c.builder, RemoteAuthSpec(argsBuilder, env.remoteAuthOption), env.decode)
      case Failure(error) =>
        InitEffect(exhibitor, Some(c), [], None, Threw(RuntimeException(Unexpected(RemoteAuthFailed(error)))))
      case Success(builder) =>
        match env.newExhibitor(c.configProvider, c.backupProvider, Build(builder))
        case Failure(message) =>
          InitEffect(exhibitor, Some(c), [], None, Threw(RuntimeException(Unexpected(ConstructionFailed(message)))))
        case Success(e) =>
          match env.start(e)
          case Some(message) =>
            InitEffect(Some(e), Some(c), [Start(e)], None, Threw(RuntimeException(Unexpected(StartFailed(message)))))
          case None => InitEffect(Some(e), Some(c), [Start(e)], Some(e), Initialized)
  }

  /** The Exhibitor is published only once its start() returned normally, and then the call succeeds. */
  lemma PublishedOnlyAfterStart(env: Environment, argv: seq<string>, argsBuilder: map<string, string>,
                                exhibitor: Option<Exhibitor>, creator: Option<ExhibitorCreator>)
    ensures var effect := Initialization(env, argv, argsBuilder, exhibitor, creator);
      effect.published.Some? <==> effect.outcome == Initialized
    ensures var effect := Initialization(env, argv, argsBuilder, exhibitor, creator);
      effect.published.Some? ==>
        && effect.calls == [Start(effect.published.value)]
        && env.start(effect.published.value) == None
        && effect.exhibitor == effect.published
  {
  }

  /**
   * Every failure ends in a RuntimeException with nothing published; the
   * three kinds of the creator's exceptions keep their kind, the fields
   * assigned before the failure keep their values, and an Exhibitor is
   * started exactly when one was constructed, once, and stored.
   */
  lemma FailureKeepsAssignedFields(env: Environment, argv: seq<string>, argsBuilder: map<string, string>,
                                   exhibitor: Option<Exhibitor>, creator: Option<ExhibitorCreator>)
    ensures var effect := Initialization(env, argv, argsBuilder, exhibitor, creator);
      effect.outcome.Threw? ==> effect.published == None
    ensures var effect := Initialization(env, argv, argsBuilder, exhibitor, creator);
      env.newCreator(argv).Failure? ==>
        effect == InitEffect(exhibitor, creator, [], None, Threw(RuntimeException(env.newCreator(argv).error)))
    ensures var effect := Initialization(env, argv, argsBuilder, exhibitor, creator);
      env.newCreator(argv).Success? ==> effect.creator == Some(env.newCreator(argv).value)
    ensures var effect := Initialization(env, argv, argsBuilder, exhibitor, creator);
      effect.calls != [] <==>
        && env.newCreator(argv).Success?
        && var c := env.newCreator(argv).value;
           var decorated := AddRemoteAuth(c.builder, RemoteAuthSpec(argsBuilder, env.remoteAuthOption), env.decode);
           && decorated.Success?
           && env.newExhibitor(c.configProvider, c.backupProvider, Build(decorated.value)).Success?
    ensures var effect := Initialization(env, argv, argsBuilder, exhibitor, creator);
      effect.calls == [] ==> effect.exhibitor == exhibitor
    ensures var effect := Initialization(env, argv, argsBuilder, exhibitor, creator);
      effect.calls != [] ==> effect.exhibitor.Some? && effect.calls == [Start(effect.exhibitor.value)]
  {
  }

  /**
   * Teardown after a failed first initialisation closes what was assigned:
   * the registered closeables once the creator exists, and the Exhibitor
   * once it was constructed (its start having failed).
   */
  lemma TeardownAfterFailedInit(env: Environment, argv: seq<string>, argsBuilder: map<string, string>,
                                throws: Handle -> bool)
    requires Initialization(env, argv, argsBuilder, None, None).outcome.Threw?
    ensures var effect := Initialization(env, argv, argsBuilder, None, None);
      TeardownTargets(effect.exhibitor, effect.creator) ==
        (match effect.exhibitor case Some(e) => [ExhibitorHandle(e)] case None => [])
        + (match env.newCreator(argv)
           case Success(c) => seq(|c.closeables|, i requires 0 <= i < |c.closeables| => CloseableHandle(c.closeables[i]))
           case Failure(_) => [])
    ensures var effect := Initialization(env, argv, argsBuilder, None, None);
      effect.exhibitor.Some? ==> env.start(effect.exhibitor.value).Some?
  {
    var effect := Initialization(env, argv, argsBuilder, None, None);
    match env.newCreator(argv)
    case Failure(_) =>
      assert effect.exhibitor == None && effect.creator == None;
    case Success(c) =>
      assert effect.creator == Some(c);
  }

  /** The ServletContext's attribute store. */
  class ServletContext {
    var attributes: map<string, Exhibitor>

    constructor ()
      ensures attributes == map[]
    {
      attributes := map[];
    }
  }

  class ExhibitorServletContextListener {
    var exhibitor: Option<Exhibitor>
    var exhibitorCreator: Option<ExhibitorCreator>
    /** The calls made on collaborators so far. */
    ghost var calls: seq<Call>

    constructor ()
      ensures exhibitor == None && exhibitorCreator == None && calls == []
    {
      exhibitor := None;
      exhibitorCreator := None;
      calls := [];
    }

    /**
     * contextInitialized: `argv` is the argument array built from the merged
     * properties (its order is the map's iteration order).
     */
    method ContextInitialized(env: Environment, context: ServletContext)
      returns (outcome: InitOutcome, ghost argv: seq<string>)
      modifies this, context
      ensures |argv| == 2 * |MergedArgs(env.resource, env.system)|
      ensures PairsOf(argv) == MergedArgs(env.resource, env.system)
      ensures var effect := Initialization(env, argv, MergedArgs(env.resource, env.system),
                                           old(exhibitor), old(exhibitorCreator));
        && exhibitor == effect.exhibitor
        && exhibitorCreator == effect.creator
        && calls == old(calls) + effect.calls
        && outcome == effect.outcome
        && context.attributes == match effect.published
                                 case Some(e) => old(context.attributes)[ListenerAttribute := e]
                                 case None => old(context.attributes)
    {
      var argsBuilder := MakeArgsBuilder(env.resource, env.system);
      ghost var order;
      var args;
      args, order := ToArgsArray(argsBuilder);
      argv := args;
      outcome := CreateAndStart(env, args, argsBuilder, context);
    }

    /** The try block of contextInitialized, from the creator's construction on. */
    method CreateAndStart(env: Environment, args: seq<string>, argsBuilder: map<string, string>,
                          context: ServletContext)
      returns (outcome: InitOutcome)
      modifies this, context
      ensures var effect := Initialization(env, args, argsBuilder, old(exhibitor), old(exhibitorCreator));
        && exhibitor == effect.exhibitor
        && exhibitorCreator == effect.creator
        && calls == old(calls) + effect.calls
        && outcome == effect.outcome
        && context.attributes == match effect.published
                                 case Some(e) => old(context.attributes)[ListenerAttribute := e]
                                 case None => old(context.attributes)
    {
      var created := env.newCreator(args);
      if created.Failure? {
        outcome := Threw(RuntimeException(created.error));
        return;
      }
      exhibitorCreator := Some(created.value);
      var creator := created.value;

      var remoteAuthSpec := RemoteAuthSpec(argsBuilder, env.remoteAuthOption);
      var decorated := AddRemoteAuth(creator.builder, remoteAuthSpec, env.decode);
      if decorated.Failure? {
        outcome := Threw(RuntimeException(Unexpected(RemoteAuthFailed(decorated.error))));
        return;
      }
      var constructed := env.newExhibitor(creator.configProvider, creator.backupProvider, Build(decorated.value));
      if constructed.Failure? {
        outcome := Threw(RuntimeException(Unexpected(ConstructionFailed(constructed.error))));
        return;
      }
      exhibitor := Some(constructed.value);
      var e := constructed.value;

      calls := calls + [Start(e)];
      var startFailure := env.start(e);
      if startFailure.Some? {
        outcome := Threw(RuntimeException(Unexpected(StartFailed(startFailure.value))));
        return;
      }
      context.attributes := context.attributes[ListenerAttribute := e];
      outcome := Initialized;
    }

    /**
     * contextDestroyed: close and clear a non-null Exhibitor, then close every
     * closeable of a non-null creator, each quietly; the creator stays set.
     */
    method ContextDestroyed(throws: Handle -> bool)
      modifies this
      ensures exhibitor == None
      ensures exhibitorCreator == old(exhibitorCreator)
      ensures calls == old(calls) + TeardownCalls(old(exhibitor), old(exhibitorCreator), throws)
    {
      if exhibitor.Some? {
        var h := ExhibitorHandle(exhibitor.value);
        calls := calls + [CloseQuietly(h, throws(h))];
        exhibitor := None;
      }
      ghost var afterExhibitor := calls;
      if exhibitorCreator.Some? {
        var closeables := exhibitorCreator.value.closeables;
        var i := 0;
        while i < |closeables|
          invariant 0 <= i <= |closeables|
          invariant exhibitor == None && exhibitorCreator == old(exhibitorCreator)
          invariant calls == afterExhibitor + CloseAll(closeables[..i], throws)
        {
          var h := CloseableHandle(closeables[i]);
          assert closeables[..i + 1] == closeables[..i] + [closeables[i]];
          CloseAllSnoc(closeables[..i], closeables[i], throws);
          calls := calls + [CloseQuietly(h, throws(h))];
          i := i + 1;
        }
        assert closeables[..i] == closeables;
      }
    }
  }

  lemma {:induction false} CloseAllSnoc(closeables: seq<Closeable>, last: Closeable, throws: Handle -> bool)
    ensures CloseAll(closeables + [last], throws) ==
      CloseAll(closeables, throws) + [CloseQuietly(CloseableHandle(last), throws(CloseableHandle(last)))]
  {
    if closeables != [] {
      assert (closeables + [last])[1..] == closeables[1..] + [last];
      CloseAllSnoc(closeables[1..], last, throws);
    }
  }
}

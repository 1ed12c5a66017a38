/**
 * The wrapping analyzer and its proxy contexts (the DynamicAnalyzerLoader
 * namespace). Every registration a plugin makes goes through a proxy, which
 * forwards it to the host's context with the same scope and kinds; when the
 * host later runs the callback, the plugin's action receives a wrapped context
 * whose reports pass the gate, or, for a start scope, a fresh proxy over the
 * host's start context. The semantics at the end of the module states what
 * reaches the host when it runs forwarded callbacks, and proves that it is
 * the gate applied, in order, to everything the plugin reported, however
 * deeply its registrations are nested.
 */
module DynamicAnalyzerLoader {
  import opened Common
  import opened Diagnostics
  import opened AnalysisContexts
  import opened ReportGate
  import opened AnalyzerLoader
  import Enablement

  // -----------------------------------------------------------------------
  // What each context offers a plugin.

  /** The three registration contexts a plugin can be handed. */
  datatype Level = AnalysisLevel | CompilationStartLevel | CodeBlockStartLevel

  /** The scopes each context's Register methods cover. */
  predicate AllowedAt(level: Level, scope: Scope)
  {
    match level
    case AnalysisLevel => scope != CompilationEndScope && scope != CodeBlockEndScope
    case CompilationStartLevel =>
      scope != CompilationScope && scope != CompilationStartScope && scope != CodeBlockEndScope
    case CodeBlockStartLevel => scope == CodeBlockEndScope || scope == SyntaxNodeScope
  }

  /** A request that matches one of the context's Register methods: only symbol and syntax-node actions take kinds. */
  predicate Fits(level: Level, q: Request)
  {
    AllowedAt(level, q.scope) && (q.scope == SymbolScope || q.scope == SyntaxNodeScope || q.kinds == [])
  }

  /** The context a start scope hands out. */
  function NestedLevel(scope: Scope): Level
  {
    if scope == CompilationStartScope then CompilationStartLevel else CodeBlockStartLevel
  }

  /**
   * A request a plugin can make at this level: it fits a Register method, an
   * action callback only reports, and a start callback only registers
   * requests that fit the start context it receives.
   */
  predicate WellFormed(level: Level, q: Request)
    decreases q
  {
    Fits(level, q) &&
    match q.action
    case ReportAll(_) => !q.scope.IsStart()
    case RegisterAll(reqs) =>
      q.scope.IsStart() && forall i | 0 <= i < |reqs| :: WellFormed(NestedLevel(q.scope), reqs[i])
  }

  /** A plugin whose Initialize only makes well-formed requests. */
  predicate WellFormedPlugin(p: Plugin)
  {
    forall q | q in p.initialize :: WellFormed(AnalysisLevel, q)
  }

  // -----------------------------------------------------------------------
  // Forwarding.

  /**
   * The registration a proxy makes on the host for a request: the same
   * scope, kinds and action; start scopes hand the action a fresh proxy,
   * every other scope a wrapped context.
   */
  function Forward(q: Request): (r: Registration)
    ensures r.scope == q.scope && r.kinds == q.kinds && r.callback.action == q.action
    ensures r.callback.ThroughWrappingCompilationStart? <==> q.scope == CompilationStartScope
    ensures r.callback.ThroughWrappingCodeBlockStart? <==> q.scope == CodeBlockStartScope
    ensures r.callback.ThroughWrappedContext? <==> !q.scope.IsStart()
  {
    Registration(q.scope, q.kinds,
      if q.scope == CompilationStartScope then ThroughWrappingCompilationStart(q.action)
      else if q.scope == CodeBlockStartScope then ThroughWrappingCodeBlockStart(q.action)
      else ThroughWrappedContext(q.action))
  }

  function ForwardAll(reqs: seq<Request>): (r: seq<Registration>)
    ensures |r| == |reqs| && forall i | 0 <= i < |reqs| :: r[i] == Forward(reqs[i])
  {
    seq(|reqs|, i requires 0 <= i < |reqs| => Forward(reqs[i]))
  }

  lemma ForwardAllSnoc(reqs: seq<Request>, i: nat)
    requires i < |reqs|
    ensures ForwardAll(reqs[..i + 1]) == ForwardAll(reqs[..i]) + [Forward(reqs[i])]
  {
  }

  /** The registrations all plugins' Initialize methods leave on the host context, plugin by plugin. */
  function InitializeAll(plugins: seq<Plugin>): seq<Registration>
  {
    if plugins == [] then []
    else InitializeAll(plugins[..|plugins| - 1]) + ForwardAll(plugins[|plugins| - 1].initialize)
  }

  /** The outcome of Initialize: it throws a null reference when no analyzer list was built. */
  datatype InitializeOutcome = Initialized | NullReference

  // -----------------------------------------------------------------------
  // The wrapping analyzer.

  /** The types found in the assemblies at the given paths, in path order. */
  function AssembliesAt(paths: seq<string>, loadAssembly: string -> seq<AnalyzerType>): seq<seq<AnalyzerType>>
  {
    seq(|paths|, i requires 0 <= i < |paths| => loadAssembly(paths[i]))
  }

  class WrappingAnalyzer {
    /** The plugin analyzers; absent when no plugin path was configured. */
    const analyzers: Option<seq<Plugin>>
    /** The re-issued descriptors, by Id. */
    const newDiagnosticDescriptors: map<string, Descriptor>
    /** The process-wide switches, shared with the host and the IDE package. */
    const switches: Enablement.RuleSwitches

    constructor(analyzers: Option<seq<Plugin>>, descriptors: map<string, Descriptor>,
                switches: Enablement.RuleSwitches)
      ensures this.analyzers == analyzers && newDiagnosticDescriptors == descriptors
      ensures this.switches == switches
    {
      this.analyzers := analyzers;
      newDiagnosticDescriptors := descriptors;
      this.switches := switches;
    }

    /**
     * The source's constructor. With no plugin paths there is no analyzer
     * list and no descriptor; otherwise the analyzer types of every assembly
     * are instantiated and their supported descriptors re-issued by Id. A
     * throwing plugin constructor and a repeated Id both make it fail.
     */
    static method Create(analyzerPaths: seq<string>, loadAssembly: string -> seq<AnalyzerType>,
                         switches: Enablement.RuleSwitches)
      returns (r: Result<WrappingAnalyzer, LoadError>)
      ensures r.Success? ==> fresh(r.value) && r.value.switches == switches
      ensures analyzerPaths == [] ==>
                r.Success? && r.value.analyzers == None && r.value.newDiagnosticDescriptors == map[]
      ensures analyzerPaths != [] ==>
                var plugins := InstantiateAll(GetAnalyzerTypes(AssembliesAt(analyzerPaths, loadAssembly)));
                (plugins.Failure? ==> r == Failure(plugins.error)) &&
                (plugins.Success? ==>
                   var m := DescriptorMap(AllSupportedDiagnostics(plugins.value));
                   (m.Failure? ==> r == Failure(m.error)) &&
                   (m.Success? ==> r.Success? && r.value.analyzers == Some(plugins.value) &&
                                   r.value.newDiagnosticDescriptors == m.value))
    {
      if analyzerPaths == [] {
        var w := new WrappingAnalyzer(None, map[], switches);
        return Success(w);
      }
      var types := GetAnalyzerTypes(AssembliesAt(analyzerPaths, loadAssembly));
      var plugins := InstantiateAll(types);
      if plugins.Failure? {
        return Failure(plugins.error);
      }
      var built := BuildDescriptorMap(AllSupportedDiagnostics(plugins.value));
      if built.Failure? {
        return Failure(built.error);
      }
      var w := new WrappingAnalyzer(Some(plugins.value), built.value, switches);
      return Success(w);
    }

    /** SupportedDiagnostics: the re-issued descriptors. */
    function SupportedDiagnostics(): set<Descriptor>
      reads this
    {
      newDiagnosticDescriptors.Values
    }

    /**
     * ReportIfEnabled: hands the host's report action the gated diagnostic,
     * once, or does not call it at all.
     */
    method ReportIfEnabled(report: DiagnosticSink, d: Diagnostic)
      modifies report
      ensures report.reported == old(report.reported) +
                OptionToSeq(ReportGate.ReportIfEnabled(switches.disabledDiagnosticIds, newDiagnosticDescriptors, d))
    {
      if d.Id() in switches.disabledDiagnosticIds {
        return;
      }
      if d.Id() !in newDiagnosticDescriptors {
        return;
      }
      var descriptor := newDiagnosticDescriptors[d.Id()];
      report.Report(Diagnostic(descriptor, d.location, d.additionalLocations, d.properties, d.messageArgs));
    }

    /**
     * Initialize: each plugin's Initialize runs against a fresh proxy over the
     * host context, so the host receives every plugin's requests forwarded,
     * plugin by plugin. Without an analyzer list it throws.
     */
    method Initialize(context: HostAnalysisContext) returns (outcome: InitializeOutcome)
      requires analyzers.Some? ==> forall p | p in analyzers.value :: WellFormedPlugin(p)
      modifies context
      ensures analyzers.None? ==> outcome == NullReference && context.registrations == old(context.registrations)
      ensures analyzers.Some? ==>
                outcome == Initialized &&
                context.registrations == old(context.registrations) + InitializeAll(analyzers.value)
    {
      if analyzers.None? {
        return NullReference;
      }
      var plugins := analyzers.value;
      var i := 0;
      while i < |plugins|
        invariant 0 <= i <= |plugins|
        invariant context.registrations == old(context.registrations) + InitializeAll(plugins[..i])
      {
        var wrapping := new WrappingAnalysisContext(context, this);
        assert plugins[i] in plugins;
        wrapping.Apply(plugins[i].initialize);
        assert plugins[..i + 1][..i] == plugins[..i];
        i := i + 1;
      }
      assert plugins[..i] == plugins;
      return Initialized;
    }
  }

  // -----------------------------------------------------------------------
  // The proxies.

  /** The proxy a plugin's Initialize receives; it forwards to the host's analysis context. */
  class WrappingAnalysisContext {
    const context: HostAnalysisContext
    const wrappingAnalyzer: WrappingAnalyzer

    constructor(context: HostAnalysisContext, wrappingAnalyzer: WrappingAnalyzer)
      ensures this.context == context && this.wrappingAnalyzer == wrappingAnalyzer
    {
      this.context := context;
      this.wrappingAnalyzer := wrappingAnalyzer;
    }

    method RegisterCompilationAction(action: PluginAction)
      modifies context
      ensures context.registrations ==
                old(context.registrations) + [Registration(CompilationScope, [], ThroughWrappedContext(action))]
    {
      context.Register(Registration(CompilationScope, [], ThroughWrappedContext(action)));
    }

    method RegisterSemanticModelAction(action: PluginAction)
      modifies context
      ensures context.registrations ==
                old(context.registrations) + [Registration(SemanticModelScope, [], ThroughWrappedContext(action))]
    {
      context.Register(Registration(SemanticModelScope, [], ThroughWrappedContext(action)));
    }

    method RegisterSymbolAction(action: PluginAction, symbolKinds: seq<nat>)
      modifies context
      ensures context.registrations ==
                old(context.registrations) + [Registration(SymbolScope, symbolKinds, ThroughWrappedContext(action))]
    {
      context.Register(Registration(SymbolScope, symbolKinds, ThroughWrappedContext(action)));
    }

    method RegisterCompilationStartAction(action: PluginAction)
      modifies context
      ensures context.registrations ==
                old(context.registrations) +
                [Registration(CompilationStartScope, [], ThroughWrappingCompilationStart(action))]
    {
      context.Register(Registration(CompilationStartScope, [], ThroughWrappingCompilationStart(action)));
    }

    method RegisterCodeBlockStartAction(action: PluginAction)
      modifies context
      ensures context.registrations ==
                old(context.registrations) + [Registration(CodeBlockStartScope, [], ThroughWrappingCodeBlockStart(action))]
    {
      context.Register(Registration(CodeBlockStartScope, [], ThroughWrappingCodeBlockStart(action)));
    }

    method RegisterCodeBlockAction(action: PluginAction)
      modifies context
      ensures context.registrations ==
                old(context.registrations) + [Registration(CodeBlockScope, [], ThroughWrappedContext(action))]
    {
      context.Register(Registration(CodeBlockScope, [], ThroughWrappedContext(action)));
    }

    method RegisterSyntaxTreeAction(action: PluginAction)
      modifies context
      ensures context.registrations ==
                old(context.registrations) + [Registration(SyntaxTreeScope, [], ThroughWrappedContext(action))]
    {
      context.Register(Registration(SyntaxTreeScope, [], ThroughWrappedContext(action)));
    }

    method RegisterSyntaxNodeAction(action: PluginAction, syntaxKinds: seq<nat>)
      modifies context
      ensures context.registrations ==
                old(context.registrations) + [Registration(SyntaxNodeScope, syntaxKinds, ThroughWrappedContext(action))]
    {
      context.Register(Registration(SyntaxNodeScope, syntaxKinds, ThroughWrappedContext(action)));
    }

    /** A plugin's Initialize: its requests, in order, each through the matching Register method. */
    method Apply(requests: seq<Request>)
      requires forall q | q in requests :: Fits(AnalysisLevel, q)
      modifies context
      ensures context.registrations == old(context.registrations) + ForwardAll(requests)
    {
      var i := 0;
      while i < |requests|
        invariant 0 <= i <= |requests|
        invariant context.registrations == old(context.registrations) + ForwardAll(requests[..i])
      {
        var q := requests[i];
        assert q in requests;
        match q.scope {
          case CompilationScope => RegisterCompilationAction(q.action);
          case SemanticModelScope => RegisterSemanticModelAction(q.action);
          case SymbolScope => RegisterSymbolAction(q.action, q.kinds);
          case CompilationStartScope => RegisterCompilationStartAction(q.action);
          case CodeBlockStartScope => RegisterCodeBlockStartAction(q.action);
          case CodeBlockScope => RegisterCodeBlockAction(q.action);
          case SyntaxTreeScope => RegisterSyntaxTreeAction(q.action);
          case SyntaxNodeScope => RegisterSyntaxNodeAction(q.action, q.kinds);
          case CompilationEndScope => assert false;
          case CodeBlockEndScope => assert false;
        }
        ForwardAllSnoc(requests, i);
        i := i + 1;
      }
      assert requests[..i] == requests;
    }
  }

  /** The proxy a plugin's compilation-start action receives. */
  class WrappingCompilationStartAnalysisContext {
    const context: HostCompilationStartContext
    const wrappingAnalyzer: WrappingAnalyzer
    const compilation: nat
    const options: nat
    const cancellationToken: nat

    /** The compilation, options and cancellation token are the host context's. */
    constructor(context: HostCompilationStartContext, wrappingAnalyzer: WrappingAnalyzer)
      ensures this.context == context && this.wrappingAnalyzer == wrappingAnalyzer
      ensures compilation == context.compilation && options == context.options
      ensures cancellationToken == context.cancellationToken
    {
      this.context := context;
      this.wrappingAnalyzer := wrappingAnalyzer;
      compilation := context.compilation;
      options := context.options;
      cancellationToken := context.cancellationToken;
    }

    method RegisterCompilationEndAction(action: PluginAction)
      modifies context
      ensures context.registrations ==
                old(context.registrations) + [Registration(CompilationEndScope, [], ThroughWrappedContext(action))]
    {
      context.Register(Registration(CompilationEndScope, [], ThroughWrappedContext(action)));
    }

    method RegisterSemanticModelAction(action: PluginAction)
      modifies context
      ensures context.registrations ==
                old(context.registrations) + [Registration(SemanticModelScope, [], ThroughWrappedContext(action))]
    {
      context.Register(Registration(SemanticModelScope, [], ThroughWrappedContext(action)));
    }

    method RegisterSymbolAction(action: PluginAction, symbolKinds: seq<nat>)
      modifies context
      ensures context.registrations ==
                old(context.registrations) + [Registration(SymbolScope, symbolKinds, ThroughWrappedContext(action))]
    {
      context.Register(Registration(SymbolScope, symbolKinds, ThroughWrappedContext(action)));
    }

    method RegisterCodeBlockStartAction(action: PluginAction)
      modifies context
      ensures context.registrations ==
                old(context.registrations) + [Registration(CodeBlockStartScope, [], ThroughWrappingCodeBlockStart(action))]
    {
      context.Register(Registration(CodeBlockStartScope, [], ThroughWrappingCodeBlockStart(action)));
    }

    method RegisterCodeBlockAction(action: PluginAction)
      modifies context
      ensures context.registrations ==
                old(context.registrations) + [Registration(CodeBlockScope, [], ThroughWrappedContext(action))]
    {
      context.Register(Registration(CodeBlockScope, [], ThroughWrappedContext(action)));
    }

    method RegisterSyntaxTreeAction(action: PluginAction)
      modifies context
      ensures context.registrations ==
                old(context.registrations) + [Registration(SyntaxTreeScope, [], ThroughWrappedContext(action))]
    {
      context.Register(Registration(SyntaxTreeScope, [], ThroughWrappedContext(action)));
    }

    method RegisterSyntaxNodeAction(action: PluginAction, syntaxKinds: seq<nat>)
      modifies context
      ensures context.registrations ==
                old(context.registrations) + [Registration(SyntaxNodeScope, syntaxKinds, ThroughWrappedContext(action))]
    {
      context.Register(Registration(SyntaxNodeScope, syntaxKinds, ThroughWrappedContext(action)));
    }

    /** The plugin's compilation-start action: its requests, in order, each through the matching Register method. */
    method Apply(requests: seq<Request>)
      requires forall q | q in requests :: Fits(CompilationStartLevel, q)
      modifies context
      ensures context.registrations == old(context.registrations) + ForwardAll(requests)
    {
      var i := 0;
      while i < |requests|
        invariant 0 <= i <= |requests|
        invariant context.registrations == old(context.registrations) + ForwardAll(requests[..i])
      {
        var q := requests[i];
        assert q in requests;
        match q.scope {
          case CompilationEndScope => RegisterCompilationEndAction(q.action);
          case SemanticModelScope => RegisterSemanticModelAction(q.action);
          case SymbolScope => RegisterSymbolAction(q.action, q.kinds);
          case CodeBlockStartScope => RegisterCodeBlockStartAction(q.action);
          case CodeBlockScope => RegisterCodeBlockAction(q.action);
          case SyntaxTreeScope => RegisterSyntaxTreeAction(q.action);
          case SyntaxNodeScope => RegisterSyntaxNodeAction(q.action, q.kinds);
          case CompilationScope => assert false;
          case CompilationStartScope => assert false;
          case CodeBlockEndScope => assert false;
        }
        ForwardAllSnoc(requests, i);
        i := i + 1;
      }
      assert requests[..i] == requests;
    }
  }

  /** The proxy a plugin's code-block-start action receives. */
  class WrappingCodeBlockStartAnalysisContext {
    const context: HostCodeBlockStartContext
    const wrappingAnalyzer: WrappingAnalyzer
    const codeBlock: Node
    const owningSymbol: nat
    const semanticModel: SemanticModel
    const options: nat
    const cancellationToken: nat

    /** The code block, owning symbol, semantic model, options and cancellation token are the host context's. */
    constructor(context: HostCodeBlockStartContext, wrappingAnalyzer: WrappingAnalyzer)
      ensures this.context == context && this.wrappingAnalyzer == wrappingAnalyzer
      ensures codeBlock == context.codeBlock && owningSymbol == context.owningSymbol
      ensures semanticModel == context.semanticModel && options == context.options
      ensures cancellationToken == context.cancellationToken
    {
      this.context := context;
      this.wrappingAnalyzer := wrappingAnalyzer;
      codeBlock := context.codeBlock;
      owningSymbol := context.owningSymbol;
      semanticModel := context.semanticModel;
      options := context.options;
      cancellationToken := context.cancellationToken;
    }

    method RegisterCodeBlockEndAction(action: PluginAction)
      modifies context
      ensures context.registrations ==
                old(context.registrations) + [Registration(CodeBlockEndScope, [], ThroughWrappedContext(action))]
    {
      context.Register(Registration(CodeBlockEndScope, [], ThroughWrappedContext(action)));
    }

    method RegisterSyntaxNodeAction(action: PluginAction, syntaxKinds: seq<nat>)
      modifies context
      ensures context.registrations ==
                old(context.registrations) + [Registration(SyntaxNodeScope, syntaxKinds, ThroughWrappedContext(action))]
    {
      context.Register(Registration(SyntaxNodeScope, syntaxKinds, ThroughWrappedContext(action)));
    }

    /** The plugin's code-block-start action: its requests, in order, each through the matching Register method. */
    method Apply(requests: seq<Request>)
      requires forall q | q in requests :: Fits(CodeBlockStartLevel, q)
      modifies context
      ensures context.registrations == old(context.registrations) + ForwardAll(requests)
    {
      var i := 0;
      while i < |requests|
        invariant 0 <= i <= |requests|
        invariant context.registrations == old(context.registrations) + ForwardAll(requests[..i])
      {
        var q := requests[i];
        assert q in requests;
        if q.scope == CodeBlockEndScope {
          RegisterCodeBlockEndAction(q.action);
        } else {
          RegisterSyntaxNodeAction(q.action, q.kinds);
        }
        ForwardAllSnoc(requests, i);
        i := i + 1;
      }
      assert requests[..i] == requests;
    }
  }

  // -----------------------------------------------------------------------
  // The host running forwarded start callbacks.

  /**
   * The host runs a forwarded compilation-start callback: the plugin's action
   * receives a fresh proxy over the host's start context, and its requests
   * arrive there forwarded.
   */
  method RunCompilationStartCallback(analyzer: WrappingAnalyzer, cb: Callback, host: HostCompilationStartContext)
    returns (proxy: WrappingCompilationStartAnalysisContext)
    requires cb.ThroughWrappingCompilationStart? && cb.action.RegisterAll?
    requires forall q | q in cb.action.requests :: Fits(CompilationStartLevel, q)
    modifies host
    ensures fresh(proxy) && proxy.context == host && proxy.wrappingAnalyzer == analyzer
    ensures proxy.compilation == host.compilation && proxy.options == host.options
    ensures host.registrations == old(host.registrations) + ForwardAll(cb.action.requests)
  {
    proxy := new WrappingCompilationStartAnalysisContext(host, analyzer);
    proxy.Apply(cb.action.requests);
  }

  /**
   * The host runs a forwarded code-block-start callback: the plugin's action
   * receives a fresh proxy over the host's code-block-start context.
   */
  method RunCodeBlockStartCallback(analyzer: WrappingAnalyzer, cb: Callback, host: HostCodeBlockStartContext)
    returns (proxy: WrappingCodeBlockStartAnalysisContext)
    requires cb.ThroughWrappingCodeBlockStart? && cb.action.RegisterAll?
    requires forall q | q in cb.action.requests :: Fits(CodeBlockStartLevel, q)
    modifies host
    ensures fresh(proxy) && proxy.context == host && proxy.wrappingAnalyzer == analyzer
    ensures proxy.codeBlock == host.codeBlock && proxy.semanticModel == host.semanticModel
    ensures host.registrations == old(host.registrations) + ForwardAll(cb.action.requests)
  {
    proxy := new WrappingCodeBlockStartAnalysisContext(host, analyzer);
    proxy.Apply(cb.action.requests);
  }

  // -----------------------------------------------------------------------
  // What reaches the host.

  predicate IsWrapping(cb: Callback)
  {
    cb.ThroughWrappedContext? || cb.ThroughWrappingCompilationStart? || cb.ThroughWrappingCodeBlockStart?
  }

  /** Each diagnostic reported, in order, through a context with the given report action. */
  function ReportEach(r: Reporter, disabledIds: set<string>, descriptors: map<string, Descriptor>,
                      ds: seq<Diagnostic>): seq<Diagnostic>
  {
    if ds == [] then []
    else ReachesHost(r, disabledIds, descriptors, ds[0]) + ReportEach(r, disabledIds, descriptors, ds[1..])
  }

  /**
   * What reaches the host's report action when the host runs a forwarded
   * registration once and then, for a start scope, once each registration
   * collected on the start context it handed out.
   */
  function Fire(reg: Registration, disabledIds: set<string>, descriptors: map<string, Descriptor>)
    : seq<Diagnostic>
    requires IsWrapping(reg.callback)
    decreases reg.callback.action, 1
  {
    var a := reg.callback.action;
    if reg.callback.ThroughWrappedContext? then
      if a.ReportAll? then ReportEach(GatedReport(HostReport), disabledIds, descriptors, a.diagnostics) else []
    else if a.RegisterAll? then FireNested(a, 0, disabledIds, descriptors)
    else []
  }

  /** Running the forwarded registrations of a start action, from the i-th on. */
  function FireNested(a: PluginAction, i: nat, disabledIds: set<string>, descriptors: map<string, Descriptor>)
    : seq<Diagnostic>
    requires a.RegisterAll?
    decreases a, 0, |a.requests| - i
  {
    if i >= |a.requests| then []
    else Fire(Forward(a.requests[i]), disabledIds, descriptors) + FireNested(a, i + 1, disabledIds, descriptors)
  }

  /** Running a sequence of the host's registrations in order. */
  function FireAll(regs: seq<Registration>, disabledIds: set<string>, descriptors: map<string, Descriptor>)
    : seq<Diagnostic>
    requires forall r | r in regs :: IsWrapping(r.callback)
  {
    if regs == [] then []
    else Fire(regs[0], disabledIds, descriptors) + FireAll(regs[1..], disabledIds, descriptors)
  }

  /**
   * Everything a plugin reports through a request when it runs unwrapped:
   * an action callback's diagnostics, and for a start scope those of every
   * nested request, in order.
   */
  function Reported(q: Request): seq<Diagnostic>
    decreases q.action, 1
  {
    if !q.scope.IsStart() then
      if q.action.ReportAll? then q.action.diagnostics else []
    else if q.action.RegisterAll? then ReportedNested(q.action, 0)
    else []
  }

  function ReportedNested(a: PluginAction, i: nat): seq<Diagnostic>
    requires a.RegisterAll?
    decreases a, 0, |a.requests| - i
  {
    if i >= |a.requests| then [] else Reported(a.requests[i]) + ReportedNested(a, i + 1)
  }

  function ReportedAll(reqs: seq<Request>): seq<Diagnostic>
  {
    if reqs == [] then [] else Reported(reqs[0]) + ReportedAll(reqs[1..])
  }

  /** Reporting through the gated report action is the gate applied to each diagnostic. */
  lemma {:induction false} ReportEachGated(disabledIds: set<string>, descriptors: map<string, Descriptor>,
                                           ds: seq<Diagnostic>)
    ensures ReportEach(GatedReport(HostReport), disabledIds, descriptors, ds) == GateAll(disabledIds, descriptors, ds)
  {
    if ds != [] {
      ReportEachGated(disabledIds, descriptors, ds[1..]);
      var gated := ReportIfEnabled(disabledIds, descriptors, ds[0]);
      if gated.Some? {
        assert ReachesHost(HostReport, disabledIds, descriptors, gated.value) == [gated.value];
      }
    }
  }

  /**
   * Interception composes: whatever a forwarded request leads to, however
   * deeply its start scopes nest, the host receives exactly the gate applied,
   * in order, to what the plugin reported.
   */
  lemma {:induction false} FireForwarded(q: Request, disabledIds: set<string>, descriptors: map<string, Descriptor>)
    ensures Fire(Forward(q), disabledIds, descriptors) == GateAll(disabledIds, descriptors, Reported(q))
    decreases q.action, 1
  {
    if !q.scope.IsStart() {
      if q.action.ReportAll? {
        ReportEachGated(disabledIds, descriptors, q.action.diagnostics);
      }
    } else if q.action.RegisterAll? {
      FireNestedForwarded(q.action, 0, disabledIds, descriptors);
    }
  }

  lemma {:induction false} FireNestedForwarded(a: PluginAction, i: nat, disabledIds: set<string>,
                                               descriptors: map<string, Descriptor>)
    requires a.RegisterAll?
    ensures FireNested(a, i, disabledIds, descriptors) == GateAll(disabledIds, descriptors, ReportedNested(a, i))
    decreases a, 0, |a.requests| - i
  {
    if i < |a.requests| {
      FireForwarded(a.requests[i], disabledIds, descriptors);
      FireNestedForwarded(a, i + 1, disabledIds, descriptors);
      GateAllAppend(disabledIds, descriptors, Reported(a.requests[i]), ReportedNested(a, i + 1));
    }
  }

  /** The same for a whole Initialize: the forwarded registrations deliver the gated reports, in order. */
  lemma {:induction false} FireAllForwarded(reqs: seq<Request>, disabledIds: set<string>,
                                            descriptors: map<string, Descriptor>)
    ensures forall r | r in ForwardAll(reqs) :: IsWrapping(r.callback)
    ensures FireAll(ForwardAll(reqs), disabledIds, descriptors) == GateAll(disabledIds, descriptors, ReportedAll(reqs))
  {
    if reqs != [] {
      assert ForwardAll(reqs)[1..] == ForwardAll(reqs[1..]);
      FireForwarded(reqs[0], disabledIds, descriptors);
      FireAllForwarded(reqs[1..], disabledIds, descriptors);
      GateAllAppend(disabledIds, descriptors, Reported(reqs[0]), ReportedAll(reqs[1..]));
    }
  }

  /**
   * Suppression through the whole pipeline: with a descriptor map keyed by
   * Id, nothing the host receives from a forwarded plugin carries a disabled
   * Id, and everything it receives carries the re-issued descriptor.
   */
  lemma ForwardedReportsAreSuppressed(reqs: seq<Request>, disabledIds: set<string>,
                                      descriptors: map<string, Descriptor>)
    requires KeyedById(descriptors)
    ensures forall r | r in ForwardAll(reqs) :: IsWrapping(r.callback)
    ensures forall e | e in FireAll(ForwardAll(reqs), disabledIds, descriptors) ::
              e.Id() !in disabledIds && e.Id() in descriptors && e.descriptor == descriptors[e.Id()]
  {
    FireAllForwarded(reqs, disabledIds, descriptors);
    GateAllSuppresses(disabledIds, descriptors, ReportedAll(reqs));
  }
}

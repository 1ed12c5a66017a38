/**
 * The analyzer host's registration API, as data.
 *
 * An analyzer registers callbacks for scopes (a compilation, a symbol, a
 * syntax node, ...). A callback is a closure in the host; here it is a tagged
 * value saying how the closure hands its context on. What a plugin does inside
 * a callback is itself data: it reports diagnostics through the context it is
 * handed, or, for the two start scopes, registers further callbacks on it.
 */
module AnalysisContexts {
  import opened Common
  import opened Diagnostics

  /** The scopes a callback can be registered for. */
  datatype Scope =
    | CompilationScope
    | CompilationStartScope
    | CompilationEndScope
    | SemanticModelScope
    | SymbolScope
    | CodeBlockStartScope
    | CodeBlockScope
    | CodeBlockEndScope
    | SyntaxTreeScope
    | SyntaxNodeScope
  {
    /** Start scopes hand out a context on which further callbacks are registered. */
    predicate IsStart() { this == CompilationStartScope || this == CodeBlockStartScope }
  }

  /** What a plugin does when one of its callbacks runs. */
  datatype PluginAction =
    | ReportAll(diagnostics: seq<Diagnostic>)
    | RegisterAll(requests: seq<Request>)

  /** A registration a plugin asks for: the scope, the symbol or syntax kinds, the action. */
  datatype Request = Request(scope: Scope, kinds: seq<nat>, action: PluginAction)

  /** How the closure stored in a registration hands the host's context to the action. */
  datatype Callback =
    | Plain(action: PluginAction)
    | ThroughWrappedContext(action: PluginAction)
    | ThroughWrappingCompilationStart(action: PluginAction)
    | ThroughWrappingCodeBlockStart(action: PluginAction)
    | IfNodeNotGenerated(action: PluginAction)
    | IfCodeBlockNotGenerated(action: PluginAction)
    | StartThenTreeIfNotGenerated(action: PluginAction)
    | IfTreeNotGeneratedIn(compilation: nat, action: PluginAction)

  /** One registration held by a host context. */
  datatype Registration = Registration(scope: Scope, kinds: seq<nat>, callback: Callback)

  /** A syntax node and the tree it belongs to. */
  datatype Node = Node(id: nat, tree: nat)

  /** A semantic model and the compilation it belongs to. */
  datatype SemanticModel = SemanticModel(id: nat, compilation: nat)

  /** Where a context's ReportDiagnostic action sends a diagnostic. */
  datatype Reporter =
    | HostReport
    | GatedReport(inner: Reporter)

  /** A context's predicate on supported diagnostics. */
  datatype SupportPredicate =
    | HostSupported
    | AlwaysSupported

  /**
   * The six contexts an action callback receives. Every one carries the
   * analyzer options, a report action, a supported-diagnostic predicate and a
   * cancellation token.
   */
  datatype ActionContext =
    | SyntaxNodeContext(node: Node, semanticModel: SemanticModel,
                        options: nat, report: Reporter, isSupported: SupportPredicate, cancellationToken: nat)
    | SyntaxTreeContext(tree: nat,
                        options: nat, report: Reporter, isSupported: SupportPredicate, cancellationToken: nat)
    | CodeBlockContext(codeBlock: Node, owningSymbol: nat, semanticModel: SemanticModel,
                       options: nat, report: Reporter, isSupported: SupportPredicate, cancellationToken: nat)
    | SymbolContext(symbol: nat, compilation: nat,
                    options: nat, report: Reporter, isSupported: SupportPredicate, cancellationToken: nat)
    | SemanticModelContext(semanticModel: SemanticModel,
                           options: nat, report: Reporter, isSupported: SupportPredicate, cancellationToken: nat)
    | CompilationContext(compilation: nat,
                         options: nat, report: Reporter, isSupported: SupportPredicate, cancellationToken: nat)

  /** The host's analysis context: callbacks registered on it are kept in order. */
  class HostAnalysisContext {
    var registrations: seq<Registration>

    constructor()
      ensures registrations == []
    {
      registrations := [];
    }

    method Register(r: Registration)
      modifies this
      ensures registrations == old(registrations) + [r]
    {
      registrations := registrations + [r];
    }
  }

  /** The host's compilation-start context. */
  class HostCompilationStartContext {
    const compilation: nat
    const options: nat
    const cancellationToken: nat
    var registrations: seq<Registration>

    constructor(compilation: nat, options: nat, cancellationToken: nat)
      ensures this.compilation == compilation && this.options == options
      ensures this.cancellationToken == cancellationToken
      ensures registrations == []
    {
      this.compilation := compilation;
      this.options := options;
      this.cancellationToken := cancellationToken;
      registrations := [];
    }

    method Register(r: Registration)
      modifies this
      ensures registrations == old(registrations) + [r]
    {
      registrations := registrations + [r];
    }
  }

  /** The host's code-block-start context. */
  class HostCodeBlockStartContext {
    const codeBlock: Node
    const owningSymbol: nat
    const semanticModel: SemanticModel
    const options: nat
    const cancellationToken: nat
    var registrations: seq<Registration>

    constructor(codeBlock: Node, owningSymbol: nat, semanticModel: SemanticModel, options: nat, cancellationToken: nat)
      ensures this.codeBlock == codeBlock && this.owningSymbol == owningSymbol
      ensures this.semanticModel == semanticModel && this.options == options
      ensures this.cancellationToken == cancellationToken
      ensures registrations == []
    {
      this.codeBlock := codeBlock;
      this.owningSymbol := owningSymbol;
      this.semanticModel := semanticModel;
      this.options := options;
      this.cancellationToken := cancellationToken;
      registrations := [];
    }

    method Register(r: Registration)
      modifies this
      ensures registrations == old(registrations) + [r]
    {
      registrations := registrations + [r];
    }
  }
}

/**
 * Generated-code filtering (DiagnosticAnalyzerContextHelper): a memoised
 * "is this tree generated" query per compilation, registration helpers whose
 * callbacks skip generated trees, and report helpers that drop diagnostics
 * located in generated trees.
 */
module GeneratedCode {
  import opened Common
  import opened Diagnostics
  import opened AnalysisContexts

  /** The recogniser of generated trees; each query it answers is logged. */
  class GeneratedCodeRecognizer {
    /** Its verdict on a tree, a query into code not part of this model. */
    const verdict: nat -> bool
    /** The trees it has been asked about, in order. */
    var calls: seq<nat>

    constructor(verdict: nat -> bool)
      ensures this.verdict == verdict && calls == []
    {
      this.verdict := verdict;
      calls := [];
    }

    method IsGenerated(tree: nat) returns (generated: bool)
      modifies this
      ensures generated == verdict(tree) && calls == old(calls) + [tree]
    {
      calls := calls + [tree];
      generated := verdict(tree);
    }
  }

  /** ConcurrentDictionary.TryAdd, sequentially: an existing entry is never overwritten. */
  function TryAdd(m: map<nat, bool>, key: nat, value: bool): (r: map<nat, bool>)
    ensures key in m ==> r == m
    ensures key !in m ==> r == m[key := value]
    ensures key in r && m.Keys <= r.Keys
  {
    if key in m then m else m[key := value]
  }

  /** The per-compilation caches of verdicts, by tree. */
  class GeneratedCodeCache {
    var cache: map<nat, map<nat, bool>>

    constructor()
      ensures cache == map[]
    {
      cache := map[];
    }

    /** Every cached verdict is the recogniser's. */
    predicate Valid(recognizer: GeneratedCodeRecognizer)
      reads this
    {
      forall c, t | c in cache && t in cache[c] :: cache[c][t] == recognizer.verdict(t)
    }

    /** The cache entry Cache.GetOrCreateValue yields for a compilation. */
    function CacheFor(compilation: nat): map<nat, bool>
      reads this
    {
      if compilation in cache then cache[compilation] else map[]
    }

    /**
     * IsGenerated: a null tree is not generated and nothing is consulted; a
     * cached verdict is returned without asking the recogniser; otherwise the
     * recogniser is asked once and its verdict added to the cache.
     */
    method IsGenerated(tree: Option<nat>, recognizer: GeneratedCodeRecognizer, compilation: nat)
      returns (generated: bool)
      modifies this, recognizer
      ensures tree.None? ==> !generated && cache == old(cache) && recognizer.calls == old(recognizer.calls)
      ensures tree.Some? && tree.value in old(CacheFor(compilation)) ==>
                generated == old(CacheFor(compilation))[tree.value] &&
                recognizer.calls == old(recognizer.calls) &&
                cache == old(cache)[compilation := old(CacheFor(compilation))]
      ensures tree.Some? && tree.value !in old(CacheFor(compilation)) ==>
                generated == recognizer.verdict(tree.value) &&
                recognizer.calls == old(recognizer.calls) + [tree.value] &&
                cache == old(cache)[compilation := old(CacheFor(compilation))[tree.value := generated]]
      ensures old(Valid(recognizer)) ==> Valid(recognizer)
      ensures old(Valid(recognizer)) && tree.Some? ==> generated == recognizer.verdict(tree.value)
    {
      if tree.None? {
        return false;
      }
      var entries: map<nat, bool> := CacheFor(compilation);
      cache := cache[compilation := entries];
      if tree.value in entries {
        return entries[tree.value];
      }
      generated := recognizer.IsGenerated(tree.value);
      cache := cache[compilation := TryAdd(entries, tree.value, generated)];
    }
  }

  // -----------------------------------------------------------------------
  // Registration helpers.

  /** RegisterSyntaxNodeActionInNonGenerated: one syntax-node registration whose callback checks the node's tree. */
  method RegisterSyntaxNodeActionInNonGenerated(context: HostAnalysisContext, action: PluginAction, syntaxKinds: seq<nat>)
    modifies context
    ensures context.registrations ==
              old(context.registrations) + [Registration(SyntaxNodeScope, syntaxKinds, IfNodeNotGenerated(action))]
  {
    context.Register(Registration(SyntaxNodeScope, syntaxKinds, IfNodeNotGenerated(action)));
  }

  /** RegisterSyntaxTreeActionInNonGenerated: a compilation-start registration, which registers the tree action. */
  method RegisterSyntaxTreeActionInNonGenerated(context: HostAnalysisContext, action: PluginAction)
    modifies context
    ensures context.registrations ==
              old(context.registrations) + [Registration(CompilationStartScope, [], StartThenTreeIfNotGenerated(action))]
  {
    context.Register(Registration(CompilationStartScope, [], StartThenTreeIfNotGenerated(action)));
  }

  /** RegisterCodeBlockStartActionInNonGenerated: one code-block-start registration whose callback checks the block's tree. */
  method RegisterCodeBlockStartActionInNonGenerated(context: HostAnalysisContext, action: PluginAction)
    modifies context
    ensures context.registrations ==
              old(context.registrations) + [Registration(CodeBlockStartScope, [], IfCodeBlockNotGenerated(action))]
  {
    context.Register(Registration(CodeBlockStartScope, [], IfCodeBlockNotGenerated(action)));
  }

  /** The compilation-start callback of the tree helper: it registers the guarded tree action for this compilation. */
  method RunStartThenTreeCallback(cb: Callback, start: HostCompilationStartContext)
    requires cb.StartThenTreeIfNotGenerated?
    modifies start
    ensures start.registrations ==
              old(start.registrations) +
              [Registration(SyntaxTreeScope, [], IfTreeNotGeneratedIn(start.compilation, cb.action))]
  {
    start.Register(Registration(SyntaxTreeScope, [], IfTreeNotGeneratedIn(start.compilation, cb.action)));
  }

  /**
   * The host runs a guarded callback on a context: whether the action is
   * invoked. A node or code block is checked in its semantic model's
   * compilation, a tree in the compilation the start callback captured.
   */
  method RunGuardedCallback(cb: Callback, c: ActionContext, cache: GeneratedCodeCache,
                            recognizer: GeneratedCodeRecognizer)
    returns (invoked: bool)
    requires cb.IfNodeNotGenerated? ==> c.SyntaxNodeContext?
    requires cb.IfCodeBlockNotGenerated? ==> c.CodeBlockContext?
    requires cb.IfTreeNotGeneratedIn? ==> c.SyntaxTreeContext?
    requires cb.IfNodeNotGenerated? || cb.IfCodeBlockNotGenerated? || cb.IfTreeNotGeneratedIn?
    modifies cache, recognizer
    ensures old(cache.Valid(recognizer)) ==> cache.Valid(recognizer)
    ensures old(cache.Valid(recognizer)) && cb.IfNodeNotGenerated? ==> invoked == !recognizer.verdict(c.node.tree)
    ensures old(cache.Valid(recognizer)) && cb.IfCodeBlockNotGenerated? ==>
              invoked == !recognizer.verdict(c.codeBlock.tree)
    ensures old(cache.Valid(recognizer)) && cb.IfTreeNotGeneratedIn? ==> invoked == !recognizer.verdict(c.tree)
  {
    var generated: bool;
    if cb.IfNodeNotGenerated? {
      generated := cache.IsGenerated(Some(c.node.tree), recognizer, c.semanticModel.compilation);
    } else if cb.IfCodeBlockNotGenerated? {
      generated := cache.IsGenerated(Some(c.codeBlock.tree), recognizer, c.semanticModel.compilation);
    } else {
      generated := cache.IsGenerated(Some(c.tree), recognizer, cb.compilation);
    }
    invoked := !generated;
  }

  // -----------------------------------------------------------------------
  // Report helpers.

  /** Whether a diagnostic's source tree is generated, as the recogniser says; a location without a tree is not. */
  predicate InGeneratedCode(recognizer: GeneratedCodeRecognizer, d: Diagnostic)
  {
    d.location.sourceTree.Some? && recognizer.verdict(d.location.sourceTree.value)
  }

  /**
   * ReportDiagnosticIfNonGenerated (compilation and symbol contexts): the
   * diagnostic reaches the context's report action iff its source tree is
   * not generated in the given compilation.
   */
  method ReportDiagnosticIfNonGenerated(report: DiagnosticSink, cache: GeneratedCodeCache,
                                        recognizer: GeneratedCodeRecognizer, d: Diagnostic, compilation: nat)
    modifies report, cache, recognizer
    ensures old(cache.Valid(recognizer)) ==> cache.Valid(recognizer)
    ensures old(cache.Valid(recognizer)) ==>
              report.reported == old(report.reported) + (if InGeneratedCode(recognizer, d) then [] else [d])
  {
    var generated := cache.IsGenerated(d.location.sourceTree, recognizer, compilation);
    if !generated {
      report.Report(d);
    }
  }

  /** The symbol-context overload without a compilation uses the context's own. */
  method ReportDiagnosticIfNonGeneratedInSymbolCompilation(
    context: ActionContext, report: DiagnosticSink, cache: GeneratedCodeCache,
    recognizer: GeneratedCodeRecognizer, d: Diagnostic)
    requires context.SymbolContext?
    modifies report, cache, recognizer
    ensures old(cache.Valid(recognizer)) ==> cache.Valid(recognizer)
    ensures old(cache.Valid(recognizer)) ==>
              report.reported == old(report.reported) + (if InGeneratedCode(recognizer, d) then [] else [d])
  {
    ReportDiagnosticIfNonGenerated(report, cache, recognizer, d, context.compilation);
  }
}

/**
 * The report gate of the wrapping analyzer and the wrapped contexts that
 * route a plugin's reports through it (WrappingAnalyzer.cs, the
 * GetWrapped...Context builders and ReportIfEnabled).
 */
module ReportGate {
  import opened Common
  import opened Diagnostics
  import opened AnalysisContexts

  /** Every descriptor in the map is stored under its own Id. */
  predicate KeyedById(descriptors: map<string, Descriptor>)
  {
    forall k :: k in descriptors ==> descriptors[k].id == k
  }

  /**
   * The wrapped context handed to a plugin's action callback: the same
   * subject (node, tree, code block, symbol, model or compilation), options
   * and cancellation token as the host's context; reports go through the
   * gate, and every diagnostic counts as supported.
   */
  function GetWrappedContext(c: ActionContext): (r: ActionContext)
    ensures r.report == GatedReport(c.report)
    ensures r.isSupported == AlwaysSupported
    ensures r.(report := c.report, isSupported := c.isSupported) == c
  {
    match c
    case SyntaxNodeContext(node, model, options, report, _, token) =>
      SyntaxNodeContext(node, model, options, GatedReport(report), AlwaysSupported, token)
    case SyntaxTreeContext(tree, options, report, _, token) =>
      SyntaxTreeContext(tree, options, GatedReport(report), AlwaysSupported, token)
    case CodeBlockContext(block, owner, model, options, report, _, token) =>
      CodeBlockContext(block, owner, model, options, GatedReport(report), AlwaysSupported, token)
    case SymbolContext(symbol, compilation, options, report, _, token) =>
      SymbolContext(symbol, compilation, options, GatedReport(report), AlwaysSupported, token)
    case SemanticModelContext(model, options, report, _, token) =>
      SemanticModelContext(model, options, GatedReport(report), AlwaysSupported, token)
    case CompilationContext(compilation, options, report, _, token) =>
      CompilationContext(compilation, options, GatedReport(report), AlwaysSupported, token)
  }

  /**
   * ReportIfEnabled: the diagnostic handed to the host's report action, if
   * any. A disabled Id, or an Id without a re-issued descriptor, is dropped;
   * otherwise the diagnostic is rebuilt with the re-issued descriptor and the
   * original location, additional locations, properties and message arguments.
   */
  function ReportIfEnabled(disabledIds: set<string>, descriptors: map<string, Descriptor>, d: Diagnostic)
    : (r: Option<Diagnostic>)
    ensures r.Some? <==> d.Id() !in disabledIds && d.Id() in descriptors
    ensures r.Some? ==> r.value.descriptor == descriptors[d.Id()]
    ensures r.Some? ==> r.value.location == d.location && r.value.additionalLocations == d.additionalLocations
    ensures r.Some? ==> r.value.properties == d.properties && r.value.messageArgs == d.messageArgs
  {
    if d.Id() in disabledIds then None
    else if d.Id() !in descriptors then None
    else Some(Diagnostic(descriptors[d.Id()], d.location, d.additionalLocations, d.properties, d.messageArgs))
  }

  /** With a map keyed by Id, a forwarded diagnostic keeps the Id it was reported with. */
  lemma ReissuedKeepsId(disabledIds: set<string>, descriptors: map<string, Descriptor>, d: Diagnostic)
    requires KeyedById(descriptors)
    ensures ReportIfEnabled(disabledIds, descriptors, d).Some? ==>
              ReportIfEnabled(disabledIds, descriptors, d).value.Id() == d.Id()
  {
  }

  /** The diagnostics a context's report action hands to the host for one report. */
  function ReachesHost(r: Reporter, disabledIds: set<string>, descriptors: map<string, Descriptor>, d: Diagnostic)
    : (out: seq<Diagnostic>)
    ensures |out| <= 1
    ensures r.GatedReport? && d.Id() in disabledIds ==> out == []
  {
    match r
    case HostReport => [d]
    case GatedReport(inner) =>
      match ReportIfEnabled(disabledIds, descriptors, d)
      case None => []
      case Some(e) => ReachesHost(inner, disabledIds, descriptors, e)
  }

  /**
   * Reporting through a wrapped context hands the host exactly what the gate
   * lets through, at most once: nothing for a disabled or unknown Id.
   */
  lemma WrappedReportIsGated(c: ActionContext, disabledIds: set<string>, descriptors: map<string, Descriptor>,
                             d: Diagnostic)
    requires c.report == HostReport
    ensures ReachesHost(GetWrappedContext(c).report, disabledIds, descriptors, d)
            == OptionToSeq(ReportIfEnabled(disabledIds, descriptors, d))
  {
  }

  /** ReportIfEnabled applied to each diagnostic in turn: what the host receives. */
  function GateAll(disabledIds: set<string>, descriptors: map<string, Descriptor>, ds: seq<Diagnostic>)
    : (r: seq<Diagnostic>)
    ensures |r| <= |ds|
  {
    if ds == [] then []
    else OptionToSeq(ReportIfEnabled(disabledIds, descriptors, ds[0])) + GateAll(disabledIds, descriptors, ds[1..])
  }

  /** Gating distributes over concatenation. */
  lemma {:induction false} GateAllAppend(disabledIds: set<string>, descriptors: map<string, Descriptor>,
                                         a: seq<Diagnostic>, b: seq<Diagnostic>)
    ensures GateAll(disabledIds, descriptors, a + b)
            == GateAll(disabledIds, descriptors, a) + GateAll(disabledIds, descriptors, b)
  {
    if a != [] {
      assert (a + b)[1..] == a[1..] + b;
      GateAllAppend(disabledIds, descriptors, a[1..], b);
    } else {
      assert a + b == b;
    }
  }

  /**
   * Suppression: nothing the gate forwards carries a disabled Id, and each
   * forwarded diagnostic comes from a reported one with the same Id,
   * location and message arguments.
   */
  lemma {:induction false} GateAllSuppresses(disabledIds: set<string>, descriptors: map<string, Descriptor>,
                                             ds: seq<Diagnostic>)
    requires KeyedById(descriptors)
    ensures forall e | e in GateAll(disabledIds, descriptors, ds) ::
              e.Id() !in disabledIds && e.Id() in descriptors && e.descriptor == descriptors[e.Id()]
    ensures forall e | e in GateAll(disabledIds, descriptors, ds) ::
              exists d | d in ds :: d.Id() == e.Id() && d.location == e.location && d.messageArgs == e.messageArgs
  {
    if ds != [] {
      GateAllSuppresses(disabledIds, descriptors, ds[1..]);
      var head := OptionToSeq(ReportIfEnabled(disabledIds, descriptors, ds[0]));
      forall e | e in GateAll(disabledIds, descriptors, ds)
        ensures exists d | d in ds :: d.Id() == e.Id() && d.location == e.location && d.messageArgs == e.messageArgs
      {
        if e in head {
          assert ds[0] in ds;
        } else {
          var d :| d in ds[1..] && d.Id() == e.Id() && d.location == e.location && d.messageArgs == e.messageArgs;
          assert d in ds;
        }
      }
    }
  }

  /**
   * With no Id disabled and every Id known, the gate forwards every reported
   * diagnostic, in order, each with its re-issued descriptor and everything
   * else kept.
   */
  lemma {:induction false} GateAllPassesEnabled(disabledIds: set<string>, descriptors: map<string, Descriptor>,
                                                ds: seq<Diagnostic>)
    requires forall d | d in ds :: d.Id() !in disabledIds && d.Id() in descriptors
    ensures |GateAll(disabledIds, descriptors, ds)| == |ds|
    ensures forall i | 0 <= i < |ds| ::
              GateAll(disabledIds, descriptors, ds)[i] == ds[i].(descriptor := descriptors[ds[i].Id()])
  {
    if ds != [] {
      assert ds[0] in ds;
      GateAllPassesEnabled(disabledIds, descriptors, ds[1..]);
      assert forall i | 1 <= i < |ds| :: ds[i] == ds[1..][i - 1];
    }
  }
}

/**
 * How the wrapping analyzer finds and instantiates the plugin analyzers and
 * re-issues their descriptors (WrappingAnalyzer.cs, constructor and the
 * reflective helpers). Assembly loading and reflection are replaced by their
 * results: the types of each assembly, and for each type its public
 * constructors with the outcome of invoking them.
 */
module AnalyzerLoader {
  import opened Common
  import opened Diagnostics
  import opened AnalysisContexts
  import ReportGate

  /** WellKnownDiagnosticTags.NotConfigurable. */
  const NotConfigurableTag: string := "NotConfigurable"

  /** A loaded plugin analyzer: its supported descriptors and what its Initialize registers. */
  datatype Plugin = Plugin(name: string, supportedDiagnostics: seq<Descriptor>, initialize: seq<Request>)

  /** What invoking a constructor does: it builds a plugin, or it throws. */
  datatype ConstructorOutcome = Constructs(plugin: Plugin) | Throws

  datatype Constructor = Constructor(parameterCount: nat, outcome: ConstructorOutcome)

  /** A type found in a plugin assembly, with the facts the type filter inspects. */
  datatype AnalyzerType = AnalyzerType(
    name: string,
    isDiagnosticAnalyzer: bool,
    hasDiagnosticAnalyzerAttribute: bool,
    isAbstract: bool,
    isClass: bool,
    constructors: seq<Constructor>)

  /** Why building the wrapping analyzer fails: both are exceptions the constructor lets escape. */
  datatype LoadError =
    | ConstructorThrew(typeName: string)
    | DuplicateDiagnosticId(id: string)

  // -----------------------------------------------------------------------
  // Descriptor re-issue.

  function TagsOf(d: Descriptor): seq<string>
  {
    match d.customTags
    case None => []
    case Some(tags) => tags
  }

  /**
   * The re-issued descriptor: every field of the original, except that it is
   * enabled by default and its tags are NotConfigurable followed by the
   * original tags (none when the original has none).
   */
  function Remap(d: Descriptor): (r: Descriptor)
    ensures r.(isEnabledByDefault := d.isEnabledByDefault, customTags := d.customTags) == d
    ensures r.isEnabledByDefault
    ensures r.customTags.Some? && |r.customTags.value| == |TagsOf(d)| + 1
    ensures r.customTags.value[0] == NotConfigurableTag && r.customTags.value[1..] == TagsOf(d)
  {
    d.(isEnabledByDefault := true, customTags := Some([NotConfigurableTag] + TagsOf(d)))
  }

  // -----------------------------------------------------------------------
  // Type filter.

  /** A type the loader instantiates: a concrete class deriving from DiagnosticAnalyzer with the attribute. */
  predicate IsAnalyzerType(t: AnalyzerType)
  {
    t.isDiagnosticAnalyzer && t.hasDiagnosticAnalyzerAttribute && !t.isAbstract && t.isClass
  }

  /** The analyzer types of one assembly, in declaration order. */
  function AnalyzerTypesOf(types: seq<AnalyzerType>): (r: seq<AnalyzerType>)
    ensures |r| <= |types|
    ensures forall t :: t in r <==> t in types && IsAnalyzerType(t)
  {
    if types == [] then []
    else if IsAnalyzerType(types[0]) then [types[0]] + AnalyzerTypesOf(types[1..])
    else AnalyzerTypesOf(types[1..])
  }

  /** GetAnalyzerTypes: the analyzer types of every assembly, assembly by assembly. */
  function GetAnalyzerTypes(assemblies: seq<seq<AnalyzerType>>): (r: seq<AnalyzerType>)
    ensures forall t :: t in r <==> IsAnalyzerType(t) && exists a :: a in assemblies && t in a
  {
    if assemblies == [] then []
    else
      var rest := GetAnalyzerTypes(assemblies[1..]);
      assert forall a :: a in assemblies <==> a == assemblies[0] || a in assemblies[1..];
      AnalyzerTypesOf(assemblies[0]) + rest
  }

  /** What one type contributes to its assembly's analyzer types: itself, or nothing. */
  function KeptType(t: AnalyzerType): seq<AnalyzerType>
  {
    if IsAnalyzerType(t) then [t] else []
  }

  function KeptTypesEach(types: seq<AnalyzerType>): (r: seq<seq<AnalyzerType>>)
    ensures |r| == |types| && forall i | 0 <= i < |types| :: r[i] == KeptType(types[i])
  {
    seq(|types|, i requires 0 <= i < |types| => KeptType(types[i]))
  }

  /**
   * Where's filter: the analyzer types in the order GetTypes lists them, a
   * type listed twice kept twice.
   */
  lemma {:induction false} AnalyzerTypesOfInOrder(types: seq<AnalyzerType>)
    ensures AnalyzerTypesOf(types) == Concat(KeptTypesEach(types))
    ensures forall t :: multiset(AnalyzerTypesOf(types))[t] == if IsAnalyzerType(t) then multiset(types)[t] else 0
  {
    if types != [] {
      AnalyzerTypesOfInOrder(types[1..]);
      assert KeptTypesEach(types)[1..] == KeptTypesEach(types[1..]);
      AnalyzerTypesOfCountStep(types);
    }
  }

  lemma AnalyzerTypesOfCountStep(types: seq<AnalyzerType>)
    requires types != []
    requires forall t :: multiset(AnalyzerTypesOf(types[1..]))[t] ==
                         if IsAnalyzerType(t) then multiset(types[1..])[t] else 0
    ensures forall t :: multiset(AnalyzerTypesOf(types))[t] == if IsAnalyzerType(t) then multiset(types)[t] else 0
  {
    var rest := AnalyzerTypesOf(types[1..]);
    assert types == [types[0]] + types[1..];
    assert multiset(types) == multiset([types[0]]) + multiset(types[1..]);
    if IsAnalyzerType(types[0]) {
      assert multiset(AnalyzerTypesOf(types)) == multiset([types[0]]) + multiset(rest);
    }
  }

  /** SelectMany over the assemblies: each assembly's analyzer types in turn, repeats across assemblies kept. */
  lemma {:induction false} GetAnalyzerTypesInOrder(assemblies: seq<seq<AnalyzerType>>)
    ensures GetAnalyzerTypes(assemblies) == Concat(seq(|assemblies|, i requires 0 <= i < |assemblies| => AnalyzerTypesOf(assemblies[i])))
    ensures forall t :: multiset(GetAnalyzerTypes(assemblies))[t] ==
                        if IsAnalyzerType(t) then multiset(Concat(assemblies))[t] else 0
  {
    if assemblies != [] {
      GetAnalyzerTypesInOrder(assemblies[1..]);
      AnalyzerTypesOfInOrder(assemblies[0]);
      var each := seq(|assemblies|, i requires 0 <= i < |assemblies| => AnalyzerTypesOf(assemblies[i]));
      assert each[1..] == seq(|assemblies[1..]|, i requires 0 <= i < |assemblies[1..]| => AnalyzerTypesOf(assemblies[1..][i]));
    }
  }

  // -----------------------------------------------------------------------
  // Instantiation.

  /** The position of the first constructor without parameters. */
  function FirstParameterless(cs: seq<Constructor>): (r: Option<nat>)
    ensures r.Some? ==> r.value < |cs| && cs[r.value].parameterCount == 0
    ensures r.Some? ==> forall j :: 0 <= j < r.value ==> cs[j].parameterCount != 0
    ensures r.None? ==> forall j :: 0 <= j < |cs| ==> cs[j].parameterCount != 0
  {
    if cs == [] then None
    else if cs[0].parameterCount == 0 then Some(0)
    else match FirstParameterless(cs[1..])
      case None => None
      case Some(k) => Some(k + 1)
  }

  /**
   * InvokeDefaultConstructor: no plugin when no constructor is parameterless;
   * otherwise what the first parameterless constructor does, where a throwing
   * constructor aborts the load.
   */
  function InvokeDefaultConstructor(t: AnalyzerType): (r: Result<Option<Plugin>, LoadError>)
    ensures FirstParameterless(t.constructors).None? ==> r == Success(None)
    ensures r == Failure(ConstructorThrew(t.name)) <==>
              FirstParameterless(t.constructors).Some? &&
              t.constructors[FirstParameterless(t.constructors).value].outcome.Throws?
    ensures r.Success? && r.value.Some? ==>
              exists c | c in t.constructors :: c.parameterCount == 0 && c.outcome == Constructs(r.value.value)
  {
    match FirstParameterless(t.constructors)
    case None => Success(None)
    case Some(k) =>
      match t.constructors[k].outcome
      case Throws => Failure(ConstructorThrew(t.name))
      case Constructs(p) => Success(Some(p))
  }

  /** Some constructor invoked by the loader throws. */
  predicate SomeDefaultConstructorThrows(types: seq<AnalyzerType>)
  {
    exists t | t in types :: InvokeDefaultConstructor(t).Failure?
  }

  /** What one type contributes to the analyzers list: its plugin, or nothing. */
  function Constructed(t: AnalyzerType): seq<Plugin>
  {
    if InvokeDefaultConstructor(t).Success? then OptionToSeq(InvokeDefaultConstructor(t).value) else []
  }

  /** `types.Select(InvokeDefaultConstructor)`, each result as a list of zero or one plugin. */
  function ConstructedEach(types: seq<AnalyzerType>): (r: seq<seq<Plugin>>)
    ensures |r| == |types| && forall i | 0 <= i < |types| :: r[i] == Constructed(types[i])
  {
    seq(|types|, i requires 0 <= i < |types| => Constructed(types[i]))
  }

  /**
   * The analyzers list: each type's default-constructed plugin, in order,
   * skipping types without a parameterless constructor; the first throwing
   * constructor aborts the whole list.
   */
  function InstantiateAll(types: seq<AnalyzerType>): (r: Result<seq<Plugin>, LoadError>)
    ensures r.Failure? <==> SomeDefaultConstructorThrows(types)
    ensures r.Success? ==> |r.value| <= |types|
    ensures r.Success? ==> forall p | p in r.value ::
              exists t | t in types :: InvokeDefaultConstructor(t) == Success(Some(p))
    ensures r.Success? ==> r.value == Concat(ConstructedEach(types))
  {
    if types == [] then Success([])
    else
      assert forall t :: t in types <==> t == types[0] || t in types[1..];
      assert ConstructedEach(types)[1..] == ConstructedEach(types[1..]);
      match InvokeDefaultConstructor(types[0])
      case Failure(e) => Failure(e)
      case Success(first) =>
        match InstantiateAll(types[1..])
        case Failure(e) => Failure(e)
        case Success(rest) => Success(OptionToSeq(first) + rest)
  }

  /** Every type with a parameterless constructor that builds a plugin contributes that plugin. */
  lemma ConstructiblePluginIsLoaded(types: seq<AnalyzerType>, i: nat, p: Plugin)
    requires i < |types| && InvokeDefaultConstructor(types[i]) == Success(Some(p))
    ensures InstantiateAll(types).Success? ==> p in InstantiateAll(types).value
  {
    ConcatHoldsEach(ConstructedEach(types), i, p);
  }

  /** A failed load carries the error of the first type whose invoked constructor throws. */
  lemma {:induction false} InstantiateAllFailsAtFirstThrow(types: seq<AnalyzerType>)
    ensures InstantiateAll(types).Failure? ==>
              exists i | 0 <= i < |types| ::
                InvokeDefaultConstructor(types[i]) == Failure(InstantiateAll(types).error) &&
                forall j | 0 <= j < i :: InvokeDefaultConstructor(types[j]).Success?
  {
    if types != [] && InstantiateAll(types).Failure? && InvokeDefaultConstructor(types[0]).Success? {
      InstantiateAllFailsAtFirstThrow(types[1..]);
      var k :| 0 <= k < |types[1..]| &&
               InvokeDefaultConstructor(types[1..][k]) == Failure(InstantiateAll(types[1..]).error) &&
               forall j | 0 <= j < k :: InvokeDefaultConstructor(types[1..][j]).Success?;
      assert forall j | 1 <= j < k + 1 :: types[j] == types[1..][j - 1];
    }
  }

  /** The supported descriptors of all plugins, plugin by plugin. */
  function AllSupportedDiagnostics(plugins: seq<Plugin>): (r: seq<Descriptor>)
    ensures forall d :: d in r <==> exists p | p in plugins :: d in p.supportedDiagnostics
  {
    if plugins == [] then []
    else
      assert forall p :: p in plugins <==> p == plugins[0] || p in plugins[1..];
      plugins[0].supportedDiagnostics + AllSupportedDiagnostics(plugins[1..])
  }

  // -----------------------------------------------------------------------
  // The descriptor map.

  /**
   * The descriptor map the constructor's loop builds from the supported
   * descriptors in order: each Id mapped to its re-issued descriptor; adding
   * an Id a second time throws, which aborts the load at that descriptor.
   */
  function DescriptorMap(ds: seq<Descriptor>): Result<map<string, Descriptor>, LoadError>
  {
    if ds == [] then Success(map[])
    else
      var last := ds[|ds| - 1];
      match DescriptorMap(ds[..|ds| - 1])
      case Failure(e) => Failure(e)
      case Success(m) =>
        if last.id in m then Failure(DuplicateDiagnosticId(last.id))
        else Success(m[last.id := Remap(last)])
  }

  predicate DistinctIds(ds: seq<Descriptor>)
  {
    forall i, j :: 0 <= i < j < |ds| ==> ds[i].id != ds[j].id
  }

  /** Some descriptor of ds has Id k. */
  predicate HasId(ds: seq<Descriptor>, k: string)
  {
    exists i | 0 <= i < |ds| :: ds[i].id == k
  }

  /** m holds exactly the Ids of ds, each under the re-issued descriptor of that Id. */
  predicate HoldsRemapped(m: map<string, Descriptor>, ds: seq<Descriptor>)
  {
    (forall k | k in m :: HasId(ds, k)) &&
    (forall i | 0 <= i < |ds| :: ds[i].id in m && m[ds[i].id] == Remap(ds[i]))
  }

  /** Adding a new Id keeps the map holding exactly the re-issued descriptors. */
  lemma HoldsRemappedStep(m: map<string, Descriptor>, init: seq<Descriptor>, last: Descriptor)
    requires HoldsRemapped(m, init) && last.id !in m
    ensures HoldsRemapped(m[last.id := Remap(last)], init + [last])
  {
    var ds := init + [last];
    forall k | k in m[last.id := Remap(last)] ensures HasId(ds, k) {
      if k == last.id {
        assert ds[|init|].id == k;
      } else {
        var i :| 0 <= i < |init| && init[i].id == k;
        assert ds[i].id == k;
      }
    }
  }

  /** One step of the fold: the last descriptor is added to the map of the others, unless its Id is taken. */
  lemma DescriptorMapStep(ds: seq<Descriptor>)
    requires ds != []
    ensures var init := ds[..|ds| - 1];
            var last := ds[|ds| - 1];
            DescriptorMap(ds) ==
              if DescriptorMap(init).Failure? then DescriptorMap(init)
              else if last.id in DescriptorMap(init).value then Failure(DuplicateDiagnosticId(last.id))
              else Success(DescriptorMap(init).value[last.id := Remap(last)])
  {
  }

  /** A built map holds every Id, each under its own re-issued descriptor, and nothing else. */
  lemma {:induction false} DescriptorMapHoldsRemapped(ds: seq<Descriptor>)
    requires DescriptorMap(ds).Success?
    ensures HoldsRemapped(DescriptorMap(ds).value, ds)
  {
    if ds != [] {
      var init := ds[..|ds| - 1];
      var last := ds[|ds| - 1];
      DescriptorMapStep(ds);
      var m := DescriptorMap(init).value;
      DescriptorMapHoldsRemapped(init);
      assert ds == init + [last];
      HoldsRemappedStep(m, init, last);
    }
  }

  /** Appending a descriptor keeps the Ids distinct exactly when its Id is new. */
  lemma DistinctIdsSnoc(init: seq<Descriptor>, last: Descriptor)
    ensures DistinctIds(init + [last]) <==> DistinctIds(init) && !HasId(init, last.id)
  {
    var ds := init + [last];
    if DistinctIds(ds) {
      forall i, j | 0 <= i < j < |init| ensures init[i].id != init[j].id {
        assert ds[i] == init[i] && ds[j] == init[j];
      }
      forall i | 0 <= i < |init| ensures init[i].id != last.id {
        assert ds[i] == init[i] && ds[|init|] == last;
      }
    }
  }

  /** A built map holds an Id exactly when some descriptor has it. */
  lemma HoldsRemappedKeys(m: map<string, Descriptor>, ds: seq<Descriptor>, k: string)
    requires HoldsRemapped(m, ds)
    ensures k in m <==> HasId(ds, k)
  {
  }

  /** The map is built exactly when the supported descriptors have distinct Ids. */
  lemma {:induction false} DescriptorMapSucceedsIffDistinct(ds: seq<Descriptor>)
    ensures DescriptorMap(ds).Success? <==> DistinctIds(ds)
  {
    if ds != [] {
      var init := ds[..|ds| - 1];
      var last := ds[|ds| - 1];
      DescriptorMapStep(ds);
      DescriptorMapSucceedsIffDistinct(init);
      assert ds == init + [last];
      DistinctIdsSnoc(init, last);
      if DescriptorMap(init).Success? {
        DescriptorMapHoldsRemapped(init);
        HoldsRemappedKeys(DescriptorMap(init).value, init, last.id);
      }
    }
  }

  /** The built map is keyed by Id, as the report gate expects. */
  lemma DescriptorMapKeyedById(ds: seq<Descriptor>)
    requires DescriptorMap(ds).Success?
    ensures ReportGate.KeyedById(DescriptorMap(ds).value)
  {
    DescriptorMapHoldsRemapped(ds);
    var m := DescriptorMap(ds).value;
    forall k | k in m ensures m[k].id == k {
      var i :| 0 <= i < |ds| && ds[i].id == k;
      assert m[ds[i].id] == Remap(ds[i]);
    }
  }

  /** Once a prefix fails, the whole list fails with the same error. */
  lemma {:induction false} DescriptorMapFailurePersists(ds: seq<Descriptor>, i: nat)
    requires i <= |ds|
    requires DescriptorMap(ds[..i]).Failure?
    ensures DescriptorMap(ds) == DescriptorMap(ds[..i])
    decreases |ds| - i
  {
    if i < |ds| {
      assert ds[..i + 1][..i] == ds[..i];
      DescriptorMapFailurePersists(ds, i + 1);
    } else {
      assert ds[..i] == ds;
    }
  }

  /** The failing descriptor at position j repeats an earlier Id, and no earlier descriptor does. */
  predicate FirstDuplicateAt(ds: seq<Descriptor>, j: int)
  {
    0 <= j < |ds| && DistinctIds(ds[..j]) && HasId(ds[..j], ds[j].id)
  }

  /** A failed load names the first repeated Id. */
  lemma {:induction false} DescriptorMapFailureNamesFirstDuplicate(ds: seq<Descriptor>)
    requires DescriptorMap(ds).Failure?
    ensures exists j :: FirstDuplicateAt(ds, j) && DescriptorMap(ds).error == DuplicateDiagnosticId(ds[j].id)
  {
    var init := ds[..|ds| - 1];
    var last := ds[|ds| - 1];
    if DescriptorMap(init).Failure? {
      DescriptorMapFailureNamesFirstDuplicate(init);
      var j :| FirstDuplicateAt(init, j) && DescriptorMap(init).error == DuplicateDiagnosticId(init[j].id);
      assert init[..j] == ds[..j] && init[j] == ds[j];
      assert FirstDuplicateAt(ds, j);
    } else {
      DescriptorMapSucceedsIffDistinct(init);
      DescriptorMapHoldsRemapped(init);
      assert last.id in DescriptorMap(init).value;
      assert ds[..|ds| - 1] == init;
      assert FirstDuplicateAt(ds, |ds| - 1);
    }
  }

  /**
   * The constructor's foreach loop: adds each supported descriptor's Id with
   * its re-issued descriptor, stopping at the first Id already present.
   */
  method BuildDescriptorMap(ds: seq<Descriptor>) returns (r: Result<map<string, Descriptor>, LoadError>)
    ensures r == DescriptorMap(ds)
  {
    var m: map<string, Descriptor> := map[];
    var i := 0;
    while i < |ds|
      invariant 0 <= i <= |ds|
      invariant DescriptorMap(ds[..i]) == Success(m)
    {
      var d := ds[i];
      assert ds[..i + 1][..i] == ds[..i];
      if d.id in m {
        assert DescriptorMap(ds[..i + 1]) == Failure(DuplicateDiagnosticId(d.id));
        DescriptorMapFailurePersists(ds, i + 1);
        return Failure(DuplicateDiagnosticId(d.id));
      }
      m := m[d.id := Remap(d)];
      i := i + 1;
    }
    assert ds[..i] == ds;
    return Success(m);
  }

  /** The supported diagnostics of a built map are exactly the re-issued supported descriptors. */
  lemma SupportedDiagnosticsAreRemapped(ds: seq<Descriptor>)
    requires DescriptorMap(ds).Success?
    ensures forall v :: v in DescriptorMap(ds).value.Values <==> exists d | d in ds :: v == Remap(d)
  {
    DescriptorMapHoldsRemapped(ds);
    var m := DescriptorMap(ds).value;
    forall v | v in m.Values ensures exists d | d in ds :: v == Remap(d) {
      var k :| k in m && m[k] == v;
      var i :| 0 <= i < |ds| && ds[i].id == k;
      assert m[ds[i].id] == Remap(ds[i]);
    }
    forall d | d in ds ensures Remap(d) in m.Values {
      var i :| 0 <= i < |ds| && ds[i] == d;
      assert m[ds[i].id] == Remap(ds[i]);
    }
  }
}

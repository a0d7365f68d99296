/** The `no-root-store-assets` rule (lib/rules/no-root-store-assets.js): a Vuex getter that takes
    `rootState` (a third parameter) or `rootGetters` (a fourth) is reported, and so is every
    destructured `rootState` / `rootGetters` key and every read of `.rootState` /
    `.rootGetters`. `isVuexGetters` and `getIdentifierValue` are imported from lib/utils.js,
    which defines neither; they are parameters here. */
module NoRootStoreAssets {
  import opened Wrappers
  import opened Seqs
  import opened Estree
  import opened Host
  import Utils

  const DefaultAssetName: string := "rootState and rootGetters"
  const AvoidRootAssets: string := "avoidRootAssets"

  const NoOutcome := Outcome([], [])

  /** `reportError(assetName)(context)(node)`: a report at the node itself; an omitted asset name
      falls back to the default. */
  function AssetReport(assetName: Option<string>, node: Node): (r: Diagnostic)
    ensures r.node == node
    ensures r.message.MessageId? && r.message.id == AvoidRootAssets && r.message.dataKey == "assetName"
    ensures r.message.dataValue == Some(if assetName.Some? then assetName.value else DefaultAssetName)
  {
    Diagnostic(node, MessageId(AvoidRootAssets, "assetName", Some(assetName.GetOr(DefaultAssetName))))
  }

  // ---------------------------------------------------------------------------
  // checkGettersForRootAssets
  // ---------------------------------------------------------------------------

  /** `getIdentifierValue(context)`, which lib/utils.js does not define: it takes the child and
      gives its function, or `undefined`, or throws the error in a `Failure`. */
  type IdentifierResolver = Node -> Result<Option<Node>, Error>

  /** `mapPropertyToFunction`: an identifier value is resolved by `getIdentifierValue(context)`,
      which may throw; any other child gives its `value`, which is absent for a spread. */
  function PropertyFunction(child: Node, resolve: IdentifierResolver): (r: Result<Option<Node>, Error>)
    ensures ValueOf(child).Some? && ValueOf(child).value.Identifier? ==> r == resolve(child)
    ensures ValueOf(child).Some? && !ValueOf(child).value.Identifier? ==> r == Success(ValueOf(child))
    ensures ValueOf(child).None? ==> r == Success(None)
  {
    match ValueOf(child)
    case Some(Identifier(_)) => resolve(child)
    case Some(v) => Success(Some(v))
    case None => Success(None)
  }

  /** The `cond` over `params.length`: the first matching branch names the asset; a value with no
      `params` matches neither comparison. */
  function RootAsset(f: Option<Node>): (r: Option<string>)
    ensures r == Some("rootGetters") <==> f.Some? && ParamCount(f.value).Some? && ParamCount(f.value).value >= 4
    ensures r == Some("rootState") <==> f.Some? && ParamCount(f.value).Some? && ParamCount(f.value).value == 3
    ensures r.None? <==> f.None? || ParamCount(f.value).None? || ParamCount(f.value).value <= 2
  {
    match f
    case None => None
    case Some(n) =>
      match ParamCount(n)
      case None => None
      case Some(count) =>
        if count >= 4 then Some("rootGetters")
        else if count >= 3 then Some("rootState")
        else None
  }

  predicate UsesRootAsset(f: Option<Node>) {
    RootAsset(f).Some?
  }

  /** The report for a function that uses a root asset. */
  function GetterReport(f: Option<Node>): Diagnostic {
    AssetReport(RootAsset(f), f.GetOr(OtherNode("undefined")))
  }

  /** The reports of the `forEach(cond(...))` over the mapped functions, in order. */
  function GetterDiagnostics(functions: seq<Option<Node>>): seq<Diagnostic> {
    Map(GetterReport, Filter(UsesRootAsset, functions))
  }

  /** Child `k` is the first whose function cannot be resolved: `map` throws there. */
  predicate FirstThrowAt(children: seq<Node>, resolve: IdentifierResolver, k: int) {
    && 0 <= k < |children| && PropertyFunction(children[k], resolve).Failure?
    && forall j :: 0 <= j < k ==> PropertyFunction(children[j], resolve).Success?
  }

  /** Behind a child that resolves, a first throw of the tail is a first throw of the list, one
      place on. */
  lemma FirstThrowShift(children: seq<Node>, resolve: IdentifierResolver, e: Error)
    requires children != [] && PropertyFunction(children[0], resolve).Success?
    requires exists k :: FirstThrowAt(children[1..], resolve, k) && PropertyFunction(children[1..][k], resolve).error == e
    ensures exists k :: FirstThrowAt(children, resolve, k) && PropertyFunction(children[k], resolve).error == e
  {
    var t := children[1..];
    var k :| FirstThrowAt(t, resolve, k) && PropertyFunction(t[k], resolve).error == e;
    assert forall j :: 1 <= j < k + 1 ==> children[j] == t[j - 1];
    assert children[k + 1] == t[k];
    assert FirstThrowAt(children, resolve, k + 1);
  }

  /** The children's functions, `map(mapPropertyToFunction)(childProps)`: one per child, in order,
      unless resolving one throws, which ends the `map` with the first such error. */
  function ChildFunctions(children: seq<Node>, resolve: IdentifierResolver): (r: Result<seq<Option<Node>>, Error>)
    ensures r.Success? <==> forall i :: 0 <= i < |children| ==> PropertyFunction(children[i], resolve).Success?
    ensures r.Success? ==> |r.value| == |children|
                           && forall i :: 0 <= i < |children| ==> r.value[i] == PropertyFunction(children[i], resolve).value
    ensures r.Failure? ==> exists k :: FirstThrowAt(children, resolve, k) && PropertyFunction(children[k], resolve).error == r.error
  {
    if children == [] then Success([])
    else
      match PropertyFunction(children[0], resolve)
      case Failure(e) =>
        assert FirstThrowAt(children, resolve, 0);
        Failure(e)
      case Success(f) =>
        var rest := ChildFunctions(children[1..], resolve);
        assert forall i :: 1 <= i < |children| ==> children[i] == children[1..][i - 1];
        match rest
        case Failure(e) =>
          FirstThrowShift(children, resolve, e);
          Failure(e)
        case Success(fs) => Success([f] + fs)
  }

  /** What `checkGettersForRootAssets(node, context)` appends: a throw of `getChildProperties` or
      of the `map` is caught and logged before anything is reported. */
  function GettersOutcome(node: Node, scope: Scope, resolve: IdentifierResolver): (r: Outcome)
    requires node.Property?
    ensures r.defects != [] ==> r.diagnostics == [] && |r.defects| == 1
    ensures Utils.GetChildProperties(node, scope).Failure? ==> r == Outcome([], [Utils.GetChildProperties(node, scope).error])
  {
    match Utils.GetChildProperties(node, scope)
    case Failure(e) => Outcome([], [e])
    case Success(children) =>
      match ChildFunctions(children, resolve)
      case Failure(e) => Outcome([], [e])
      case Success(functions) => Outcome(GetterDiagnostics(functions), [])
  }

  /** Each getter is reported at most once, at its function, naming the asset its parameter count
      selects: at least four parameters `rootGetters`, exactly three `rootState`, fewer nothing. */
  lemma GetterReports(node: Node, scope: Scope, resolve: IdentifierResolver, children: seq<Node>, functions: seq<Option<Node>>)
    requires node.Property? && Utils.GetChildProperties(node, scope) == Success(children)
    requires ChildFunctions(children, resolve) == Success(functions)
    ensures var out := GettersOutcome(node, scope, resolve);
            var reported := Filter(UsesRootAsset, functions);
            && out.defects == []
            && |out.diagnostics| == |reported| <= |children|
            && forall i :: 0 <= i < |reported| ==>
                 && reported[i].Some?
                 && out.diagnostics[i] == AssetReport(RootAsset(reported[i]), reported[i].value)
                 && RootAsset(reported[i]) in {Some("rootGetters"), Some("rootState")}
  {
    var reported := Filter(UsesRootAsset, functions);
    forall i | 0 <= i < |reported|
      ensures reported[i].Some? && RootAsset(reported[i]).Some?
    {
      var j := FilterSource(UsesRootAsset, functions, i);
    }
  }

  /** A child whose function cannot be resolved abandons the whole check: no getter is reported,
      not even one before it, and the first such error is logged once. */
  lemma ResolutionThrowAbandons(node: Node, scope: Scope, resolve: IdentifierResolver, children: seq<Node>, k: nat)
    requires node.Property? && Utils.GetChildProperties(node, scope) == Success(children)
    requires FirstThrowAt(children, resolve, k)
    ensures GettersOutcome(node, scope, resolve) == Outcome([], [PropertyFunction(children[k], resolve).error])
  {
    var r := ChildFunctions(children, resolve);
    assert r.Failure?;
    var m :| FirstThrowAt(children, resolve, m) && PropertyFunction(children[m], resolve).error == r.error;
    assert m == k;
  }

  /** A four-parameter getter followed by a named getter whose lookup throws: the `map` throws
      before the `forEach` runs, so the root getter goes unreported and one line is logged. */
  lemma ThrowAfterRootGetter(scope: Scope, body: Node, a: Node, b: Node, c: Node, d: Node, ref: string, e: Error)
    ensures var f := Function(ArrowFunctionExpression, [a, b, c, d], body);
            var getters := Utils.Entry("getters", ObjectExpression([Utils.Entry("total", f), Utils.Entry("named", Identifier(ref))]));
            GettersOutcome(getters, scope, _ => Failure(e)) == Outcome([], [e])
  {
    var f := Function(ArrowFunctionExpression, [a, b, c, d], body);
    var children := [Utils.Entry("total", f), Utils.Entry("named", Identifier(ref))];
    var getters := Utils.Entry("getters", ObjectExpression(children));
    assert Utils.GetChildProperties(getters, scope) == Success(children);
    assert FirstThrowAt(children, _ => Failure(e), 1);
    ResolutionThrowAbandons(getters, scope, _ => Failure(e), children, 1);
  }

  /** A getter written inline as a function with four parameters is reported as `rootGetters`,
      one with three as `rootState`, one with two not at all. */
  lemma InlineGetterExamples(name: string, body: Node, a: Node, b: Node, c: Node, d: Node, resolve: IdentifierResolver)
    ensures var f := Function(ArrowFunctionExpression, [a, b, c, d], body);
            && ChildFunctions([Utils.Entry(name, f)], resolve) == Success([Some(f)])
            && GetterDiagnostics([Some(f)]) == [AssetReport(Some("rootGetters"), f)]
    ensures var f := Function(ArrowFunctionExpression, [a, b, c], body);
            && ChildFunctions([Utils.Entry(name, f)], resolve) == Success([Some(f)])
            && GetterDiagnostics([Some(f)]) == [AssetReport(Some("rootState"), f)]
    ensures var f := Function(ArrowFunctionExpression, [a, b], body);
            && ChildFunctions([Utils.Entry(name, f)], resolve) == Success([Some(f)])
            && GetterDiagnostics([Some(f)]) == []
  {
    var f4 := Function(ArrowFunctionExpression, [a, b, c, d], body);
    var f3 := Function(ArrowFunctionExpression, [a, b, c], body);
    var f2 := Function(ArrowFunctionExpression, [a, b], body);
    assert ChildFunctions([Utils.Entry(name, f4)], resolve).value == [Some(f4)];
    assert ChildFunctions([Utils.Entry(name, f3)], resolve).value == [Some(f3)];
    assert ChildFunctions([Utils.Entry(name, f2)], resolve).value == [Some(f2)];
  }

  /** A getter given by name is counted on the function `getIdentifierValue` resolves it to, and
      a throw of that lookup is the check's error. */
  lemma IdentifierGetterResolved(name: string, ref: string, resolve: IdentifierResolver)
    ensures var e := Utils.Entry(name, Identifier(ref));
            ChildFunctions([e], resolve)
            == if resolve(e).Success? then Success([resolve(e).value]) else Failure(resolve(e).error)
  {
    var e := Utils.Entry(name, Identifier(ref));
    if resolve(e).Success? {
      assert ChildFunctions([e], resolve).value == [resolve(e).value];
    }
  }

  /** Appending the report of one more mapped function. */
  lemma GetterStep(functions: seq<Option<Node>>, i: nat)
    requires i < |functions|
    ensures GetterDiagnostics(functions[..i + 1])
            == GetterDiagnostics(functions[..i]) + (if UsesRootAsset(functions[i]) then [GetterReport(functions[i])] else [])
  {
    var a, b := functions[..i], [functions[i]];
    assert functions[..i + 1] == a + b;
    FilterAppend(UsesRootAsset, a, b);
    MapAppend(GetterReport, Filter(UsesRootAsset, a), Filter(UsesRootAsset, b));
  }

  /** A function that uses a root asset adds its report. */
  lemma UsedGetterStep(functions: seq<Option<Node>>, i: nat)
    requires i < |functions| && UsesRootAsset(functions[i])
    ensures GetterDiagnostics(functions[..i + 1]) == GetterDiagnostics(functions[..i]) + [GetterReport(functions[i])]
  {
    GetterStep(functions, i);
  }

  /** Any other function adds nothing. */
  lemma UnusedGetterStep(functions: seq<Option<Node>>, i: nat)
    requires i < |functions| && !UsesRootAsset(functions[i])
    ensures GetterDiagnostics(functions[..i + 1]) == GetterDiagnostics(functions[..i])
  {
    GetterStep(functions, i);
  }

  /** The `forEach(cond([...]))` over the mapped functions. */
  method ReportGetters(functions: seq<Option<Node>>, ctx: RuleContext)
    modifies ctx
    ensures ctx.reports == old(ctx.reports) + GetterDiagnostics(functions)
    ensures ctx.log == old(ctx.log)
  {
    var i := 0;
    while i < |functions|
      invariant 0 <= i <= |functions|
      invariant ctx.reports == old(ctx.reports) + GetterDiagnostics(functions[..i])
      invariant ctx.log == old(ctx.log)
    {
      var f := functions[i];
      if UsesRootAsset(f) {
        UsedGetterStep(functions, i);
        ctx.Report(GetterReport(f));
      } else {
        UnusedGetterStep(functions, i);
      }
      i := i + 1;
    }
    assert functions[..i] == functions;
  }

  /** `checkGettersForRootAssets(node, context)`: a resolution failure is caught and logged. */
  method CheckGettersForRootAssets(node: Node, scope: Scope, resolve: IdentifierResolver, ctx: RuleContext)
    requires node.Property?
    modifies ctx
    ensures ctx.reports == old(ctx.reports) + GettersOutcome(node, scope, resolve).diagnostics
    ensures ctx.log == old(ctx.log) + GettersOutcome(node, scope, resolve).defects
  {
    var children := Utils.GetChildProperties(node, scope);
    if children.Failure? {
      ctx.LogDefect(children.error);
      return;
    }
    var functions := ChildFunctions(children.value, resolve);
    if functions.Failure? {
      ctx.LogDefect(functions.error);
      return;
    }
    ReportGetters(functions.value, ctx);
  }

  /** The check as written calls the imported `getChildProperties`, which lib/utils.js does not
      export. */
  function GettersOutcomeAsWritten(node: Node, scope: Scope, resolve: IdentifierResolver): Outcome
    requires node.Property?
  {
    match Utils.CallImportedGetChildProperties(node, scope)
    case Failure(e) => Outcome([], [e])
    case Success(children) =>
      match ChildFunctions(children, resolve)
      case Failure(e) => Outcome([], [e])
      case Success(functions) => Outcome(GetterDiagnostics(functions), [])
  }

  /** As written no getter is ever reported: every call logs the `TypeError` of the missing import. */
  lemma AsWrittenNeverReportsGetters(node: Node, scope: Scope, resolve: IdentifierResolver)
    requires node.Property?
    ensures GettersOutcomeAsWritten(node, scope, resolve) == Outcome([], [NotAFunction("getChildProperties")])
  {
    assert "getChildProperties" !in Utils.UtilsExports;
  }

  /** A `getters` object with a four-parameter getter: reported by the corrected check, missed as
      written. */
  lemma AsWrittenMissesRootGetters(scope: Scope, body: Node, a: Node, b: Node, c: Node, d: Node, resolve: IdentifierResolver)
    ensures var f := Function(ArrowFunctionExpression, [a, b, c, d], body);
            var getters := Utils.Entry("getters", ObjectExpression([Utils.Entry("total", f)]));
            && GettersOutcome(getters, scope, resolve).diagnostics == [AssetReport(Some("rootGetters"), f)]
            && GettersOutcomeAsWritten(getters, scope, resolve).diagnostics == []
  {
    var f := Function(ArrowFunctionExpression, [a, b, c, d], body);
    var getters := Utils.Entry("getters", ObjectExpression([Utils.Entry("total", f)]));
    InlineGetterExamples("total", body, a, b, c, d, resolve);
    AsWrittenNeverReportsGetters(getters, scope, resolve);
  }

  // ---------------------------------------------------------------------------
  // The selectors
  // ---------------------------------------------------------------------------

  /** `Property[key.name='rootGetters']`, `Property[key.name='rootState']`,
      `MemberExpression[property.name='rootGetters']`, `MemberExpression[property.name='rootState']`:
      the asset the node names, if it matches one of them. */
  function SelectedAsset(node: Node): (r: Option<string>)
    ensures r.Some? ==> r.value in {"rootGetters", "rootState"}
    ensures r.Some?
        <==> (|| (node.Property? && KeyName(node) in {Some("rootGetters"), Some("rootState")})
              || (node.MemberExpression? && MemberPropertyName(node) in {Some("rootGetters"), Some("rootState")}))
    ensures node.Property? && KeyName(node) in {Some("rootGetters"), Some("rootState")} ==> r == KeyName(node)
    ensures node.MemberExpression? && MemberPropertyName(node) in {Some("rootGetters"), Some("rootState")}
            ==> r == MemberPropertyName(node)
  {
    var name := if node.Property? then KeyName(node) else MemberPropertyName(node);
    if name == Some("rootGetters") || name == Some("rootState") then name else None
  }

  /** What the four asset selectors append for one node (at most one of them matches). */
  function SelectorOutcome(node: Node): (r: Outcome)
    ensures r.defects == [] && |r.diagnostics| <= 1
    ensures r.diagnostics != [] <==> SelectedAsset(node).Some?
    ensures r.diagnostics != [] ==> r.diagnostics[0] == AssetReport(SelectedAsset(node), node)
  {
    match SelectedAsset(node)
    case Some(asset) => Outcome([AssetReport(Some(asset), node)], [])
    case None => NoOutcome
  }

  /** What all the rule's handlers append for one visited node: the getters check on an
      `ObjectExpression > Property` that `isVuexGetters` accepts, then the asset selectors. */
  function VisitOutcome(isVuexGetters: Visit -> bool, resolve: IdentifierResolver, v: Visit): (r: Outcome)
    ensures !(v.node.Property? && v.parent.ObjectExpression? && isVuexGetters(v)) ==> r == SelectorOutcome(v.node)
    ensures |r.defects| <= 1
    ensures r.defects != [] ==> r.diagnostics == SelectorOutcome(v.node).diagnostics
  {
    var getters := if v.node.Property? && v.parent.ObjectExpression? && isVuexGetters(v)
                   then GettersOutcome(v.node, v.scope, resolve) else NoOutcome;
    var selected := SelectorOutcome(v.node);
    Outcome(getters.diagnostics + selected.diagnostics, getters.defects + selected.defects)
  }

  /** A destructured `rootState` / `rootGetters` key or a read of `.rootState` / `.rootGetters` is
      reported once, at that node, wherever it appears: nothing about a store is checked. */
  lemma AssetAccessReported(node: Node, asset: string)
    requires asset in {"rootGetters", "rootState"}
    requires (node.Property? && KeyName(node) == Some(asset)) || (node.MemberExpression? && MemberPropertyName(node) == Some(asset))
    ensures SelectorOutcome(node) == Outcome([AssetReport(Some(asset), node)], [])
  {
  }

  /** `ctx.state`, `ctx.getters` and a destructured `commit`, `dispatch` or `state` are not
      reported. */
  lemma OrdinaryAccessNotReported(target: Node, value: Node)
    ensures SelectorOutcome(MemberExpression(target, Identifier("state"))) == NoOutcome
    ensures SelectorOutcome(MemberExpression(target, Identifier("getters"))) == NoOutcome
    ensures forall name :: name in {"commit", "dispatch", "state"} ==>
              SelectorOutcome(Property(Identifier(name), value, true, [])) == NoOutcome
  {
  }

  /** All the rule's handlers for one visited node. */
  method OnVisit(isVuexGetters: Visit -> bool, resolve: IdentifierResolver, v: Visit, ctx: RuleContext)
    modifies ctx
    ensures ctx.reports == old(ctx.reports) + VisitOutcome(isVuexGetters, resolve, v).diagnostics
    ensures ctx.log == old(ctx.log) + VisitOutcome(isVuexGetters, resolve, v).defects
  {
    if v.node.Property? && v.parent.ObjectExpression? && isVuexGetters(v) {
      CheckGettersForRootAssets(v.node, v.scope, resolve, ctx);
    }
    var asset := SelectedAsset(v.node);
    if asset.Some? {
      ctx.Report(AssetReport(asset, v.node));
    }
  }
}

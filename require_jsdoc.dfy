/** The `require-jsdoc` rule (lib/rules/require-jsdoc.js): for a property of an object literal
    that is a Vuex store's `actions` or `state`, or a Vue component's `props`, each enabled by an
    option, every entry of the property's value must be preceded by a doc comment. Its
    `reportError` and `hasNoValidDoc` are the same as `reportMissedJsdoc` and `hasNoValidDoc` of
    lib/utils.js and are modelled by `Utils.ReportMissedJsdoc` and `Utils.HasNoValidDoc`; its
    nested check differs from the shared one in that it keeps spread entries. */
module RequireJsdoc {
  import opened Wrappers
  import opened Seqs
  import opened Estree
  import opened Host
  import opened Utils

  // ---------------------------------------------------------------------------
  // Options
  // ---------------------------------------------------------------------------

  /** One element of `context.options`: its `require` object, if given. */
  datatype RuleOption = RuleOption(require: Option<map<string, bool>>)

  /** The three switches the rule reads. */
  datatype Flags = Flags(vueProps: bool, vuexActions: bool, vuexState: bool)

  const DefaultOptions: map<string, bool> := map["VueProps" := true, "VuexActions" := false, "VuexState" := false]

  /** `R.path(["options", 0, "require"], context)` */
  function RequireOption(options: seq<RuleOption>): Option<map<string, bool>> {
    if options == [] then None else options[0].require
  }

  /** `R.merge(defaults, supplied)`: the supplied keys win; an absent object adds nothing. */
  function Merge(defaults: map<string, bool>, supplied: Option<map<string, bool>>): (r: map<string, bool>)
    ensures r.Keys == defaults.Keys + (if supplied.Some? then supplied.value.Keys else {})
    ensures forall k :: k in r ==> r[k] == (if supplied.Some? && k in supplied.value then supplied.value[k] else defaults[k])
  {
    match supplied
    case None => defaults
    case Some(m) => defaults + m
  }

  /** The flags `create` destructures from the merged options. */
  function EffectiveFlags(options: seq<RuleOption>): (r: Flags)
    ensures var req := RequireOption(options);
            && r.vueProps == (if req.Some? && "VueProps" in req.value then req.value["VueProps"] else true)
            && r.vuexActions == (if req.Some? && "VuexActions" in req.value then req.value["VuexActions"] else false)
            && r.vuexState == (if req.Some? && "VuexState" in req.value then req.value["VuexState"] else false)
  {
    var m := Merge(DefaultOptions, RequireOption(options));
    Flags(m["VueProps"], m["VuexActions"], m["VuexState"])
  }

  /** Without options, or without a `require` object, only `VueProps` is on. */
  lemma DefaultFlags(options: seq<RuleOption>)
    requires options == [] || options[0].require.None?
    ensures EffectiveFlags(options) == Flags(true, false, false)
  {
  }

  /** A supplied key sets exactly the flag it names; the others keep their defaults. */
  lemma SuppliedFlags(options: seq<RuleOption>, m: map<string, bool>)
    requires options != [] && options[0].require == Some(m)
    ensures EffectiveFlags(options).vueProps == (if "VueProps" in m then m["VueProps"] else true)
    ensures EffectiveFlags(options).vuexActions == (if "VuexActions" in m then m["VuexActions"] else false)
    ensures EffectiveFlags(options).vuexState == (if "VuexState" in m then m["VuexState"] else false)
  {
  }

  /** A key the rule does not read, such as the misspelt `VuexAction`, changes nothing. */
  lemma UnknownKeyIgnored(m: map<string, bool>, key: string, b: bool, rest: seq<RuleOption>)
    requires key !in {"VueProps", "VuexActions", "VuexState"}
    ensures EffectiveFlags([RuleOption(Some(m[key := b]))] + rest) == EffectiveFlags([RuleOption(Some(m))] + rest)
  {
    var withKey := Merge(DefaultOptions, Some(m[key := b]));
    var without := Merge(DefaultOptions, Some(m));
    assert withKey["VueProps"] == without["VueProps"];
    assert withKey["VuexActions"] == without["VuexActions"];
    assert withKey["VuexState"] == without["VuexState"];
  }

  // ---------------------------------------------------------------------------
  // checkNestedPropertiesForDoc (the rule's own copy)
  // ---------------------------------------------------------------------------

  /** What the rule's `checkNestedPropertiesForDoc(node, context)` appends when `getChildProperties`
      is the function of lib/utils.js: the undocumented children, spreads included, go through the
      keyed loop, which stops at the first keyless one. */
  function NestedDocOutcome(node: Node, scope: Scope): (r: Outcome)
    requires node.Property?
    ensures GetChildProperties(node, scope).Failure? ==> r == Outcome([], [GetChildProperties(node, scope).error])
    ensures |r.defects| <= 1
    ensures forall i :: 0 <= i < |r.diagnostics| ==> r.diagnostics[i].message == Text(MissingJsdocMessage)
  {
    match GetChildProperties(node, scope)
    case Failure(e) => Outcome([], [e])
    case Success(children) => MissedJsdocOutcome(Filter(HasNoValidDoc, children))
  }

  /** An undocumented spread ends the reports: the undocumented properties before it are reported,
      each at its key, none after it, and the throw is logged. Documented spreads before it are
      filtered out and do not throw. */
  lemma SpreadStopsReports(node: Node, scope: Scope, children: seq<Node>, k: nat)
    requires node.Property? && GetChildProperties(node, scope) == Success(children)
    requires k < |children| && IsSpread(children[k]) && HasNoValidDoc(children[k])
    requires forall j :: 0 <= j < k ==> children[j].Property? || !HasNoValidDoc(children[j])
    ensures var before := Filter(HasNoValidDoc, children[..k]);
            && NestedDocOutcome(node, scope).defects == [NodeWithoutKey]
            && NestedDocOutcome(node, scope).diagnostics == KeyDiagnostics(before, Text(MissingJsdocMessage))
            && |NestedDocOutcome(node, scope).diagnostics| == |before|
  {
    UndocumentedSpreadStops(children, k);
  }

  /** The keyed loop over the undocumented children stops at an undocumented spread after the
      undocumented properties before it. */
  lemma UndocumentedSpreadStops(children: seq<Node>, k: nat)
    requires k < |children| && IsSpread(children[k]) && HasNoValidDoc(children[k])
    requires forall j :: 0 <= j < k ==> children[j].Property? || !HasNoValidDoc(children[j])
    ensures var before := Filter(HasNoValidDoc, children[..k]);
            var out := MissedJsdocOutcome(Filter(HasNoValidDoc, children));
            && out.defects == [NodeWithoutKey]
            && out.diagnostics == KeyDiagnostics(before, Text(MissingJsdocMessage))
            && |out.diagnostics| == |before|
  {
    var before := Filter(HasNoValidDoc, children[..k]);
    var all := Filter(HasNoValidDoc, children);
    FilterSplitAt(HasNoValidDoc, children, k);
    forall i | 0 <= i < |before|
      ensures before[i].Property?
    {
      var j := FilterSource(HasNoValidDoc, children[..k], i);
    }
    assert all[|before|] == children[k];
    KeyDiagnosticsStop(all, |before|, Text(MissingJsdocMessage));
    assert all[..|before|] == before;
  }

  /** Without spread children the rule's copy and the shared check agree. */
  lemma AgreesWithoutSpreads(node: Node, scope: Scope, children: seq<Node>)
    requires node.Property? && GetChildProperties(node, scope) == Success(children)
    requires forall i :: 0 <= i < |children| ==> !IsSpread(children[i])
    ensures NestedDocOutcome(node, scope) == Utils.NestedDocOutcome(node, scope)
  {
    FilterKeepsAll(NotSpreadElement, children);
    FilterKeepsAll(NotExperimentalSpread, children);
  }

  /** `checkNestedPropertiesForDoc(node, context)`: everything is caught and logged; nothing
      propagates. */
  method CheckNestedPropertiesForDoc(node: Node, scope: Scope, ctx: RuleContext)
    requires node.Property?
    modifies ctx
    ensures ctx.reports == old(ctx.reports) + NestedDocOutcome(node, scope).diagnostics
    ensures ctx.log == old(ctx.log) + NestedDocOutcome(node, scope).defects
  {
    var children := GetChildProperties(node, scope);
    if children.Failure? {
      ctx.LogDefect(children.error);
      return;
    }
    var thrown := ReportMissedJsdoc(Filter(HasNoValidDoc, children.value), ctx);
    if thrown.Some? {
      ctx.LogDefect(thrown.value);
    }
  }

  // ---------------------------------------------------------------------------
  // The import of getChildProperties, as written
  // ---------------------------------------------------------------------------

  /** The rule's check as written: it calls the imported `getChildProperties`. */
  function NestedDocOutcomeAsWritten(node: Node, scope: Scope): Outcome
    requires node.Property?
  {
    match CallImportedGetChildProperties(node, scope)
    case Failure(e) => Outcome([], [e])
    case Success(children) => MissedJsdocOutcome(Filter(HasNoValidDoc, children))
  }

  /** As written the check never reports: the import is `undefined`, so every call throws a
      `TypeError` that the check catches and logs. */
  lemma AsWrittenNeverReports(node: Node, scope: Scope)
    requires node.Property?
    ensures NestedDocOutcomeAsWritten(node, scope) == Outcome([], [NotAFunction("getChildProperties")])
  {
    assert "getChildProperties" !in UtilsExports;
  }

  /** An undocumented prop that the corrected check reports and the check as written misses. */
  lemma AsWrittenMissesUndocumentedProp(scope: Scope)
    ensures var prop := Entry("name", Identifier("String"));
            var props := Entry("props", ObjectExpression([prop]));
            && NestedDocOutcome(props, scope).diagnostics == [Diagnostic(Identifier("name"), Text(MissingJsdocMessage))]
            && NestedDocOutcomeAsWritten(props, scope).diagnostics == []
  {
    var prop := Entry("name", Identifier("String"));
    assert HasNoValidDoc(prop);
    assert Filter(HasNoValidDoc, [prop]) == [prop];
    AsWrittenNeverReports(Entry("props", ObjectExpression([prop])), scope);
  }

  // ---------------------------------------------------------------------------
  // The "ObjectExpression > Property" handler
  // ---------------------------------------------------------------------------

  /** The selector `ObjectExpression > Property`. */
  predicate Selected(v: Visit) {
    v.node.Property? && v.parent.ObjectExpression?
  }

  /** Some enabled classifier holds for the visited property. */
  predicate RunsCheck(flags: Flags, v: Visit)
    requires Selected(v)
  {
    var siblings := v.parent.properties;
    || (IsVuexActions(v.node, siblings) && flags.vuexActions)
    || (IsVuexState(v.node, siblings) && flags.vuexState)
    || (IsVueProps(v.node, siblings) && flags.vueProps)
  }

  function Append(a: Outcome, b: Outcome): Outcome {
    Outcome(a.diagnostics + b.diagnostics, a.defects + b.defects)
  }

  const NoOutcome := Outcome([], [])

  /** What the handler appends for one visited node: the three guarded checks in order. */
  function VisitOutcome(flags: Flags, v: Visit): (r: Outcome)
    ensures !Selected(v) ==> r == NoOutcome
    ensures Selected(v) && !RunsCheck(flags, v) ==> r == NoOutcome
  {
    if !Selected(v) then NoOutcome
    else
      var check := NestedDocOutcome(v.node, v.scope);
      var g := Guards(flags, v);
      assert Append(NoOutcome, NoOutcome) == NoOutcome;
      Append(Append(Guarded(g.vuexActions, check), Guarded(g.vuexState, check)), Guarded(g.vueProps, check))
  }

  /** The conditions of the three `if`s: the flags whose classifier also holds. */
  function Guards(flags: Flags, v: Visit): Flags
    requires Selected(v)
  {
    var siblings := v.parent.properties;
    Flags(IsVueProps(v.node, siblings) && flags.vueProps,
          IsVuexActions(v.node, siblings) && flags.vuexActions,
          IsVuexState(v.node, siblings) && flags.vuexState)
  }

  /** A call of the check behind an `if`. */
  function Guarded(b: bool, check: Outcome): Outcome {
    if b then check else NoOutcome
  }

  /** Appending three guarded copies of one outcome, at most one guard holding. */
  lemma OneOfThree(check: Outcome, a: bool, s: bool, p: bool)
    requires !(a && s) && !(a && p) && !(s && p)
    ensures Append(Append(Guarded(a, check), Guarded(s, check)), Guarded(p, check))
            == if a || s || p then check else NoOutcome
  {
    assert Append(check, NoOutcome) == check;
    assert Append(NoOutcome, check) == check;
    assert Append(NoOutcome, NoOutcome) == NoOutcome;
  }

  /** The check runs once when its classifier and its flag both hold, and otherwise not at all:
      the classifiers exclude one another, so it never runs twice. */
  lemma AtMostOneCheck(flags: Flags, v: Visit)
    ensures VisitOutcome(flags, v) == (if Selected(v) && RunsCheck(flags, v) then NestedDocOutcome(v.node, v.scope) else NoOutcome)
  {
    if Selected(v) {
      var siblings := v.parent.properties;
      ClassifiersExclusive(v.node, siblings);
      var check := NestedDocOutcome(v.node, v.scope);
      var a := IsVuexActions(v.node, siblings) && flags.vuexActions;
      var s := IsVuexState(v.node, siblings) && flags.vuexState;
      var p := IsVueProps(v.node, siblings) && flags.vueProps;
      assert !(a && s) && !(a && p) && !(s && p);
      OneOfThree(check, a, s, p);
    }
  }

  /** Every report of the handler carries the fixed message. */
  lemma VisitReportsMessage(flags: Flags, v: Visit)
    ensures forall i :: 0 <= i < |VisitOutcome(flags, v).diagnostics| ==>
              VisitOutcome(flags, v).diagnostics[i].message == Text(MissingJsdocMessage)
  {
    AtMostOneCheck(flags, v);
  }

  /** The three guarded calls of the handler, in order, with at most one guard holding. */
  method CheckGuarded(actions: bool, state: bool, props: bool, node: Node, scope: Scope, ctx: RuleContext)
    requires node.Property?
    requires !(actions && state) && !(actions && props) && !(state && props)
    modifies ctx
    ensures ctx.reports == old(ctx.reports) + (if actions || state || props then NestedDocOutcome(node, scope).diagnostics else [])
    ensures ctx.log == old(ctx.log) + (if actions || state || props then NestedDocOutcome(node, scope).defects else [])
  {
    if actions {
      CheckNestedPropertiesForDoc(node, scope, ctx);
    }
    if state {
      CheckNestedPropertiesForDoc(node, scope, ctx);
    }
    if props {
      CheckNestedPropertiesForDoc(node, scope, ctx);
    }
  }

  /** The `ObjectExpression > Property` handler. */
  method OnVisit(flags: Flags, v: Visit, ctx: RuleContext)
    modifies ctx
    ensures ctx.reports == old(ctx.reports) + VisitOutcome(flags, v).diagnostics
    ensures ctx.log == old(ctx.log) + VisitOutcome(flags, v).defects
  {
    if !Selected(v) {
      return;
    }
    var siblings := v.parent.properties;
    var actions := IsVuexActions(v.node, siblings) && flags.vuexActions;
    var state := IsVuexState(v.node, siblings) && flags.vuexState;
    var props := IsVueProps(v.node, siblings) && flags.vueProps;
    ClassifiersExclusive(v.node, siblings);
    CheckGuarded(actions, state, props, v.node, v.scope, ctx);
    AtMostOneCheck(flags, v);
  }
}

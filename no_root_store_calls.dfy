/** The `no-root-store-calls` rule (lib/rules/no-root-store-calls.js): a `commit` or `dispatch`
    call that passes `{ root: true }` as its second or third argument acts in the global
    namespace and is reported. */
module NoRootStoreCalls {
  import opened Wrappers
  import opened Estree
  import opened Host

  const AvoidRootCalls: string := "avoidRootCalls"

  const NoOutcome := Outcome([], [])

  /** `R.path(["arguments", i], node)` */
  function Argument(node: Node, i: nat): Option<Node> {
    if node.CallExpression? && i < |node.arguments| then Some(node.arguments[i]) else None
  }

  /** `R.path(["properties", "0"], arg)`: the first entry of an object argument. */
  function FirstEntry(arg: Option<Node>): Option<Node> {
    match arg
    case None => None
    case Some(a) =>
      match PropertiesOf(a)
      case Some(ps) => if ps != [] then Some(ps[0]) else None
      case None => None
  }

  /** `isRootArg(arg)`: the first entry has the key name `root` and a value whose `value` equals
      `true`. */
  function IsRootArg(arg: Option<Node>): (b: bool)
    ensures b <==> arg.Some? && IsRootObject(arg.value)
  {
    var first := FirstEntry(arg);
    && first.Some?
    && KeyName(first.value) == Some("root")
    && ValueOf(first.value).Some?
    && LiteralOf(ValueOf(first.value).value) == Some(BoolValue(true))
  }

  /** `isRootCall`: argument 1 or argument 2 is a root argument. */
  function IsRootCall(node: Node): (b: bool)
    ensures b ==> node.CallExpression? && |node.arguments| >= 2
  {
    IsRootArg(Argument(node, 1)) || IsRootArg(Argument(node, 2))
  }

  /** An object literal or pattern whose first entry is `root: true`. */
  predicate IsRootObject(n: Node) {
    && (n.ObjectExpression? || n.ObjectPattern?)
    && |n.properties| > 0
    && n.properties[0].Property?
    && n.properties[0].key == Identifier("root")
    && n.properties[0].value == Literal(BoolValue(true))
  }

  /** A call is a root call exactly when its second or third argument is an object literal whose
      first entry is `root: true`; later entries and the first argument do not matter. */
  lemma RootCallIff(node: Node)
    requires node.CallExpression?
    ensures IsRootCall(node) <==> exists i :: 1 <= i <= 2 && i < |node.arguments| && IsRootObject(node.arguments[i])
  {
    if IsRootCall(node) {
      var i := if IsRootArg(Argument(node, 1)) then 1 else 2;
      assert Argument(node, i) == Some(node.arguments[i]);
      assert IsRootObject(node.arguments[i]);
    }
    if exists i :: 1 <= i <= 2 && i < |node.arguments| && IsRootObject(node.arguments[i]) {
      var i :| 1 <= i <= 2 && i < |node.arguments| && IsRootObject(node.arguments[i]);
      assert IsRootArg(Argument(node, i));
    }
  }

  /** `R.path(["callee", "name"], node) || R.path(["callee", "property", "name"], node)`: an empty
      name is falsy and falls through to the member's property name. */
  function ActionName(node: Node): (r: Option<string>)
    requires node.CallExpression?
    ensures node.callee.Identifier? && node.callee.name != [] ==> r == Some(node.callee.name)
    ensures node.callee.MemberExpression? ==> r == MemberPropertyName(node.callee)
    ensures !node.callee.Identifier? && !node.callee.MemberExpression? ==> r.None?
  {
    match NameOf(node.callee)
    case Some(name) => if name != [] then Some(name) else MemberPropertyName(node.callee)
    case None => MemberPropertyName(node.callee)
  }

  /** The report of a root call: at the call, naming the action. */
  function RootCallReport(node: Node): Diagnostic
    requires node.CallExpression?
  {
    Diagnostic(node, MessageId(AvoidRootCalls, "actionName", ActionName(node)))
  }

  /** What `checkRootCall(context)(node)` appends: one report for a root call, nothing otherwise;
      no path throws, so nothing is logged. */
  function RootCallOutcome(node: Node): (r: Outcome)
    requires node.CallExpression?
    ensures r.defects == []
    ensures |r.diagnostics| <= 1
    ensures r.diagnostics != [] <==> IsRootCall(node)
    ensures r.diagnostics != [] ==> r.diagnostics[0] == Diagnostic(node, MessageId(AvoidRootCalls, "actionName", ActionName(node)))
  {
    if IsRootCall(node) then Outcome([RootCallReport(node)], []) else NoOutcome
  }

  /** `checkRootCall(context)(node)` */
  method CheckRootCall(node: Node, ctx: RuleContext)
    requires node.CallExpression?
    modifies ctx
    ensures ctx.reports == old(ctx.reports) + RootCallOutcome(node).diagnostics
    ensures ctx.log == old(ctx.log)
  {
    var arg2 := Argument(node, 1);
    var arg3 := Argument(node, 2);
    if IsRootArg(arg2) || IsRootArg(arg3) {
      ctx.Report(RootCallReport(node));
    }
  }

  // ---------------------------------------------------------------------------
  // The selectors
  // ---------------------------------------------------------------------------

  /** `CallExpression[callee.name=name]` */
  predicate CalleeNamed(node: Node, name: string) {
    node.CallExpression? && NameOf(node.callee) == Some(name)
  }

  /** `CallExpression[callee.property.name=name]` */
  predicate CalleePropertyNamed(node: Node, name: string) {
    node.CallExpression? && MemberPropertyName(node.callee) == Some(name)
  }

  /** How many of the four selectors match the node, in their listing order. */
  function MatchingSelectors(node: Node): nat {
    (if CalleeNamed(node, "commit") then 1 else 0)
    + (if CalleePropertyNamed(node, "commit") then 1 else 0)
    + (if CalleeNamed(node, "dispatch") then 1 else 0)
    + (if CalleePropertyNamed(node, "dispatch") then 1 else 0)
  }

  /** A commit or dispatch call, by name or as a member property. */
  predicate IsCommitOrDispatch(node: Node) {
    && node.CallExpression?
    && (NameOf(node.callee) in {Some("commit"), Some("dispatch")}
        || MemberPropertyName(node.callee) in {Some("commit"), Some("dispatch")})
  }

  /** At most one selector matches a node, and one does exactly for commit and dispatch calls. */
  lemma OneSelectorAtMost(node: Node)
    ensures MatchingSelectors(node) <= 1
    ensures MatchingSelectors(node) == 1 <==> IsCommitOrDispatch(node)
  {
  }

  /** What the handlers append for one visited node. */
  function VisitOutcome(node: Node): (r: Outcome)
    ensures !IsCommitOrDispatch(node) ==> r == NoOutcome
    ensures IsCommitOrDispatch(node) ==> r == RootCallOutcome(node)
  {
    OneSelectorAtMost(node);
    if MatchingSelectors(node) == 1 then RootCallOutcome(node) else NoOutcome
  }

  /** All four handlers for one visited node. */
  method OnVisit(node: Node, ctx: RuleContext)
    modifies ctx
    ensures ctx.reports == old(ctx.reports) + VisitOutcome(node).diagnostics
    ensures ctx.log == old(ctx.log)
  {
    OneSelectorAtMost(node);
    if CalleeNamed(node, "commit") {
      CheckRootCall(node, ctx);
    }
    if CalleePropertyNamed(node, "commit") {
      CheckRootCall(node, ctx);
    }
    if CalleeNamed(node, "dispatch") {
      CheckRootCall(node, ctx);
    }
    if CalleePropertyNamed(node, "dispatch") {
      CheckRootCall(node, ctx);
    }
  }

  // ---------------------------------------------------------------------------
  // Calls that are not reported
  // ---------------------------------------------------------------------------

  /** `{ root: true }` as an object literal. */
  function RootTrue(): Node {
    ObjectExpression([Property(Identifier("root"), Literal(BoolValue(true)), false, [])])
  }

  /** The flag in argument 0 (a call with fewer than two arguments included), `root` after another
      entry, `root: 1` and a string key `'root'` are all not root calls. */
  lemma NotRootCalls(callee: Node, a: Node, other: Node)
    ensures !IsRootCall(CallExpression(callee, [RootTrue()]))
    ensures !IsRootCall(CallExpression(callee, [RootTrue(), Literal(StringValue("m"))]))
    ensures !IsRootCall(CallExpression(callee, [a, ObjectExpression([
              Property(Identifier("type"), other, false, []),
              Property(Identifier("root"), Literal(BoolValue(true)), false, [])])]))
    ensures !IsRootCall(CallExpression(callee, [a, ObjectExpression([
              Property(Identifier("root"), Literal(NumberValue(1)), false, [])])]))
    ensures !IsRootCall(CallExpression(callee, [a, ObjectExpression([
              Property(Literal(StringValue("root")), Literal(BoolValue(true)), false, [])])]))
  {
  }

  /** `ctx.commit('1')`, `dispatch(1, null)` and `commit({ type: 'm', prop: 1 })` are not reported. */
  lemma UnreportedCalls(ctxName: string)
    ensures VisitOutcome(CallExpression(MemberExpression(Identifier(ctxName), Identifier("commit")),
              [Literal(StringValue("1"))])) == NoOutcome
    ensures VisitOutcome(CallExpression(Identifier("dispatch"), [Literal(NumberValue(1)), Literal(NullValue)])) == NoOutcome
    ensures VisitOutcome(CallExpression(Identifier("commit"), [ObjectExpression([
              Property(Identifier("type"), Literal(StringValue("m")), false, []),
              Property(Identifier("prop"), Literal(NumberValue(1)), false, [])])])) == NoOutcome
  {
  }

  /** `commit("m", payload, { root: true })` and `ctx.dispatch("a", payload, { root: true })` are
      reported once, naming `commit` and `dispatch`. */
  lemma ReportedCalls(ctxName: string, payload: Node)
    ensures VisitOutcome(CallExpression(Identifier("commit"), [Literal(StringValue("m")), payload, RootTrue()])).diagnostics
            == [Diagnostic(CallExpression(Identifier("commit"), [Literal(StringValue("m")), payload, RootTrue()]),
                           MessageId(AvoidRootCalls, "actionName", Some("commit")))]
    ensures var call := CallExpression(MemberExpression(Identifier(ctxName), Identifier("dispatch")),
                                       [Literal(StringValue("a")), payload, RootTrue()]);
            VisitOutcome(call).diagnostics == [Diagnostic(call, MessageId(AvoidRootCalls, "actionName", Some("dispatch")))]
  {
    var call := CallExpression(Identifier("commit"), [Literal(StringValue("m")), payload, RootTrue()]);
    assert IsRootArg(Argument(call, 2));
    var call2 := CallExpression(MemberExpression(Identifier(ctxName), Identifier("dispatch")),
                                [Literal(StringValue("a")), payload, RootTrue()]);
    assert IsRootArg(Argument(call2, 2));
  }
}

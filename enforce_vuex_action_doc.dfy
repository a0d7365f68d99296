/** The `enforce-vuex-action-doc` rule (lib/rules/enforce-vuex-action-doc.js): in an object that
    has a sibling keyed `state`, every entry of the `actions` property must carry a leading comment
    with some non-blank text. A shorthand `actions` is resolved through the references of the
    variable of that name in the key's own scope. */
module EnforceVuexActionDoc {
  import opened Wrappers
  import opened Seqs
  import opened Estree
  import opened Host
  import Utils

  const ActionsErrorMessage: string := "Actions in vuex store should has jsdoc"

  /** An outcome with nothing in it. */
  const NoOutcome := Outcome([], [])

  // ---------------------------------------------------------------------------
  // isWithinVuexStore: some sibling is keyed `state`
  // ---------------------------------------------------------------------------

  /** `siblings.some(prop => prop.key.name === "state")`: reading the key of a keyless sibling
      throws, unless a `state` sibling came first. */
  function SomeStateKey(siblings: seq<Node>): (r: Result<bool, Error>)
    ensures (forall i :: 0 <= i < |siblings| ==> siblings[i].Property?)
              ==> r == Success(exists i :: 0 <= i < |siblings| && KeyName(siblings[i]) == Some("state"))
    ensures r == Success(true) ==> exists i :: 0 <= i < |siblings| && KeyName(siblings[i]) == Some("state")
    ensures r.Failure? ==> r.error == SiblingWithoutKey
    ensures r.Failure? <==> exists k :: KeylessFirst(siblings, k)
    ensures r.Success? ==> (r.value <==> exists i :: 0 <= i < |siblings| && KeyName(siblings[i]) == Some("state"))
  {
    if siblings == [] then Success(false)
    else if !siblings[0].Property? then
      assert KeylessFirst(siblings, 0);
      Failure(SiblingWithoutKey)
    else if KeyName(siblings[0]) == Some("state") then Success(true)
    else
      var r := SomeStateKey(siblings[1..]);
      assert forall i :: 1 <= i < |siblings| ==> siblings[i] == siblings[1..][i - 1];
      KeylessFirstShift(siblings);
      r
  }

  /** Sibling `k` is keyless, and every sibling before it is keyed and not keyed `state`: the
      `.some` reaches it and throws. */
  predicate KeylessFirst(siblings: seq<Node>, k: int) {
    && 0 <= k < |siblings| && !siblings[k].Property?
    && forall j :: 0 <= j < k ==> siblings[j].Property? && KeyName(siblings[j]) != Some("state")
  }

  /** Below a keyed head that is not `state`, a throwing position of the list is one of its tail,
      one place on. */
  lemma KeylessFirstShift(siblings: seq<Node>)
    requires siblings != [] && siblings[0].Property? && KeyName(siblings[0]) != Some("state")
    ensures (exists k :: KeylessFirst(siblings, k)) <==> (exists k :: KeylessFirst(siblings[1..], k))
  {
    var t := siblings[1..];
    if exists k :: KeylessFirst(siblings, k) {
      var k :| KeylessFirst(siblings, k);
      assert forall j :: 0 <= j < k - 1 ==> t[j] == siblings[j + 1];
      assert KeylessFirst(t, k - 1);
    }
    if exists k :: KeylessFirst(t, k) {
      var k :| KeylessFirst(t, k);
      assert forall j :: 1 <= j < k + 1 ==> siblings[j] == t[j - 1];
      assert KeylessFirst(siblings, k + 1);
    }
  }

  /** A spread before the `state` entry makes the test throw; after it, `.some` has already
      stopped at `state`. */
  lemma SpreadBeforeStateThrows(arg: Node, v: Node)
    ensures SomeStateKey([SpreadElement(arg, []), Utils.Entry("state", v)]) == Failure(SiblingWithoutKey)
    ensures SomeStateKey([Utils.Entry("state", v), SpreadElement(arg, [])]) == Success(true)
  {
  }

  /** `isWithinVuexStore(node)`: the store test of this rule, on the visited property's parent. */
  function IsWithinVuexStore(parent: Node): (r: Result<bool, Error>)
    ensures PropertiesOf(parent).None? ==> r == Failure(PropertiesUndefined)
    ensures PropertiesOf(parent).Some? ==> r == SomeStateKey(PropertiesOf(parent).value)
  {
    match PropertiesOf(parent)
    case None => Failure(PropertiesUndefined)
    case Some(siblings) => SomeStateKey(siblings)
  }

  // ---------------------------------------------------------------------------
  // hasLeadingComment
  // ---------------------------------------------------------------------------

  /** `comments.some(({ value = "" }) => value.trim())`: a non-empty trimmed text is truthy. */
  function SomeNonBlank(comments: seq<Comment>): (r: bool)
    ensures r <==> exists i :: 0 <= i < |comments| && Trim(comments[i].value) != []
  {
    if comments == [] then false
    else
      assert forall i :: 1 <= i < |comments| ==> comments[i] == comments[1..][i - 1];
      Trim(comments[0].value) != [] || SomeNonBlank(comments[1..])
  }

  /** `hasLeadingComment(action)`: a comment of either kind with some non-blank text. */
  function HasLeadingComment(n: Node): (b: bool)
    ensures b <==> exists i :: 0 <= i < |CommentsBefore(n)| && Trim(CommentsBefore(n)[i].value) != []
  {
    SomeNonBlank(CommentsBefore(n))
  }

  /** A leading comment counts exactly when its text is not all whitespace. */
  lemma LeadingCommentIsNonBlank(n: Node)
    ensures HasLeadingComment(n)
        <==> exists i :: (0 <= i < |CommentsBefore(n)|
                          && exists j :: 0 <= j < |CommentsBefore(n)[i].value| && !IsWhitespace(CommentsBefore(n)[i].value[j]))
  {
    var cs := CommentsBefore(n);
    forall i | 0 <= i < |cs|
      ensures Trim(cs[i].value) != [] <==> exists j :: 0 <= j < |cs[i].value| && !IsWhitespace(cs[i].value[j])
    {
    }
  }

  /** This rule is looser than the doc test of lib/utils.js: a valid doc block is a leading
      comment, while a line comment or a plain block also counts here. */
  lemma DocCommentIsLeadingComment(n: Node)
    requires !Utils.HasNoValidDoc(n)
    ensures HasLeadingComment(n)
  {
    var i :| 0 <= i < |CommentsBefore(n)| && Utils.IsDocComment(CommentsBefore(n)[i]);
    assert Trim(CommentsBefore(n)[i].value) != [];
  }

  /** A non-blank line comment documents an action here but is no doc for the other rule. */
  lemma LineCommentCountsHere(name: string, value: Node, text: string)
    requires text != [] && !IsWhitespace(text[0]) && !IsWhitespace(text[|text| - 1])
    ensures var action := Property(Identifier(name), value, false, [Comment(Line, text)]);
            HasLeadingComment(action) && Utils.HasNoValidDoc(action)
  {
    var action := Property(Identifier(name), value, false, [Comment(Line, text)]);
    assert Trim(CommentsBefore(action)[0].value) == text;
  }

  // ---------------------------------------------------------------------------
  // findShorthandValue
  // ---------------------------------------------------------------------------

  /** `references.find(({ identifier }) => identifier.parent)` */
  function FirstWithParent(references: seq<Reference>): (r: Option<Reference>)
    ensures r.None? <==> forall i :: 0 <= i < |references| ==> references[i].identifierParent.None?
    ensures r.Some? ==> r.value.identifierParent.Some?
    ensures r.Some? ==> exists i :: (0 <= i < |references| && references[i] == r.value
                                     && forall j :: 0 <= j < i ==> references[j].identifierParent.None?)
  {
    if references == [] then None
    else if references[0].identifierParent.Some? then Some(references[0])
    else
      var r := FirstWithParent(references[1..]);
      assert forall i :: 1 <= i < |references| ==> references[i] == references[1..][i - 1];
      r
  }

  /** What `findShorthandValue` returns: the dummy `{ properties: [] }` after logging why, or the
      `init` of the parent of the first reference whose identifier has a parent. */
  datatype ShorthandValue =
    | DummyValue(logged: Error)
    | SourceInit(init: Option<Node>)

  /** `findShorthandValue(node, context)` for the key name `name`; `scope` is the scope the host
      gives for the key. Only that scope's own variables are searched. */
  function FindShorthandValue(name: string, scope: Scope): (r: ShorthandValue)
    ensures r == DummyValue(ShorthandVariableMissing)
        <==> forall i :: 0 <= i < |scope.variables| ==> scope.variables[i].name != name
    ensures r == DummyValue(ShorthandSourceMissing)
        <==> && Utils.FindInScope(scope.variables, name).Some?
             && forall i :: 0 <= i < |Utils.FindInScope(scope.variables, name).value.references| ==>
                  Utils.FindInScope(scope.variables, name).value.references[i].identifierParent.None?
    ensures r.SourceInit? ==>
              && Utils.FindInScope(scope.variables, name).Some?
              && FirstWithParent(Utils.FindInScope(scope.variables, name).value.references).Some?
              && r.init == InitOf(FirstWithParent(Utils.FindInScope(scope.variables, name).value.references).value.identifierParent.value)
  {
    match Utils.FindInScope(scope.variables, name)
    case None => DummyValue(ShorthandVariableMissing)
    case Some(variable) =>
      match FirstWithParent(variable.references)
      case None => DummyValue(ShorthandSourceMissing)
      case Some(source) => SourceInit(InitOf(source.identifierParent.value))
  }

  /** The enclosing scopes play no part: a variable declared only further out is not found. */
  lemma OwnScopeOnly(name: string, variables: seq<Variable>, upper1: Option<Scope>, upper2: Option<Scope>)
    ensures FindShorthandValue(name, Scope(variables, upper1)) == FindShorthandValue(name, Scope(variables, upper2))
  {
  }

  /** A shorthand whose first parented reference sits in a declarator `name = { ... }` resolves to
      that object literal's entries. */
  lemma ShorthandThroughDeclarator(name: string, scope: Scope, id: Node, properties: seq<Node>)
    requires Utils.FindInScope(scope.variables, name).Some?
    requires var refs := Utils.FindInScope(scope.variables, name).value.references;
             FirstWithParent(refs).Some?
             && FirstWithParent(refs).value.identifierParent == Some(VariableDeclarator(id, Some(ObjectExpression(properties))))
    ensures ActionsFromShorthand(FindShorthandValue(name, scope)) == Success(Actions(properties, []))
  {
  }

  // ---------------------------------------------------------------------------
  // checkActionsDoc
  // ---------------------------------------------------------------------------

  /** The actions the check iterates over, and what was logged while finding them. */
  datatype Actions = Actions(entries: seq<Node>, logged: seq<Error>)

  /** `findShorthandValue(node, context).properties`: the dummy gives no actions; reading
      `properties` of an absent `init` throws, and an `init` that is no object literal gives
      `undefined`, on which the later `filter` throws. */
  function ActionsFromShorthand(v: ShorthandValue): (r: Result<Actions, Error>)
    ensures v.DummyValue? ==> r == Success(Actions([], [v.logged]))
    ensures r.Failure? ==> v.SourceInit?
  {
    match v
    case DummyValue(e) => Success(Actions([], [e]))
    case SourceInit(None) => Failure(MissingInitializer)
    case SourceInit(Some(init)) =>
      match PropertiesOf(init)
      case None => Failure(PropertiesUndefined)
      case Some(ps) => Success(Actions(ps, []))
  }

  /** `node.shorthand ? findShorthandValue(node, context).properties : node.value.properties` */
  function ActionsOf(node: Node, scope: Scope): (r: Result<Actions, Error>)
    requires node.Property? && KeyName(node).Some?
    ensures !node.shorthand ==> (r.Success? <==> PropertiesOf(node.value).Some?)
    ensures !node.shorthand && r.Success? ==> r.value == Actions(PropertiesOf(node.value).value, [])
  {
    if node.shorthand then ActionsFromShorthand(FindShorthandValue(KeyName(node).value, scope))
    else
      match PropertiesOf(node.value)
      case None => Failure(PropertiesUndefined)
      case Some(ps) => Success(Actions(ps, []))
  }

  /** `action => !hasLeadingComment(action)` */
  predicate Undocumented(n: Node) {
    !HasLeadingComment(n)
  }

  predicate IsKeyed(n: Node) {
    n.Property?
  }

  predicate IsKeyless(n: Node) {
    !n.Property?
  }

  /** The anchor of a keyed entry's report. */
  function KeyOrSelf(n: Node): Node {
    if n.Property? then n.key else n
  }

  function ActionReport(n: Node): Diagnostic {
    Diagnostic(KeyOrSelf(n), Text(ActionsErrorMessage))
  }

  function EmptyNodeDefect(n: Node): Error {
    ReportAtEmptyNode
  }

  /** The reports of the `forEach` over the undocumented actions: the keyed ones, in order. */
  function ActionDiagnostics(undocumented: seq<Node>): seq<Diagnostic> {
    Map(ActionReport, Filter(IsKeyed, undocumented))
  }

  /** What the same loop logs: one line per keyless action. */
  function ActionDefects(undocumented: seq<Node>): seq<Error> {
    Map(EmptyNodeDefect, Filter(IsKeyless, undocumented))
  }

  /** What `checkActionsDoc(node, context)` appends, with the `Property` handler's `catch`
      turning a throw into a log entry. */
  function ActionsDocOutcome(v: Visit): (r: Outcome)
    ensures !v.node.Property? || KeyName(v.node) != Some("actions") ==> r == NoOutcome
    ensures r.diagnostics != [] ==> IsWithinVuexStore(v.parent) == Success(true)
    ensures IsWithinVuexStore(v.parent).Failure? ==> r.diagnostics == [] && |r.defects| <= 1
  {
    if !v.node.Property? || KeyName(v.node) != Some("actions") then NoOutcome
    else
      match IsWithinVuexStore(v.parent)
      case Failure(e) => Outcome([], [e])
      case Success(false) => NoOutcome
      case Success(true) => StoreActionsOutcome(v.node, v.scope)
  }

  /** What checking the `actions` property of a store appends. */
  function StoreActionsOutcome(node: Node, scope: Scope): Outcome
    requires node.Property? && KeyName(node).Some?
  {
    match ActionsOf(node, scope)
    case Failure(e) => Outcome([], [e])
    case Success(Actions(entries, logged)) =>
      var undocumented := Filter(Undocumented, entries);
      Outcome(ActionDiagnostics(undocumented), logged + ActionDefects(undocumented))
  }

  /** Only a property keyed `actions` is checked. */
  lemma OnlyActionsChecked(v: Visit)
    requires !v.node.Property? || KeyName(v.node) != Some("actions")
    ensures ActionsDocOutcome(v) == NoOutcome
  {
  }

  /** An object literal parent whose entries all have keys, none of them `state`, is no store:
      nothing is reported or logged. */
  lemma NoStateNoCheck(v: Visit)
    requires v.parent.ObjectExpression?
    requires forall i :: 0 <= i < |v.parent.properties| ==>
               v.parent.properties[i].Property? && KeyName(v.parent.properties[i]) != Some("state")
    ensures ActionsDocOutcome(v) == NoOutcome
  {
  }

  /** For an inline `actions: { ... }` in a store: one report per undocumented keyed action, at its
      key, in order; one log line per undocumented keyless action; a keyless action does not stop
      the reports after it. */
  lemma InlineActionsReported(v: Visit, entries: seq<Node>)
    requires v.node.Property? && KeyName(v.node) == Some("actions") && !v.node.shorthand
    requires v.node.value == ObjectExpression(entries)
    requires IsWithinVuexStore(v.parent) == Success(true)
    ensures var reported := Filter(IsKeyedUndocumented, entries);
            && |ActionsDocOutcome(v).diagnostics| == |reported|
            && (forall i :: 0 <= i < |reported| ==>
                  reported[i].Property? && ActionsDocOutcome(v).diagnostics[i] == Diagnostic(reported[i].key, Text(ActionsErrorMessage)))
            && ActionsDocOutcome(v).defects == seq(|Filter(IsKeylessUndocumented, entries)|, _ => ReportAtEmptyNode)
  {
    var u := Filter(Undocumented, entries);
    assert ActionsDocOutcome(v) == Outcome(ActionDiagnostics(u), ActionDefects(u));
    UndocumentedReports(entries);
  }

  /** The loop over the undocumented entries reports the keyed ones at their keys, in order, and
      logs one line per keyless one. */
  lemma UndocumentedReports(entries: seq<Node>)
    ensures var u := Filter(Undocumented, entries);
            var reported := Filter(IsKeyedUndocumented, entries);
            && |ActionDiagnostics(u)| == |reported|
            && (forall i :: 0 <= i < |reported| ==>
                  reported[i].Property? && ActionDiagnostics(u)[i] == Diagnostic(reported[i].key, Text(ActionsErrorMessage)))
            && ActionDefects(u) == seq(|Filter(IsKeylessUndocumented, entries)|, _ => ReportAtEmptyNode)
  {
    FilterTwice(Undocumented, IsKeyed, IsKeyedUndocumented, entries);
    FilterTwice(Undocumented, IsKeyless, IsKeylessUndocumented, entries);
    var reported := Filter(IsKeyedUndocumented, entries);
    forall i | 0 <= i < |reported|
      ensures reported[i].Property?
    {
      var j := FilterSource(IsKeyedUndocumented, entries, i);
    }
  }

  predicate IsKeyedUndocumented(n: Node) {
    Undocumented(n) && IsKeyed(n)
  }

  predicate IsKeylessUndocumented(n: Node) {
    Undocumented(n) && IsKeyless(n)
  }

  /** A shorthand whose variable is missing from the key's scope logs that and reports nothing. */
  lemma MissingShorthandLogsOnly(v: Visit)
    requires v.node.Property? && KeyName(v.node) == Some("actions") && v.node.shorthand
    requires IsWithinVuexStore(v.parent) == Success(true)
    requires forall i :: 0 <= i < |v.scope.variables| ==> v.scope.variables[i].name != "actions"
    ensures ActionsDocOutcome(v) == Outcome([], [ShorthandVariableMissing])
  {
    assert FindShorthandValue("actions", v.scope) == DummyValue(ShorthandVariableMissing);
  }

  /** Appending the report or log line of one more undocumented action. */
  lemma ActionStep(undocumented: seq<Node>, i: nat)
    requires i < |undocumented|
    ensures ActionDiagnostics(undocumented[..i + 1])
            == ActionDiagnostics(undocumented[..i]) + (if undocumented[i].Property? then [ActionReport(undocumented[i])] else [])
    ensures ActionDefects(undocumented[..i + 1])
            == ActionDefects(undocumented[..i]) + (if undocumented[i].Property? then [] else [ReportAtEmptyNode])
  {
    var a, b := undocumented[..i], [undocumented[i]];
    assert undocumented[..i + 1] == a + b;
    FilterAppend(IsKeyed, a, b);
    FilterAppend(IsKeyless, a, b);
    MapAppend(ActionReport, Filter(IsKeyed, a), Filter(IsKeyed, b));
    MapAppend(EmptyNodeDefect, Filter(IsKeyless, a), Filter(IsKeyless, b));
  }

  /** A keyed action adds its report and no log line. */
  lemma KeyedActionStep(undocumented: seq<Node>, i: nat)
    requires i < |undocumented| && undocumented[i].Property?
    ensures ActionDiagnostics(undocumented[..i + 1])
            == ActionDiagnostics(undocumented[..i]) + [Diagnostic(undocumented[i].key, Text(ActionsErrorMessage))]
    ensures ActionDefects(undocumented[..i + 1]) == ActionDefects(undocumented[..i])
  {
    ActionStep(undocumented, i);
  }

  /** A keyless action adds one log line and no report. */
  lemma KeylessActionStep(undocumented: seq<Node>, i: nat)
    requires i < |undocumented| && !undocumented[i].Property?
    ensures ActionDiagnostics(undocumented[..i + 1]) == ActionDiagnostics(undocumented[..i])
    ensures ActionDefects(undocumented[..i + 1]) == ActionDefects(undocumented[..i]) + [ReportAtEmptyNode]
  {
    ActionStep(undocumented, i);
  }

  /** The `forEach` over the undocumented actions: a keyless one is logged and skipped, every
      other one is reported at its key. */
  method ReportActions(undocumented: seq<Node>, ctx: RuleContext)
    modifies ctx
    ensures ctx.reports == old(ctx.reports) + ActionDiagnostics(undocumented)
    ensures ctx.log == old(ctx.log) + ActionDefects(undocumented)
  {
    var i := 0;
    while i < |undocumented|
      invariant 0 <= i <= |undocumented|
      invariant ctx.reports == old(ctx.reports) + ActionDiagnostics(undocumented[..i])
      invariant ctx.log == old(ctx.log) + ActionDefects(undocumented[..i])
    {
      var action := undocumented[i];
      ghost var reports, log := ActionDiagnostics(undocumented[..i]), ActionDefects(undocumented[..i]);
      if !action.Property? {
        KeylessActionStep(undocumented, i);
        ctx.LogDefect(ReportAtEmptyNode);
        assert ctx.log == old(ctx.log) + (log + [ReportAtEmptyNode]);
      } else {
        KeyedActionStep(undocumented, i);
        ctx.Report(Diagnostic(action.key, Text(ActionsErrorMessage)));
        assert ctx.reports == old(ctx.reports) + (reports + [Diagnostic(action.key, Text(ActionsErrorMessage))]);
      }
      i := i + 1;
    }
    assert undocumented[..i] == undocumented;
  }

  /** The `Property` handler: `checkActionsDoc` inside a `try`, whose `catch` logs. */
  method OnVisit(v: Visit, ctx: RuleContext)
    modifies ctx
    ensures ctx.reports == old(ctx.reports) + ActionsDocOutcome(v).diagnostics
    ensures ctx.log == old(ctx.log) + ActionsDocOutcome(v).defects
  {
    if !v.node.Property? || KeyName(v.node) != Some("actions") {
      return;
    }
    var inStore := IsWithinVuexStore(v.parent);
    if inStore.Failure? {
      ctx.LogDefect(inStore.error);
      return;
    }
    if !inStore.value {
      return;
    }
    CheckStoreActions(v.node, v.scope, ctx);
  }

  /** The checks after the store test: resolve the actions, then report the undocumented ones. */
  method CheckStoreActions(node: Node, scope: Scope, ctx: RuleContext)
    requires node.Property? && KeyName(node).Some?
    modifies ctx
    ensures ctx.reports == old(ctx.reports) + StoreActionsOutcome(node, scope).diagnostics
    ensures ctx.log == old(ctx.log) + StoreActionsOutcome(node, scope).defects
  {
    var actions := ActionsOf(node, scope);
    if actions.Failure? {
      ctx.LogDefect(actions.error);
      return;
    }
    ctx.LogDefects(actions.value.logged);
    ReportActions(Filter(Undocumented, actions.value.entries), ctx);
  }
}

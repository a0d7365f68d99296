/** The helpers shared by the rules (lib/utils.js): the doc-comment test, scope lookup, value
    resolution of a property to the child properties to inspect, the doc check over those
    children, and the store/component classifiers. */
module Utils {
  import opened Wrappers
  import opened Seqs
  import opened Estree
  import opened Host

  const MissingJsdocMessage: string := "Missing JSDoc comment."

  // ---------------------------------------------------------------------------
  // hasNoValidDoc
  // ---------------------------------------------------------------------------

  /** A trimmed comment text that looks like a doc block: `*` followed by something. */
  predicate IsDocText(t: string) {
    |t| > 1 && t[0] == '*'
  }

  /** A comment that documents the node it precedes. */
  predicate IsDocComment(c: Comment) {
    c.commentType == Block && IsDocText(Trim(c.value))
  }

  predicate IsBlock(c: Comment) {
    c.commentType == Block
  }

  function TrimmedValue(c: Comment): string {
    Trim(c.value)
  }

  /** `.some(value => value.startsWith("*") && value.length > 1)` */
  function SomeDocText(values: seq<string>): (r: bool)
    ensures r <==> exists i :: 0 <= i < |values| && IsDocText(values[i])
  {
    values != [] && (IsDocText(values[0]) || SomeDocText(values[1..]))
  }

  /** The block / trim / some pipeline finds a doc text exactly when some comment is a doc comment. */
  lemma DocTextsOfBlocks(comments: seq<Comment>)
    ensures SomeDocText(Map(TrimmedValue, Filter(IsBlock, comments)))
        <==> exists i :: 0 <= i < |comments| && IsDocComment(comments[i])
  {
    var blocks := Filter(IsBlock, comments);
    var texts := Map(TrimmedValue, blocks);
    if SomeDocText(texts) {
      var k :| 0 <= k < |texts| && IsDocText(texts[k]);
      var i := FilterSource(IsBlock, comments, k);
      assert IsDocComment(comments[i]);
    }
    if exists i :: 0 <= i < |comments| && IsDocComment(comments[i]) {
      var i :| 0 <= i < |comments| && IsDocComment(comments[i]);
      var k := FilterTarget(IsBlock, comments, i);
      assert IsDocText(texts[k]);
    }
  }

  /** `hasNoValidDoc(context)(node)`: no comment before the node is a block comment whose trimmed
      text starts with `*` and is longer than that one character; line comments never count. */
  function HasNoValidDoc(node: Node): (r: bool)
    ensures r <==> forall i :: 0 <= i < |CommentsBefore(node)| ==> !IsDocComment(CommentsBefore(node)[i])
  {
    var comments := CommentsBefore(node);
    DocTextsOfBlocks(comments);
    !SomeDocText(Map(TrimmedValue, Filter(IsBlock, comments)))
  }

  // ---------------------------------------------------------------------------
  // findVariable
  // ---------------------------------------------------------------------------

  /** `variables.find(({ name }) => variableName === name)`: the first variable of that name. */
  function FindInScope(variables: seq<Variable>, name: string): (r: Option<Variable>)
    ensures r.Some? ==> r.value.name == name && r.value in variables
    ensures r.None? <==> forall i :: 0 <= i < |variables| ==> variables[i].name != name
    ensures forall i :: 0 <= i < |variables| && variables[i].name == name && (forall j :: 0 <= j < i ==> variables[j].name != name)
                        ==> r == Some(variables[i])
  {
    if variables == [] then None
    else if variables[0].name == name then Some(variables[0])
    else
      var r := FindInScope(variables[1..], name);
      assert forall i :: 1 <= i < |variables| ==> variables[i] == variables[1..][i - 1];
      r
  }

  /** The scope declares a variable of that name. */
  ghost predicate Declares(s: Scope, name: string) {
    exists i :: 0 <= i < |s.variables| && s.variables[i].name == name
  }

  /** The scope chain, innermost first. */
  ghost function Chain(scope: Option<Scope>): seq<Scope>
    decreases scope
  {
    match scope
    case None => []
    case Some(s) => [s] + Chain(s.upper)
  }

  /** `findVariable(scope, name)`: the innermost scope's variable of that name, else the search
      goes on in the enclosing scope; nothing once the chain ends. */
  function FindVariable(scope: Option<Scope>, name: string): (r: Option<Variable>)
    decreases scope
    ensures r.Some? ==> r.value.name == name
  {
    match scope
    case None => None
    case Some(s) =>
      var inner := FindInScope(s.variables, name);
      if inner.Some? then inner else FindVariable(s.upper, name)
  }

  /** Lookup along the chain finds something exactly when some scope of the chain declares the name. */
  lemma {:induction false} FindVariableFinds(scope: Option<Scope>, name: string)
    decreases scope
    ensures FindVariable(scope, name).Some? <==> exists k :: 0 <= k < |Chain(scope)| && Declares(Chain(scope)[k], name)
  {
    match scope
    case None =>
    case Some(s) =>
      if Declares(s, name) {
        assert FindVariable(scope, name).Some?;
        assert Chain(scope)[0] == s;
        assert Declares(Chain(scope)[0], name);
      } else {
        assert FindVariable(scope, name) == FindVariable(s.upper, name);
        FindVariableFinds(s.upper, name);
        assert Chain(scope) == [s] + Chain(s.upper);
        if exists k :: 0 <= k < |Chain(scope)| && Declares(Chain(scope)[k], name) {
          var k :| 0 <= k < |Chain(scope)| && Declares(Chain(scope)[k], name);
          assert k != 0;
          assert Declares(Chain(s.upper)[k - 1], name);
        }
        if exists k :: 0 <= k < |Chain(s.upper)| && Declares(Chain(s.upper)[k], name) {
          var k :| 0 <= k < |Chain(s.upper)| && Declares(Chain(s.upper)[k], name);
          assert Declares(Chain(scope)[k + 1], name);
        }
      }
  }

  /** Lookup along the chain returns the first match in the innermost declaring scope: inner
      scopes shadow outer ones. */
  lemma {:induction false} FindVariableShadows(scope: Option<Scope>, name: string, k: nat)
    decreases scope
    requires k < |Chain(scope)| && Declares(Chain(scope)[k], name)
    requires forall j :: 0 <= j < k ==> !Declares(Chain(scope)[j], name)
    ensures FindVariable(scope, name) == FindInScope(Chain(scope)[k].variables, name)
  {
    var s := scope.value;
    var chain := Chain(scope);
    var up := Chain(s.upper);
    assert chain == [s] + up;
    if k > 0 {
      assert !Declares(chain[0], name);
      assert chain[k] == up[k - 1];
      forall j | 0 <= j < k - 1
        ensures !Declares(up[j], name)
      {
        assert up[j] == chain[j + 1];
      }
      FindVariableShadows(s.upper, name, k - 1);
    }
  }

  // ---------------------------------------------------------------------------
  // getIdentifierDefenition
  // ---------------------------------------------------------------------------

  /** `R.last(defs)`: the last definition, or nothing for an empty list. */
  function LastDefinition(defs: seq<Definition>): (r: Option<Definition>)
    ensures r.None? <==> defs == []
    ensures r.Some? ==> r.value == defs[|defs| - 1]
  {
    if defs == [] then None else Some(defs[|defs| - 1])
  }

  /** `getIdentifierDefenition(node, context)` for a property whose value is the identifier `name`
      and `scope`, the scope the host gives for that identifier. */
  function GetIdentifierDefinition(name: string, scope: Scope): (r: Result<Definition, Error>)
    ensures r.Failure? ==> r.error == UnresolvedBinding(name) || r.error == NoDefinition(name)
    ensures r == Failure(UnresolvedBinding(name))
        <==> forall k :: 0 <= k < |Chain(Some(scope))| ==> !Declares(Chain(Some(scope))[k], name)
    ensures r.Success? ==> exists k :: 0 <= k < |Chain(Some(scope))| && Declares(Chain(Some(scope))[k], name)
    ensures r.Success? ==>
              && FindVariable(Some(scope), name).Some?
              && var v := FindVariable(Some(scope), name).value;
                 v.name == name && v.defs != [] && r.value == v.defs[|v.defs| - 1]
    ensures r == Failure(NoDefinition(name)) <==> FindVariable(Some(scope), name).Some? && FindVariable(Some(scope), name).value.defs == []
  {
    FindVariableFinds(Some(scope), name);
    match FindVariable(Some(scope), name)
    case None => Failure(UnresolvedBinding(name))
    case Some(v) =>
      match LastDefinition(v.defs)
      case None => Failure(NoDefinition(v.name))
      case Some(d) => Success(d)
  }

  // ---------------------------------------------------------------------------
  // findReturnStatement
  // ---------------------------------------------------------------------------

  /** The statement list reached by following `.body` from node to node: through functions and
      loops, ending at the first block. Nothing when the chain ends at a node with no body. */
  function BodyStatements(node: Node): Option<seq<Node>> {
    match node
    case Function(_, _, body) => BodyStatements(body)
    case WhileStatement(_, body) => BodyStatements(body)
    case BlockStatement(statements) => Some(statements)
    case _ => None
  }

  /** `R.find(({ type }) => type === "ReturnStatement", statements)` */
  function FirstReturn(statements: seq<Node>): (r: Option<Node>)
    ensures r.None? <==> forall i :: 0 <= i < |statements| ==> !statements[i].ReturnStatement?
    ensures r.Some? ==> exists i :: 0 <= i < |statements| && statements[i] == r.value && r.value.ReturnStatement?
                                   && forall j :: 0 <= j < i ==> !statements[j].ReturnStatement?
  {
    if statements == [] then None
    else if statements[0].ReturnStatement? then Some(statements[0])
    else
      var r := FirstReturn(statements[1..]);
      assert forall i :: 1 <= i < |statements| ==> statements[i] == statements[1..][i - 1];
      r
  }

  /** `findReturnStatement(node)`. `R.find` over a single node (not an array) finds nothing, so the
      search follows `.body` until it meets a statement list; an array has no `.body`, which ends
      the search when the list holds no return. */
  function FindReturnStatement(node: Node): (r: Option<Node>)
    ensures r.Some? ==> r.value.ReturnStatement?
    ensures r == (match BodyStatements(node) case Some(ss) => FirstReturn(ss) case None => None)
  {
    match node
    case Function(_, _, body) => FindReturnStatement(body)
    case WhileStatement(_, body) => FindReturnStatement(body)
    case BlockStatement(statements) => FirstReturn(statements)
    case _ => None
  }

  /** Only the top level of the statement list reached through `.body` is searched: a found
      `return` is one of that list's own elements, and a list none of whose elements is a `return`
      yields nothing, whatever returns its statements contain. */
  lemma TopLevelReturnOnly(node: Node)
    ensures FindReturnStatement(node).Some? ==>
              BodyStatements(node).Some? && FindReturnStatement(node).value in BodyStatements(node).value
    ensures (BodyStatements(node).Some?
             && forall i :: 0 <= i < |BodyStatements(node).value| ==> !BodyStatements(node).value[i].ReturnStatement?) ==>
              FindReturnStatement(node).None?
  {
  }

  /** A return nested inside an `if` of the function's block is never found. */
  lemma NestedReturnNotFound(test: Node, argument: Node)
    ensures FindReturnStatement(Function(FunctionDeclaration, [],
              BlockStatement([IfStatement(test, ReturnStatement(Some(argument)), None)]))).None?
  {
    var ss := [IfStatement(test, ReturnStatement(Some(argument)), None)];
    assert !ss[0].ReturnStatement?;
  }

  // ---------------------------------------------------------------------------
  // getChildProperties
  // ---------------------------------------------------------------------------

  /** `getChildProperties(node, context)` for a property `node`; `scope` is what the host gives for
      its value. The source returns `undefined` where a value has no `properties`; every caller
      then fails on it, so that case is the error `PropertiesUndefined`. */
  function GetChildProperties(node: Node, scope: Scope): (r: Result<seq<Node>, Error>)
    requires node.Property?
    ensures node.value.ObjectExpression? ==> r == Success(node.value.properties)
    ensures !node.value.ObjectExpression? && !node.value.Identifier? ==> r == Success([])
    ensures r.Failure? ==> node.value.Identifier?
  {
    if node.value.ObjectExpression? then Success(node.value.properties)
    else if node.value.Identifier? then
      match GetIdentifierDefinition(node.value.name, scope)
      case Failure(e) => Failure(e)
      case Success(Definition(defType, defNode)) =>
        if defType == ImportBindingDef then Success([])
        else if defType == FunctionNameDef then
          match FindReturnStatement(defNode)
          case None => Failure(MissingReturnStatement)
          case Some(ret) =>
            match ret.argument
            case None => Failure(ReturnWithoutArgument)
            case Some(argument) => PropertiesOrUndefined(argument)
        else if defType == VariableDef then
          match InitOf(defNode)
          case None => Failure(MissingInitializer)
          case Some(init) => PropertiesOrUndefined(init)
        else Success([])
    else Success([])
  }

  /** `node.properties`, failing where the caller would fail on `undefined`. */
  function PropertiesOrUndefined(n: Node): (r: Result<seq<Node>, Error>)
    ensures r.Success? <==> PropertiesOf(n).Some?
    ensures r.Success? ==> r.value == PropertiesOf(n).value
    ensures r.Failure? ==> r.error == PropertiesUndefined
  {
    match PropertiesOf(n)
    case Some(ps) => Success(ps)
    case None => Failure(PropertiesUndefined)
  }

  /** An identifier bound by an import gives no children; so does any binding other than a
      function name or a variable. */
  lemma ImportGivesNothing(node: Node, scope: Scope)
    requires node.Property? && node.value.Identifier?
    requires GetIdentifierDefinition(node.value.name, scope).Success?
    requires GetIdentifierDefinition(node.value.name, scope).value.defType !in {FunctionNameDef, VariableDef}
    ensures GetChildProperties(node, scope) == Success([])
  {
  }

  /** A variable initialised with an object literal gives that literal's properties. */
  lemma VariableGivesInitProperties(node: Node, scope: Scope, id: Node, properties: seq<Node>)
    requires node.Property? && node.value.Identifier?
    requires GetIdentifierDefinition(node.value.name, scope)
             == Success(Definition(VariableDef, VariableDeclarator(id, Some(ObjectExpression(properties)))))
    ensures GetChildProperties(node, scope) == Success(properties)
  {
  }

  /** A function name gives the properties of the object literal its first top-level return
      returns. */
  lemma FunctionGivesReturnedProperties(node: Node, scope: Scope, f: Node, k: nat, properties: seq<Node>)
    requires node.Property? && node.value.Identifier?
    requires GetIdentifierDefinition(node.value.name, scope) == Success(Definition(FunctionNameDef, f))
    requires BodyStatements(f).Some? && k < |BodyStatements(f).value|
    requires BodyStatements(f).value[k] == ReturnStatement(Some(ObjectExpression(properties)))
    requires forall j :: 0 <= j < k ==> !BodyStatements(f).value[j].ReturnStatement?
    ensures GetChildProperties(node, scope) == Success(properties)
  {
    var ss := BodyStatements(f).value;
    var ret := FirstReturn(ss);
    var i :| 0 <= i < |ss| && ss[i] == ret.value && ret.value.ReturnStatement?
             && forall j :: 0 <= j < i ==> !ss[j].ReturnStatement?;
    assert i == k;
  }

  // ---------------------------------------------------------------------------
  // reportMissedJsdoc / checkNestedPropertiesForDoc
  // ---------------------------------------------------------------------------

  /** Every node has a key. */
  predicate AllKeyed(nodes: seq<Node>) {
    forall i :: 0 <= i < |nodes| ==> nodes[i].Property?
  }

  /** The reports `nodes.forEach(reportMissedJsdoc(context))` makes before it stops: one per node,
      at its key, up to the first node without a key, where the callback throws. */
  function KeyDiagnostics(nodes: seq<Node>, message: Message): (r: seq<Diagnostic>)
    ensures |r| <= |nodes|
    ensures forall i :: 0 <= i < |r| ==> nodes[i].Property? && r[i] == Diagnostic(nodes[i].key, message)
    ensures |r| < |nodes| ==> !nodes[|r|].Property?
    ensures |r| == |nodes| <==> AllKeyed(nodes)
  {
    if nodes == [] || !nodes[0].Property? then []
    else
      var r := [Diagnostic(nodes[0].key, message)] + KeyDiagnostics(nodes[1..], message);
      assert forall i :: 1 <= i < |nodes| ==> nodes[i] == nodes[1..][i - 1];
      r
  }

  /** The reports and the thrown error `nodes.forEach(reportMissedJsdoc(context))` leaves: the
      reports up to the first keyless node, and `NodeWithoutKey` when there is one. */
  function MissedJsdocOutcome(nodes: seq<Node>): (r: Outcome)
    ensures r.diagnostics == KeyDiagnostics(nodes, Text(MissingJsdocMessage))
    ensures r.defects == [] <==> AllKeyed(nodes)
    ensures r.defects != [] ==> r.defects == [NodeWithoutKey]
  {
    Outcome(KeyDiagnostics(nodes, Text(MissingJsdocMessage)),
            if AllKeyed(nodes) then [] else [NodeWithoutKey])
  }

  /** `nodes.forEach(reportMissedJsdoc(context))`: reports each node at its key with the fixed
      message, in order; the first keyless node throws and ends the loop. */
  method ReportMissedJsdoc(nodes: seq<Node>, ctx: RuleContext) returns (thrown: Option<Error>)
    modifies ctx
    ensures ctx.reports == old(ctx.reports) + MissedJsdocOutcome(nodes).diagnostics
    ensures ctx.log == old(ctx.log)
    ensures thrown.None? <==> AllKeyed(nodes)
    ensures thrown.Some? ==> thrown.value == NodeWithoutKey
  {
    var i := 0;
    thrown := None;
    while i < |nodes|
      invariant 0 <= i <= |nodes|
      invariant forall j :: 0 <= j < i ==> nodes[j].Property?
      invariant ctx.reports == old(ctx.reports) + KeyDiagnostics(nodes[..i], Text(MissingJsdocMessage))
      invariant ctx.log == old(ctx.log)
    {
      if !nodes[i].Property? {
        KeyDiagnosticsStop(nodes, i, Text(MissingJsdocMessage));
        return Some(NodeWithoutKey);
      }
      KeyDiagnosticsStep(nodes, i, Text(MissingJsdocMessage));
      ctx.Report(Diagnostic(nodes[i].key, Text(MissingJsdocMessage)));
      i := i + 1;
    }
    assert nodes[..i] == nodes;
  }

  /** Extending a keyed prefix by a keyed node adds its report. */
  lemma {:induction false} KeyDiagnosticsStep(nodes: seq<Node>, i: nat, message: Message)
    requires i < |nodes| && forall j :: 0 <= j <= i ==> nodes[j].Property?
    ensures KeyDiagnostics(nodes[..i + 1], message) == KeyDiagnostics(nodes[..i], message) + [Diagnostic(nodes[i].key, message)]
  {
    if i > 0 {
      assert nodes[..i + 1][1..] == nodes[1..][..i];
      assert nodes[..i][1..] == nodes[1..][..i - 1];
      KeyDiagnosticsStep(nodes[1..], i - 1, message);
    }
  }

  /** At the first keyless node the reports of the prefix are all the reports. */
  lemma {:induction false} KeyDiagnosticsStop(nodes: seq<Node>, i: nat, message: Message)
    requires i < |nodes| && !nodes[i].Property? && forall j :: 0 <= j < i ==> nodes[j].Property?
    ensures KeyDiagnostics(nodes[..i], message) == KeyDiagnostics(nodes, message)
  {
    if i > 0 {
      assert nodes[..i][1..] == nodes[1..][..i - 1];
      KeyDiagnosticsStop(nodes[1..], i - 1, message);
    }
  }

  /** `type !== "SpreadElement"` */
  predicate NotSpreadElement(n: Node) {
    !n.SpreadElement?
  }

  /** `type !== "ExperimentalSpreadProperty"` */
  predicate NotExperimentalSpread(n: Node) {
    !n.ExperimentalSpreadProperty?
  }

  /** The child entries the doc check reports: no spread, and no valid doc comment before it. */
  predicate IsUndocumentedEntry(n: Node) {
    !IsSpread(n) && HasNoValidDoc(n)
  }

  /** The children `checkNestedPropertiesForDoc` hands to `reportMissedJsdoc`: both spread forms
      filtered out, then the documented entries. */
  function DocCandidates(children: seq<Node>): seq<Node> {
    Filter(HasNoValidDoc, Filter(NotExperimentalSpread, Filter(NotSpreadElement, children)))
  }

  /** What `checkNestedPropertiesForDoc(node, context)` appends: a resolution failure is caught
      and logged with no report; otherwise the reports of the keyed loop over the candidates and,
      if that loop threw, its error. */
  function NestedDocOutcome(node: Node, scope: Scope): (r: Outcome)
    requires node.Property?
    ensures GetChildProperties(node, scope).Failure? ==> r == Outcome([], [GetChildProperties(node, scope).error])
    ensures |r.defects| <= 1
    ensures forall i :: 0 <= i < |r.diagnostics| ==> r.diagnostics[i].message == Text(MissingJsdocMessage)
  {
    match GetChildProperties(node, scope)
    case Failure(e) => Outcome([], [e])
    case Success(children) => MissedJsdocOutcome(DocCandidates(children))
  }

  /** The two spread filters in a row, then the doc filter, are one filter by `IsUndocumentedEntry`. */
  lemma DocCandidatesAreUndocumented(children: seq<Node>)
    ensures DocCandidates(children) == Filter(IsUndocumentedEntry, children)
  {
    FilterTwice(NotSpreadElement, NotExperimentalSpread, n => !IsSpread(n), children);
    FilterTwice(n => !IsSpread(n), HasNoValidDoc, IsUndocumentedEntry, children);
  }

  /** When every child is a property or a spread, `checkNestedPropertiesForDoc` reports exactly the
      undocumented non-spread children, each once, in source order, at its key, and logs nothing. */
  lemma NestedDocReports(node: Node, scope: Scope, children: seq<Node>)
    requires node.Property? && GetChildProperties(node, scope) == Success(children)
    requires forall i :: 0 <= i < |children| ==> children[i].Property? || IsSpread(children[i])
    ensures var out := NestedDocOutcome(node, scope);
            var u := Filter(IsUndocumentedEntry, children);
            && out.defects == []
            && |out.diagnostics| == |u|
            && forall i :: 0 <= i < |u| ==> u[i].Property? && out.diagnostics[i] == Diagnostic(u[i].key, Text(MissingJsdocMessage))
  {
    DocCandidatesAreUndocumented(children);
    var u := Filter(IsUndocumentedEntry, children);
    forall i | 0 <= i < |u|
      ensures u[i].Property?
    {
      var j := FilterSource(IsUndocumentedEntry, children, i);
    }
  }

  /** `checkNestedPropertiesForDoc(node, context)` */
  method CheckNestedPropertiesForDoc(node: Node, scope: Scope, ctx: RuleContext)
    requires node.Property?
    modifies ctx
    ensures ctx.reports == old(ctx.reports) + NestedDocOutcome(node, scope).diagnostics
    ensures ctx.log == old(ctx.log) + NestedDocOutcome(node, scope).defects
  {
    var children := GetChildProperties(node, scope);
    if children.Failure? {
      ctx.LogDefect(children.error);
      return;
    }
    var undocumented := DocCandidates(children.value);
    var thrown := ReportMissedJsdoc(undocumented, ctx);
    if thrown.Some? {
      ctx.LogDefect(thrown.value);
    }
  }

  // ---------------------------------------------------------------------------
  // isWithinVuexStore / isWithinVueComponent and the three classifiers
  // ---------------------------------------------------------------------------

  const VuexStoreKeys: seq<string> := ["state", "actions", "mutations", "getters", "namespaced", "modules"]
  const VueComponentKeys: seq<string> := ["props", "data", "components", "computed", "methods", "watch"]

  /** `validKeys.includes(key)` for the store vocabulary; an absent key name is never included. */
  predicate IsStoreKey(key: Option<string>) {
    key.Some? && key.value in VuexStoreKeys
  }

  /** The same for the component vocabulary. */
  predicate IsComponentKey(key: Option<string>) {
    key.Some? && key.value in VueComponentKeys
  }

  /** `parent.properties.map(R.path(["key", "name"]))` */
  function SiblingKeyNames(siblings: seq<Node>): seq<Option<string>> {
    Map(KeyName, siblings)
  }

  /** `R.equals(keys.sort(), ["state", "getters"].sort())`: the sorted key list equals
      `["getters", "state"]`, which holds exactly when the key names are those two, once each. */
  predicate HasOnlyStateAndGetters(keys: seq<Option<string>>) {
    multiset(keys) == multiset{Some("getters"), Some("state")}
  }

  /** `isWithinVuexStore(property)`, given the properties of the property's parent. */
  function IsWithinVuexStore(siblings: seq<Node>): (r: bool)
    ensures r <==> && |siblings| >= 2
                   && (forall i :: 0 <= i < |siblings| ==> IsStoreKey(KeyName(siblings[i])))
                   && !HasOnlyStateAndGetters(SiblingKeyNames(siblings))
  {
    var keys := SiblingKeyNames(siblings);
    if HasOnlyStateAndGetters(keys) then false
    else
      var validKeysInside := Filter(IsStoreKey, keys);
      var hasOnlyValidKeys := forall i :: 0 <= i < |keys| ==> IsStoreKey(keys[i]);
      if hasOnlyValidKeys then FilterKeepsAll(IsStoreKey, keys); |validKeysInside| >= 2 && hasOnlyValidKeys
      else |validKeysInside| >= 2 && hasOnlyValidKeys
  }

  /** `isWithinVueComponent(property)`, given the properties of the property's parent. */
  function IsWithinVueComponent(siblings: seq<Node>): (r: bool)
    ensures r <==> exists i, j :: 0 <= i < j < |siblings| && IsComponentKey(KeyName(siblings[i]))
                                                         && IsComponentKey(KeyName(siblings[j]))
  {
    var keys := SiblingKeyNames(siblings);
    FilterAtLeastTwo(IsComponentKey, keys);
    |Filter(IsComponentKey, keys)| >= 2
  }

  /** `isVuexActions(node)`: the `actions` key of a store-like object. */
  function IsVuexActions(node: Node, siblings: seq<Node>): (b: bool)
    ensures b <==> && KeyName(node) == Some("actions")
                   && |siblings| >= 2
                   && (forall i :: 0 <= i < |siblings| ==> IsStoreKey(KeyName(siblings[i])))
                   && !HasOnlyStateAndGetters(SiblingKeyNames(siblings))
  {
    IsWithinVuexStore(siblings) && KeyName(node) == Some("actions")
  }

  /** `isVuexState(node)`: the `state` key of a store-like object. */
  function IsVuexState(node: Node, siblings: seq<Node>): (b: bool)
    ensures b <==> && KeyName(node) == Some("state")
                   && |siblings| >= 2
                   && (forall i :: 0 <= i < |siblings| ==> IsStoreKey(KeyName(siblings[i])))
                   && !HasOnlyStateAndGetters(SiblingKeyNames(siblings))
  {
    IsWithinVuexStore(siblings) && KeyName(node) == Some("state")
  }

  /** `isVueProps(node)`: the `props` key of a component-like object. */
  function IsVueProps(node: Node, siblings: seq<Node>): (b: bool)
    ensures b <==> KeyName(node) == Some("props")
                   && exists i, j :: 0 <= i < j < |siblings| && IsComponentKey(KeyName(siblings[i]))
                                                           && IsComponentKey(KeyName(siblings[j]))
  {
    IsWithinVueComponent(siblings) && KeyName(node) == Some("props")
  }

  /** No store key is a component key. */
  lemma VocabulariesDisjoint(key: Option<string>)
    requires IsStoreKey(key)
    ensures !IsComponentKey(key)
  {
    var k := key.value;
    assert k == "state" || k == "actions" || k == "mutations" || k == "getters" || k == "namespaced" || k == "modules";
    assert k[0] in {'s', 'a', 'm', 'g', 'n'};
    assert forall c :: c in VueComponentKeys ==> c[0] in {'p', 'd', 'c', 'm', 'w'};
    if k[0] == 'm' {
      assert k[1] == 'u' || k[1] == 'o';
    }
  }

  /** A store is never a component: every store key is outside the component vocabulary. */
  lemma StoreIsNotComponent(siblings: seq<Node>)
    requires IsWithinVuexStore(siblings)
    ensures !IsWithinVueComponent(siblings)
  {
    forall i | 0 <= i < |siblings|
      ensures !IsComponentKey(KeyName(siblings[i]))
    {
      VocabulariesDisjoint(KeyName(siblings[i]));
    }
  }

  /** At most one of the three classifiers holds for a property. */
  lemma ClassifiersExclusive(node: Node, siblings: seq<Node>)
    ensures !(IsVuexActions(node, siblings) && IsVuexState(node, siblings))
    ensures !(IsVuexActions(node, siblings) && IsVueProps(node, siblings))
    ensures !(IsVuexState(node, siblings) && IsVueProps(node, siblings))
  {
    if IsWithinVuexStore(siblings) {
      StoreIsNotComponent(siblings);
    }
  }

  /** A sibling entry `name: value` with no comments. */
  function Entry(name: string, value: Node): Node {
    Property(Identifier(name), value, false, [])
  }

  /** An object with exactly the keys `state` and `getters`, in either order, is not taken for a
      store: it may be an action's context argument. */
  lemma StateAndGettersIsNoStore(v: Node)
    ensures !IsWithinVuexStore([Entry("state", v), Entry("getters", v)])
    ensures !IsWithinVuexStore([Entry("getters", v), Entry("state", v)])
  {
    assert SiblingKeyNames([Entry("state", v), Entry("getters", v)]) == [Some("state"), Some("getters")];
    assert SiblingKeyNames([Entry("getters", v), Entry("state", v)]) == [Some("getters"), Some("state")];
  }

  /** Adding `actions` to `state` and `getters` makes a store. */
  lemma StoreWithActions(v: Node)
    ensures IsWithinVuexStore([Entry("state", v), Entry("getters", v), Entry("actions", v)])
  {
    var three := [Entry("state", v), Entry("getters", v), Entry("actions", v)];
    var keys := SiblingKeyNames(three);
    assert keys[2] == Some("actions");
    assert Some("actions") in multiset(keys);
    assert Some("actions") !in multiset{Some("getters"), Some("state")};
  }

  /** A component key among store keys spoils the store; one store key alone is not enough. */
  lemma NotStores(v: Node)
    ensures !IsWithinVuexStore([Entry("state", v), Entry("actions", v), Entry("props", v)])
    ensures !IsWithinVuexStore([Entry("actions", v)])
  {
    var mixed := [Entry("state", v), Entry("actions", v), Entry("props", v)];
    assert !IsStoreKey(KeyName(mixed[2]));
  }

  /** A keyless or string-keyed sibling makes an object no store. */
  lemma UnnamedSiblingIsNoStore(siblings: seq<Node>, i: nat)
    requires i < |siblings| && KeyName(siblings[i]).None?
    ensures !IsWithinVuexStore(siblings)
  {
  }

  /** Two component keys make a component whatever else the object holds. */
  lemma ComponentExamples(v: Node)
    ensures IsWithinVueComponent([Entry("name", v), Entry("props", v), Entry("data", v)])
    ensures !IsWithinVueComponent([Entry("props", v), Entry("name", v)])
  {
    var s := [Entry("name", v), Entry("props", v), Entry("data", v)];
    assert IsComponentKey(KeyName(s[1])) && IsComponentKey(KeyName(s[2]));
    var t := [Entry("props", v), Entry("name", v)];
    assert !IsComponentKey(KeyName(t[1]));
  }

  // ---------------------------------------------------------------------------
  // module.exports
  // ---------------------------------------------------------------------------

  /** The names the module exports. */
  const UtilsExports: set<string> := {"checkNestedPropertiesForDoc", "isVuexActions", "isVuexState", "isVueProps"}

  /** Calling an imported name: the function when the module exports it, otherwise the
      `TypeError` of calling `undefined`. */
  function CallImportedGetChildProperties(node: Node, scope: Scope): (r: Result<seq<Node>, Error>)
    requires node.Property?
    ensures "getChildProperties" in UtilsExports ==> r == GetChildProperties(node, scope)
    ensures "getChildProperties" !in UtilsExports ==> r == Failure(NotAFunction("getChildProperties"))
  {
    if "getChildProperties" in UtilsExports then GetChildProperties(node, scope)
    else Failure(NotAFunction("getChildProperties"))
  }
}

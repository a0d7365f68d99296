/** The part of the ESTree syntax tree, of eslint-scope's scope records and of the comment
    records that the rules read. The host parses and scopes the file; these values are what it
    hands over. Parent links are not fields: the host supplies a visited node together with its
    parent (see `Host.Visit`). */
module Estree {
  import opened Wrappers

  datatype CommentType = Block | Line

  /** A comment as the host attaches it to the node that follows it; `value` is the text
      between the delimiters. */
  datatype Comment = Comment(commentType: CommentType, value: string)

  /** The value of a `Literal` node. */
  datatype LiteralValue = BoolValue(b: bool) | NumberValue(n: int) | StringValue(s: string) | NullValue

  datatype FunctionKind = FunctionDeclaration | FunctionExpression | ArrowFunctionExpression

  /** A syntax-tree node. `comments` on the object-literal entries are the comments the host
      places immediately before them (its `getCommentsBefore` / `leadingComments`). */
  datatype Node =
    | ObjectExpression(properties: seq<Node>)
    | ObjectPattern(properties: seq<Node>)
    | Property(key: Node, value: Node, shorthand: bool, comments: seq<Comment>)
    | SpreadElement(spread: Node, comments: seq<Comment>)
    | ExperimentalSpreadProperty(spread: Node, comments: seq<Comment>)
    | Identifier(name: string)
    | Literal(literal: LiteralValue)
    | Function(kind: FunctionKind, params: seq<Node>, body: Node)
    | BlockStatement(statements: seq<Node>)
    | ReturnStatement(argument: Option<Node>)
    | IfStatement(test: Node, consequent: Node, alternate: Option<Node>)
    | WhileStatement(test: Node, loopBody: Node)
    | ExpressionStatement(expression: Node)
    | CallExpression(callee: Node, arguments: seq<Node>)
    | MemberExpression(target: Node, property: Node)
    | VariableDeclarator(id: Node, init: Option<Node>)
    | ImportSpecifier(local: Node)
    | OtherNode(nodeType: string)

  /** The kinds of eslint-scope definitions ("Variable", "FunctionName", "ImportBinding", ...). */
  datatype DefinitionType =
    | VariableDef | FunctionNameDef | ImportBindingDef | ParameterDef
    | ClassNameDef | CatchClauseDef | ImplicitGlobalDef | TdzDef

  /** A declaration occurrence: its kind and the node that introduced it (the declarator of a
      `Variable`, the function of a `FunctionName`, the specifier of an `ImportBinding`). */
  datatype Definition = Definition(defType: DefinitionType, node: Node)

  /** A use occurrence; `identifierParent` is the parent link of its identifier, which the host
      has set only for identifiers it has already traversed. */
  datatype Reference = Reference(identifierParent: Option<Node>)

  datatype Variable = Variable(name: string, defs: seq<Definition>, references: seq<Reference>)

  /** A lexical scope and the chain of enclosing ones. */
  datatype Scope = Scope(variables: seq<Variable>, upper: Option<Scope>)

  // ---- Field reads that JavaScript answers with `undefined` when the field is missing ----

  /** `node.key` */
  function KeyOf(n: Node): Option<Node> {
    if n.Property? then Some(n.key) else None
  }

  /** `node.name` */
  function NameOf(n: Node): Option<string> {
    if n.Identifier? then Some(n.name) else None
  }

  /** `R.path(["key", "name"], node)` */
  function KeyName(n: Node): Option<string> {
    match KeyOf(n)
    case Some(k) => NameOf(k)
    case None => None
  }

  /** `node.value` of a property */
  function ValueOf(n: Node): Option<Node> {
    if n.Property? then Some(n.value) else None
  }

  /** `node.properties` */
  function PropertiesOf(n: Node): Option<seq<Node>> {
    if n.ObjectExpression? || n.ObjectPattern? then Some(n.properties) else None
  }

  /** `node.init`; an absent and a `null` initialiser read alike. */
  function InitOf(n: Node): Option<Node> {
    if n.VariableDeclarator? then n.init else None
  }

  /** `node.params.length` */
  function ParamCount(n: Node): Option<nat> {
    if n.Function? then Some(|n.params|) else None
  }

  /** `node.property.name` of a member expression */
  function MemberPropertyName(n: Node): Option<string> {
    if n.MemberExpression? then NameOf(n.property) else None
  }

  /** Literal payload, `node.value` of a literal */
  function LiteralOf(n: Node): Option<LiteralValue> {
    if n.Literal? then Some(n.literal) else None
  }

  /** The two spread forms: espree's `SpreadElement`, babel-eslint's `ExperimentalSpreadProperty`. */
  predicate IsSpread(n: Node) {
    n.SpreadElement? || n.ExperimentalSpreadProperty?
  }

  /** The comments the host reports immediately before a node. */
  function CommentsBefore(n: Node): seq<Comment> {
    if n.Property? || n.SpreadElement? || n.ExperimentalSpreadProperty? then n.comments else []
  }

  // ---- String.prototype.trim over a fixed whitespace set ----

  /** ASCII whitespace and line terminators, no-break space, the two Unicode line/paragraph
      separators and the byte-order mark. */
  predicate IsWhitespace(c: char) {
    c == ' ' || c == '\t' || c == '\n' || c == '\r' || c == '\U{B}' || c == '\U{C}'
    || c == '\U{A0}' || c == '\U{2028}' || c == '\U{2029}' || c == '\U{FEFF}'
  }

  /** `s` without its leading whitespace. */
  function TrimStart(s: string): (r: string)
    ensures |r| <= |s| && r == s[|s| - |r|..]
    ensures r == [] || !IsWhitespace(r[0])
    ensures forall i :: 0 <= i < |s| - |r| ==> IsWhitespace(s[i])
  {
    if s != [] && IsWhitespace(s[0]) then TrimStart(s[1..]) else s
  }

  /** `s` without its trailing whitespace. */
  function TrimEnd(s: string): (r: string)
    ensures |r| <= |s| && r == s[..|r|]
    ensures r == [] || !IsWhitespace(r[|r| - 1])
    ensures forall i :: |r| <= i < |s| ==> IsWhitespace(s[i])
  {
    if s != [] && IsWhitespace(s[|s| - 1]) then TrimEnd(s[..|s| - 1]) else s
  }

  /** `s.trim()`: the slice of `s` left once its leading and trailing whitespace is removed.
      It is empty exactly when `s` is all whitespace, otherwise it neither starts nor ends with
      whitespace, and it is `s` itself when `s` has no whitespace at either end. */
  function Trim(s: string): (r: string)
    ensures exists a :: TrimmedAt(s, a, r)
    ensures r == [] <==> forall i :: 0 <= i < |s| ==> IsWhitespace(s[i])
    ensures r != [] ==> !IsWhitespace(r[0]) && !IsWhitespace(r[|r| - 1])
    ensures s != [] && !IsWhitespace(s[0]) && !IsWhitespace(s[|s| - 1]) ==> r == s
  {
    TrimBlank(s);
    TrimSlice(s);
    TrimEnd(TrimStart(s))
  }

  /** `r` is the slice of `s` from `a` on, with only whitespace before and after it. */
  predicate TrimmedAt(s: string, a: int, r: string) {
    && 0 <= a <= |s| - |r| && r == s[a..a + |r|]
    && (forall i :: 0 <= i < a ==> IsWhitespace(s[i]))
    && (forall i :: a + |r| <= i < |s| ==> IsWhitespace(s[i]))
  }

  /** Trimming both ends keeps the middle slice of `s`, starting where `TrimStart` starts. */
  lemma TrimSlice(s: string)
    ensures exists a :: TrimmedAt(s, a, TrimEnd(TrimStart(s)))
  {
    var t := TrimStart(s);
    var a := |s| - |t|;
    var r := TrimEnd(t);
    assert t == s[a..];
    assert r == t[..|r|];
    assert r == s[a..a + |r|];
    forall i | a + |r| <= i < |s|
      ensures IsWhitespace(s[i])
    {
      assert s[i] == t[i - a];
    }
    assert TrimmedAt(s, a, r);
  }

  /** Trimming both ends leaves nothing exactly when every character is whitespace, and keeps
      the first character of what `TrimStart` leaves. */
  lemma TrimBlank(s: string)
    ensures TrimEnd(TrimStart(s)) == [] <==> forall i :: 0 <= i < |s| ==> IsWhitespace(s[i])
    ensures TrimStart(s) != [] ==> TrimEnd(TrimStart(s)) != [] && TrimEnd(TrimStart(s))[0] == TrimStart(s)[0]
  {
    var t := TrimStart(s);
    if t != [] {
      TrimEndKeepsHead(t);
      assert t[0] == s[|s| - |t|];
    }
  }

  /** Trimming the end of a text that starts with a non-whitespace character keeps that
      character. */
  lemma TrimEndKeepsHead(t: string)
    requires t != [] && !IsWhitespace(t[0])
    ensures TrimEnd(t) != [] && TrimEnd(t)[0] == t[0]
  {
  }
}

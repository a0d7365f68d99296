/** What the linting engine gives a rule and takes from it: the visited node with its parent and
    scope, and the rule context, which collects reports (`context.report`) and, standing for the
    rules' `console.error` / `console.log` calls, a log of defects. */
module Host {
  import opened Wrappers
  import opened Estree

  /** A report's message: a literal text, or a message id with one named data value. */
  datatype Message =
    | Text(text: string)
    | MessageId(id: string, dataKey: string, dataValue: Option<string>)

  /** One call of `context.report`: the anchor node and the message. */
  datatype Diagnostic = Diagnostic(node: Node, message: Message)

  /** What the rules throw or log. */
  datatype Error =
    | UnresolvedBinding(identifier: string)    // "Cant find variable assigned to identifier"
    | NoDefinition(variable: string)           // "Cant find defenition of variable"
    | MissingReturnStatement                   // TypeError: reading `.argument` of undefined
    | ReturnWithoutArgument                    // TypeError: reading `.properties` of null
    | MissingInitializer                       // TypeError: reading `.properties` of an absent `init`
    | PropertiesUndefined                      // TypeError: filtering or mapping undefined `properties`
    | NodeWithoutKey                           // "Node has no key"
    | SiblingWithoutKey                        // TypeError: reading `.name` of an absent sibling key
    | ShorthandVariableMissing                 // logged: "Cant find shorthand variable"
    | ShorthandSourceMissing                   // logged: "Cant find shorthand source"
    | ReportAtEmptyNode                        // logged: "Cant report error at emtpy node"
    | NotAFunction(importName: string)           // TypeError: calling an import that is not exported

  /** What one handler invocation appends: reports, and defects logged. */
  datatype Outcome = Outcome(diagnostics: seq<Diagnostic>, defects: seq<Error>)

  /** A node the host's traversal visits, with its parent and the scope `context.getScope` gives. */
  datatype Visit = Visit(node: Node, parent: Node, scope: Scope)

  /** The rule context of one linting run. */
  class RuleContext {
    var reports: seq<Diagnostic>
    var log: seq<Error>

    constructor ()
      ensures reports == [] && log == []
    {
      reports, log := [], [];
    }

    /** `context.report(d)`: appends one diagnostic, never deduplicating. */
    method Report(d: Diagnostic)
      modifies this
      ensures reports == old(reports) + [d]
      ensures log == old(log)
    {
      reports := reports + [d];
    }

    /** A `console.error` / `console.log` line about a defect. */
    method LogDefect(e: Error)
      modifies this
      ensures log == old(log) + [e]
      ensures reports == old(reports)
    {
      log := log + [e];
    }

    /** Appends a whole outcome: used where the source makes no report at all on a path. */
    method LogDefects(es: seq<Error>)
      modifies this
      ensures log == old(log) + es
      ensures reports == old(reports)
    {
      log := log + es;
    }
  }
}

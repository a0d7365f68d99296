# eslint-plugin-strict-vue, modelled in Dafny

A model of the rules of the ESLint plugin `eslint-plugin-strict-vue` and of the helpers they share:

- **Shared helpers** (`utils.dfy`, module `Utils`). These model `lib/utils.js`:
  - the doc-comment test;
  - the scope-chain variable lookup;
  - resolution of a property's child entries, through an identifier to an initialiser or to the first `return` of a function;
  - the keyed reporting loop;
  - the store and component classifiers.
- **`require-jsdoc`** (`require_jsdoc.dfy`):
  - the option merge;
  - the nested doc check;
  - the handler that runs it for Vuex actions, Vuex state and Vue props.
- **`enforce-vuex-action-doc`** (`enforce_vuex_action_doc.dfy`): an older rule with these parts:
  - a "has a `state` sibling" store test;
  - a non-blank leading-comment test;
  - shorthand resolution through references in one scope;
  - a loop that skips keyless actions.
- **`no-root-store-assets`** (`no_root_store_assets.dfy`):
  - getters that take three or four parameters are reported;
  - every `rootState` / `rootGetters` key or member read is reported.
- **`no-root-store-calls`** (`no_root_store_calls.dfy`): a `commit` or `dispatch` call whose second or third argument is `{ root: true }` is reported.
- **The test helper `prepareCases`** (`test_utils.dfy`): `only` / `skip` selection and removal of the bookkeeping fields.

## How the model is built

The shared vocabulary lives in four modules:

- `Estree`: a closed syntax-tree datatype, with comments, variables, definitions, references and scopes.
- `Host`: what a rule receives and produces, namely a `Visit` of a node with its parent and scope, and a `RuleContext` class.
  - `RuleContext` has two fields that its methods update: `reports` (`context.report`) and `log` (the `console.error` / `console.log` lines).
- `Seqs`: `Filter` and `Map`, with positional lemmas.
- `Wrappers`: `Option` and `Result`.

JavaScript's habits become explicit:

- An `undefined` result becomes `None`.
- A throw becomes a `Result` failure that names the error.
- A `try`/`catch` becomes an `Outcome`: the reports made before the throw, plus the logged defects.

Each handler has two parts:

- a pure function giving its `Outcome`;
- a method over `RuleContext` whose `ensures` ties the new `reports` and `log` to that function.

Where the source loops with `forEach`, the method has a `while` loop with invariants.

## Model

| member | source | states |
|---|---|---|
| Estree.Trim | lib/utils.js:8 | `String.prototype.trim`: the result is a slice of the text with only whitespace before and after it; it is empty iff the text is all whitespace, and otherwise begins and ends with non-whitespace |
| Utils.SomeDocText | lib/utils.js:9 | true iff some trimmed block-comment text starts with `*` and has more than one character |
| Utils.DocTextsOfBlocks | lib/utils.js:6-9 | filter-blocks / trim / some holds iff some comment before the node is a doc comment (a block comment whose trimmed text starts with `*` and is longer than one character) |
| Utils.HasNoValidDoc | lib/utils.js:4-11 | true iff no comment the host reports before the node is a doc comment; line comments never count |
| Utils.FindInScope | lib/utils.js:19 | finds the first variable with the name, or gives `None` exactly when no variable of the frame has it |
| Utils.FindVariable | lib/utils.js:14-22 | a found variable carries the queried name |
| Utils.FindVariableFinds | lib/utils.js:14-22 | the lookup succeeds iff some scope of the chain, innermost first, declares the name |
| Utils.FindVariableShadows | lib/utils.js:19-21 | the innermost declaring scope wins: the result is that scope's first variable with the name |
| Utils.LastDefinition | lib/utils.js:36 | `R.last`: the last definition, or `None` exactly for an empty list |
| Utils.GetIdentifierDefinition | lib/utils.js:28-43 | fails with "cannot find variable" iff no scope of the chain declares the name, and with "cannot find definition" iff the variable found has no definitions; otherwise gives that variable's last definition |
| Utils.FirstReturn | lib/utils.js:51-54 | `None` iff no statement is a `return`; otherwise the first `return` in order |
| Utils.FindReturnStatement | lib/utils.js:46-57 | follows `body` links from a function or loop down to a block, then takes its first top-level `return`; a result is always a `return` statement |
| Utils.TopLevelReturnOnly | lib/utils.js:46-57 | for every node, a found `return` is an element of the statement list reached through `.body`, and nothing is found when none of that list's own elements is a `return`, whatever they nest |
| Utils.NestedReturnNotFound | lib/utils.js:46-57 | a `return` nested inside an `if` is not found |
| Utils.GetChildProperties | lib/utils.js:60-83 | an object-literal value gives its own entries; a value that is neither an object literal nor an identifier gives none; only identifier resolution can fail |
| Utils.PropertiesOrUndefined | lib/utils.js:74 | reading `.properties` succeeds exactly on object literals and patterns, giving their entries; otherwise the callers' `TypeError` |
| Utils.ImportGivesNothing | lib/utils.js:68-70 | an identifier bound by an import, parameter or anything other than a function name or variable gives no entries |
| Utils.VariableGivesInitProperties | lib/utils.js:77-79 | an identifier bound to a variable initialised with an object literal gives that literal's entries |
| Utils.FunctionGivesReturnedProperties | lib/utils.js:72-75 | an identifier bound to a function whose first top-level `return` returns an object literal gives that literal's entries |
| Utils.KeyDiagnostics | lib/utils.js:85-94 | one report per node, at the node's key, in order, up to the first keyless node; all nodes are reported iff all have keys |
| Utils.MissedJsdocOutcome | lib/utils.js:106 | the `forEach` reports are those keyed reports; exactly one "Node has no key" defect iff some node is keyless |
| Utils.ReportMissedJsdoc | lib/utils.js:85-94 | the loop appends exactly the keyed reports and throws "Node has no key" iff some node is keyless |
| Utils.NestedDocOutcome | lib/utils.js:97-110 | a resolution failure is only logged, with no report; at most one defect; every report says "Missing JSDoc comment." |
| Utils.DocCandidatesAreUndocumented | lib/utils.js:99-104 | the two spread filters followed by the doc filter keep exactly the non-spread entries without a doc comment |
| Utils.NestedDocReports | lib/utils.js:97-110 | over ordinary entries and spreads: one report per undocumented non-spread entry, in source order, at its key, with no defect |
| Utils.CheckNestedPropertiesForDoc | lib/utils.js:97-110 | appends exactly the reports and defects of `NestedDocOutcome` |
| Host.RuleContext.Report | lib/utils.js:90-93 | `context.report` appends one report and leaves the log alone |
| Utils.IsWithinVuexStore | lib/utils.js:116-149 | a store iff at least two siblings, every sibling key is a store key, and the keys are not exactly `state` and `getters` |
| Utils.IsWithinVueComponent | lib/utils.js:155-171 | a component iff at least two sibling keys, at distinct positions, are component keys |
| Utils.VocabulariesDisjoint | lib/utils.js:117-124 | no store key is a component key |
| Utils.StoreIsNotComponent | lib/utils.js:141-171 | a store-like object is never component-like |
| Utils.IsVuexActions | lib/utils.js:173-174 | true exactly for an `actions` key inside a store-like object: at least two siblings, all keyed with store keys, and not just `state` and `getters` |
| Utils.IsVuexState | lib/utils.js:176 | true exactly for a `state` key inside a store-like object: at least two siblings, all keyed with store keys, and not just `state` and `getters` (so `{ state, getters }` is rejected) |
| Utils.IsVueProps | lib/utils.js:178-179 | true exactly for a `props` key whose object has two sibling positions keyed with component keys |
| Utils.ClassifiersExclusive | lib/utils.js:173-179 | at most one of `isVuexActions`, `isVuexState` and `isVueProps` holds for a property |
| Utils.StateAndGettersIsNoStore | lib/utils.js:128-139 | exactly `state` and `getters`, in either order, is not a store |
| Utils.StoreWithActions | lib/utils.js:141-148 | `state`, `getters` and `actions` is a store |
| Utils.NotStores | lib/utils.js:141-148 | a non-store key beside store keys, or a single store key, is not a store |
| Utils.UnnamedSiblingIsNoStore | lib/utils.js:146 | a sibling without a key name (a spread) rules out a store |
| Utils.ComponentExamples | lib/utils.js:165-170 | `name`, `props` and `data` is a component; `props` and `name` alone is not |
| Utils.CallImportedGetChildProperties | lib/utils.js:181-186 | calling an import from `lib/utils.js` runs it when the module exports it, and otherwise throws a `TypeError` |
| RequireJsdoc.EffectiveFlags | lib/rules/require-jsdoc.js:79-88 | each flag is the value the first option's `require` object supplies, or else its default: `VueProps` true, the two Vuex flags false |
| RequireJsdoc.Merge | lib/rules/require-jsdoc.js:85-88 | supplied keys override the defaults, the other defaults stay, and an absent object adds nothing |
| RequireJsdoc.DefaultFlags | lib/rules/require-jsdoc.js:79-83 | with no options the flags are VueProps on, VuexActions off, VuexState off |
| RequireJsdoc.SuppliedFlags | lib/rules/require-jsdoc.js:85-88 | each flag is its supplied value, or its default when not supplied |
| RequireJsdoc.UnknownKeyIgnored | lib/rules/require-jsdoc.js:85-88 | a key other than the three flags (such as `VuexAction`) changes no flag |
| RequireJsdoc.NestedDocOutcome | lib/rules/require-jsdoc.js:33-44 | the rule's own check, which does not drop spreads: a resolution failure is only logged; at most one defect; every report says "Missing JSDoc comment." |
| RequireJsdoc.SpreadStopsReports | lib/rules/require-jsdoc.js:37-40 | an undocumented spread stops the loop with "Node has no key", after reporting exactly the undocumented entries before it |
| RequireJsdoc.AgreesWithoutSpreads | lib/rules/require-jsdoc.js:33-44 | without spreads the rule's check appends what the shared check does |
| RequireJsdoc.CheckNestedPropertiesForDoc | lib/rules/require-jsdoc.js:33-44 | appends exactly the reports and defects of the rule's `NestedDocOutcome` |
| RequireJsdoc.AsWrittenNeverReports | lib/rules/require-jsdoc.js:4-9 | as imported, `getChildProperties` is not a function: every check logs a `TypeError` and reports nothing |
| RequireJsdoc.AsWrittenMissesUndocumentedProp | lib/rules/require-jsdoc.js:35 | `props: { name: String }` without a doc is reported by the intended check but not by the code as written |
| RequireJsdoc.AtMostOneCheck | lib/rules/require-jsdoc.js:90-104 | the handler appends the nested check's outcome once iff the property sits in an object literal and an enabled classifier holds; otherwise it appends nothing |
| RequireJsdoc.VisitReportsMessage | lib/rules/require-jsdoc.js:16-19 | every report of the handler says "Missing JSDoc comment." |
| RequireJsdoc.CheckGuarded | lib/rules/require-jsdoc.js:92-102 | with at most one guard true, the three guarded calls append the nested check's outcome once if a guard holds, and nothing otherwise |
| RequireJsdoc.VisitOutcome | lib/rules/require-jsdoc.js:90-104 | nothing for a node that is not a property of an object literal, or when no enabled classifier holds |
| RequireJsdoc.OnVisit | lib/rules/require-jsdoc.js:91-103 | the three guarded calls append exactly the handler's outcome |
| EnforceVuexActionDoc.SomeStateKey | lib/rules/enforce-vuex-action-doc.js:13 | throws ("no key") iff a keyless sibling comes before every `state` key; otherwise true iff some sibling is keyed `state` |
| EnforceVuexActionDoc.SpreadBeforeStateThrows | lib/rules/enforce-vuex-action-doc.js:13 | a spread before `state` throws; a spread after `state` is never reached and the test is true |
| EnforceVuexActionDoc.IsWithinVuexStore | lib/rules/enforce-vuex-action-doc.js:12-13 | a parent without properties throws; otherwise the `state` test over its properties |
| EnforceVuexActionDoc.HasLeadingComment | lib/rules/enforce-vuex-action-doc.js:16-17 | true iff some comment before the action has non-empty trimmed text |
| EnforceVuexActionDoc.SomeNonBlank | lib/rules/enforce-vuex-action-doc.js:17 | true iff some comment's trimmed text is not empty |
| EnforceVuexActionDoc.LeadingCommentIsNonBlank | lib/rules/enforce-vuex-action-doc.js:16-17 | a leading comment counts iff some leading comment has a non-whitespace character |
| EnforceVuexActionDoc.DocCommentIsLeadingComment | lib/rules/enforce-vuex-action-doc.js:16-17 | a valid doc comment always counts as a leading comment |
| EnforceVuexActionDoc.LineCommentCountsHere | lib/rules/enforce-vuex-action-doc.js:16-17 | a non-blank line comment satisfies this rule, though it is no valid doc for the shared check |
| EnforceVuexActionDoc.FirstWithParent | lib/rules/enforce-vuex-action-doc.js:32-34 | the first reference whose identifier has a parent, or `None` iff there is none |
| EnforceVuexActionDoc.FindShorthandValue | lib/rules/enforce-vuex-action-doc.js:20-42 | "variable missing" iff no variable of the key's own scope has the name; "source missing" iff it is found but no reference's identifier has a parent; otherwise that parent's initialiser |
| EnforceVuexActionDoc.OwnScopeOnly | lib/rules/enforce-vuex-action-doc.js:21-22 | the enclosing scopes never change the shorthand lookup |
| EnforceVuexActionDoc.ShorthandThroughDeclarator | lib/rules/enforce-vuex-action-doc.js:32-41 | when the first referencing declarator is initialised with an object literal, its entries are the actions |
| EnforceVuexActionDoc.ActionsFromShorthand | lib/rules/enforce-vuex-action-doc.js:55 | a dummy value gives no actions and keeps its log line; only a real initialiser can throw |
| EnforceVuexActionDoc.ActionsOf | lib/rules/enforce-vuex-action-doc.js:54-56 | an inline value gives its `properties`, and throws exactly when it has none |
| EnforceVuexActionDoc.ActionsDocOutcome | lib/rules/enforce-vuex-action-doc.js:44-72 | nothing for a key other than `actions`; reports only inside a store the `state` test accepts; a throwing store test reports nothing and logs at most one line |
| EnforceVuexActionDoc.OnlyActionsChecked | lib/rules/enforce-vuex-action-doc.js:46-48 | only a property keyed `actions` is checked |
| EnforceVuexActionDoc.NoStateNoCheck | lib/rules/enforce-vuex-action-doc.js:50-52 | when the parent is an object literal whose siblings are all keyed and none is `state`, nothing is reported or logged |
| EnforceVuexActionDoc.InlineActionsReported | lib/rules/enforce-vuex-action-doc.js:58-72 | one report per keyed action without a leading comment, in order, at its key, and one "empty node" log line per keyless one |
| EnforceVuexActionDoc.UndocumentedReports | lib/rules/enforce-vuex-action-doc.js:58-72 | over the entries without a leading comment: the keyed ones are reported at their keys, in order, and each keyless one logs one line |
| EnforceVuexActionDoc.MissingShorthandLogsOnly | lib/rules/enforce-vuex-action-doc.js:24-30 | a shorthand with no variable of that name in the key's scope logs "variable missing" and reports nothing |
| EnforceVuexActionDoc.ActionStep | lib/rules/enforce-vuex-action-doc.js:60-72 | each loop step reports a keyed action or logs a keyless one, and never stops the loop |
| EnforceVuexActionDoc.ReportActions | lib/rules/enforce-vuex-action-doc.js:60-72 | the loop appends exactly the keyed reports and the keyless log lines |
| EnforceVuexActionDoc.CheckStoreActions | lib/rules/enforce-vuex-action-doc.js:53-72 | inside a store, appends the undocumented actions' reports and log lines, or one log line when the actions cannot be read |
| EnforceVuexActionDoc.OnVisit | lib/rules/enforce-vuex-action-doc.js:86-96 | the `Property` handler appends exactly `ActionsDocOutcome`, a throw becoming one log line |
| NoRootStoreAssets.AssetReport | lib/rules/no-root-store-assets.js:23-33 | a report at the node with message id `avoidRootAssets` and the asset name, or "rootState and rootGetters" when none is given |
| NoRootStoreAssets.PropertyFunction | lib/rules/no-root-store-assets.js:43-46 | an identifier value is resolved through `getIdentifierValue`, which may throw; any other value is taken as is, and a missing one is `undefined` |
| NoRootStoreAssets.RootAsset | lib/rules/no-root-store-assets.js:50-60 | four or more parameters mean `rootGetters`, exactly three mean `rootState`, and fewer, or no function, mean nothing |
| NoRootStoreAssets.ChildFunctions | lib/rules/no-root-store-assets.js:62 | succeeds iff every child resolves, giving one function per child in order; otherwise fails with the error of the first child that throws |
| NoRootStoreAssets.GettersOutcome | lib/rules/no-root-store-assets.js:39-67 | all or nothing: a logged error comes alone, without any report; a failure of `getChildProperties` is that one error |
| NoRootStoreAssets.GetterReports | lib/rules/no-root-store-assets.js:39-67 | when every child resolves: one report per getter with three or more parameters, in order, naming `rootGetters` or `rootState`, and nothing logged |
| NoRootStoreAssets.ResolutionThrowAbandons | lib/rules/no-root-store-assets.js:43-66 | a child whose `getIdentifierValue` throws ends the `map` before the `forEach`: no getter is reported, and that first error is logged once |
| NoRootStoreAssets.ThrowAfterRootGetter | lib/rules/no-root-store-assets.js:43-66 | a four-parameter getter before a named getter whose lookup throws goes unreported, and one line is logged |
| NoRootStoreAssets.InlineGetterExamples | lib/rules/no-root-store-assets.js:48-61 | four parameters report `rootGetters`, three report `rootState`, two report nothing |
| NoRootStoreAssets.IdentifierGetterResolved | lib/rules/no-root-store-assets.js:44 | an identifier getter is what `getIdentifierValue` gives for it, and a throw of that lookup is the `map`'s error |
| NoRootStoreAssets.GetterStep | lib/rules/no-root-store-assets.js:48-61 | each step of the `forEach` reports its function iff it uses a root asset |
| NoRootStoreAssets.ReportGetters | lib/rules/no-root-store-assets.js:48-63 | the loop appends exactly the getter reports and logs nothing |
| NoRootStoreAssets.CheckGettersForRootAssets | lib/rules/no-root-store-assets.js:39-67 | appends exactly the getter check's reports, or logs the failure of `getChildProperties` or of the `map` |
| NoRootStoreAssets.AsWrittenNeverReportsGetters | lib/rules/no-root-store-assets.js:17-21 | as imported, `getChildProperties` is not a function: every getters check logs a `TypeError` and reports nothing |
| NoRootStoreAssets.AsWrittenMissesRootGetters | lib/rules/no-root-store-assets.js:41 | a four-parameter getter is reported by the intended check but not by the code as written |
| NoRootStoreAssets.SelectedAsset | lib/rules/no-root-store-assets.js:89-96 | a property keyed, or a member read named, `rootGetters` or `rootState` selects that asset, by name; nothing else selects one |
| NoRootStoreAssets.AssetAccessReported | lib/rules/no-root-store-assets.js:89-96 | such a key or read is reported once, at that node, with its asset name, wherever it appears |
| NoRootStoreAssets.OrdinaryAccessNotReported | lib/rules/no-root-store-assets.js:89-96 | `.state`, `.getters` and ordinary destructured keys are not reported |
| NoRootStoreAssets.SelectorOutcome | lib/rules/no-root-store-assets.js:89-96 | at most one report, exactly when a selector matches, at the node with its asset, and nothing logged |
| NoRootStoreAssets.VisitOutcome | lib/rules/no-root-store-assets.js:80-98 | outside the getters handler only the selector report; at most one log line, and a logged error drops every getter report |
| NoRootStoreAssets.OnVisit | lib/rules/no-root-store-assets.js:80-98 | all handlers together append the getters check and then the selector report |
| NoRootStoreCalls.RootCallIff | lib/rules/no-root-store-calls.js:9-16 | a root call iff the second or third argument is an object or pattern whose first entry is `root: true` |
| NoRootStoreCalls.IsRootArg | lib/rules/no-root-store-calls.js:12-14 | true iff the argument is an object whose first entry is `root: true` |
| NoRootStoreCalls.IsRootCall | lib/rules/no-root-store-calls.js:9-16 | a root call is a call with at least two arguments |
| NoRootStoreCalls.ActionName | lib/rules/no-root-store-calls.js:17-19 | the callee's name when it is non-empty, otherwise the called member's property name |
| NoRootStoreCalls.RootCallOutcome | lib/rules/no-root-store-calls.js:6-32 | exactly one report iff it is a root call, at the call, with message id `avoidRootCalls` and the action name; never a defect |
| NoRootStoreCalls.CheckRootCall | lib/rules/no-root-store-calls.js:6-32 | appends exactly that outcome's report |
| NoRootStoreCalls.OneSelectorAtMost | lib/rules/no-root-store-calls.js:47-52 | at most one of the four selectors matches a node, and one matches exactly for calls of `commit` or `dispatch` by name or as a member |
| NoRootStoreCalls.VisitOutcome | lib/rules/no-root-store-calls.js:46-53 | only `commit` and `dispatch` calls are examined; any other node gets nothing |
| NoRootStoreCalls.OnVisit | lib/rules/no-root-store-calls.js:47-52 | the four handlers together append exactly that outcome |
| NoRootStoreCalls.NotRootCalls | lib/rules/no-root-store-calls.js:12-16 | the flag in the first argument, `root` after another entry, `root: 1` and a string key `'root'` are not root calls |
| NoRootStoreCalls.UnreportedCalls | lib/rules/no-root-store-calls.js:46-53 | `ctx.commit('1')`, `dispatch(1, null)` and `commit({ type: 'm', prop: 1 })` are not reported |
| NoRootStoreCalls.ReportedCalls | lib/rules/no-root-store-calls.js:21-28 | a `commit` or `ctx.dispatch` call with `{ root: true }` third is reported once, naming `commit` or `dispatch` |
| TestUtils.FieldOrFalse | tests/utils.js:10-11 | a destructuring default: a missing or `undefined` field reads as `false`; any other value, `null` included, is kept |
| TestUtils.IsStandalone | tests/utils.js:10 | a case is standalone iff it has an `only` field with a truthy value |
| TestUtils.IsKept | tests/utils.js:11 | a case is kept iff it has no `skip` field or a falsy one |
| TestUtils.PrepareReturnValue | tests/utils.js:17-20 | each returned case is a kept input with `only`, `skip` and `title` omitted; a list with none skipped comes back whole, in order, with those fields omitted; no list grows |
| TestUtils.KeptOmitted | tests/utils.js:11-12 | `omitProps(filterSkiped(s))`: each result is a kept input with the bookkeeping fields omitted, a list with none skipped comes back whole, and the result is never longer |
| TestUtils.Omit | tests/utils.js:12 | removes exactly `only`, `skip` and `title`, keeping every other field and its value |
| TestUtils.PrepareCases | tests/utils.js:9-28 | throws exactly when the invalid list is undefined; never lengthens a list |
| TestUtils.PrepareCasesIntended | tests/utils.js:22-25 | the corrected helper: throws exactly when the invalid list is undefined; never lengthens a list |
| TestUtils.StandaloneThenKept | tests/utils.js:14-19 | taking the `only` cases and then dropping `skip` ones is one filter by both flags |
| TestUtils.NoStandaloneKeepsKept | tests/utils.js:22-24 | with no `only` valid case, every non-skipped case of both lists is kept in order, whatever the invalid cases say |
| TestUtils.StandaloneKeepsFlagged | tests/utils.js:14-27 | with some `only` valid case, only the `only`, non-skipped cases of both lists are kept |
| TestUtils.ReturnedCasesFromInput | tests/utils.js:17-27 | each returned valid case is a non-skipped input case without its bookkeeping fields, and an `only` one when the valid list has any |
| TestUtils.BookkeepingOmitted | tests/utils.js:12 | no returned case has `only`, `skip` or `title` |
| TestUtils.UndefinedValidIsEmpty | tests/utils.js:9 | an omitted valid list reads as empty |
| TestUtils.IntendedStandaloneEitherList | tests/utils.js:22-27 | corrected: `only` mode is on iff either list has an `only` case |
| TestUtils.InvalidOnlyIgnored | tests/utils.js:23 | an `only` invalid case with one plain valid case: as written both run; corrected, the flagged case runs alone |

## Left out

- `lib/index.js`: rule registration and packaging.
- How the host engine works:
  - parsing, traversal order and the selector engine are not modelled;
  - a visit is a given node with its parent and scope;
  - the handlers for one node run in increasing selector specificity, as ESLint orders them (attribute count first).
    - Only `no-root-store-assets` has two selectors that can match one node.
    - There, `ObjectExpression > Property` has no attribute and so runs before `Property[key.name=…]`, which is the order `NoRootStoreAssets.OnVisit` takes.
    - The selectors of `no-root-store-calls` exclude each other (`NoRootStoreCalls.OneSelectorAtMost`), so their order does not matter.
- `context.getScope` and comment attachment are inputs: a `Scope` value, and the comments carried on property and spread nodes.
- `console.error` / `console.log` output, file names and message texts are reduced to one `Error` value per logged line.
- Ramda is inlined: `R.path`, `R.filter`, `R.find`, `R.innerJoin`, `R.merge`, `cond` and `compose` are written as the functions they compute.
- Option-schema validation and message templating belong to the host.
  - The rule-option value is taken as a map of booleans, as the schema at `lib/rules/require-jsdoc.js:53-75` demands.
- `isVuexGetters` and `getIdentifierValue` have no definition in the repository, so they are parameters.
  - `isVuexGetters` is a total predicate on the visit. A throw from it, which would escape the handler uncaught, is not modelled.
  - `getIdentifierValue(context)` is an `IdentifierResolver`, which may fail with an error. A failure abandons the whole getters check inside its `try`; this is modelled (`NoRootStoreAssets.ResolutionThrowAbandons`).
  - The `TypeError` their missing export would raise is not modelled.
- The test-runner files under `tests/lib/rules` are not part of this model. Examples from them appear as lemmas where the code agrees with them.
- `String.prototype.trim` uses a fixed whitespace set: ASCII whitespace, no-break space, U+2028, U+2029 and the byte-order mark. Other Unicode space characters are not modelled.
- `Utils.IsWithinVuexStore`: the `keys.sort()` at `lib/utils.js:129` sorts a fresh local array in place.
  - Its only use is the equality test, so the sort is stated as equality of multisets of key names.
  - The in-place library sort itself is not modelled.
- `getChildProperties` and spreads: spread entries are dropped by `checkNestedPropertiesForDoc` (`lib/utils.js:100-101`), not by `getChildProperties`. The model follows the code.
- Nodes are a closed datatype:
  - a node that is not an object literal or pattern has no `properties`;
  - a `Property` always has a key.
- Test cases for `prepareCases` are maps from field names to values.
  - An undefined invalid list is one `ListUndefined` failure, the `TypeError` of `filter`.
  - String test cases, `NaN` and a `null` list are not modelled.

## Findings

| source | as written | input that shows it | evidently intended | confidence | as-written member | corrected member |
|---|---|---|---|---|---|---|
| lib/rules/require-jsdoc.js:4-9 | imports `getChildProperties` from `../utils`, which exports only `checkNestedPropertiesForDoc`, `isVuexActions`, `isVuexState` and `isVueProps`; the call at line 35 throws a `TypeError`, which is caught and logged | a component `{ props: { name: String }, data() {} }` whose `name` has no doc | `name` is reported with "Missing JSDoc comment." | not executed | RequireJsdoc.AsWrittenMissesUndocumentedProp | RequireJsdoc.NestedDocOutcome |
| lib/rules/no-root-store-assets.js:17-21 | imports `getChildProperties` and `isVuexGetters` from `../utils`, which exports neither. As written, the handler at line 84 calls `isVuexGetters` outside any `try`, so it throws an uncaught `TypeError` for every visited property and line 41 is never reached. Once `isVuexGetters` is supplied, as this model takes it, the call at line 41 still throws, is caught and logged | a getter `total: (state, getters, rootState, rootGetters) => 1` | the getter is reported as using `rootGetters` | not executed | NoRootStoreAssets.AsWrittenMissesRootGetters | NoRootStoreAssets.GetterReports |
| tests/utils.js:23 | tests the standalone valid list twice, never the standalone invalid list | valid `[{}]`, invalid `[{ only: true }]` | only the flagged invalid case runs | not executed | TestUtils.InvalidOnlyIgnored | TestUtils.IntendedStandaloneEitherList |

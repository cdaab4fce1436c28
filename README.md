# isStatelessComponent, modelled in Dafny

react-docgen decides which declarations of a file are React components.
`src/utils/isStatelessComponent.js` is the part that recognises *stateless*
(function) components. It does this without running anything: a
function-like node is a component when some return path of it can yield a
JSX element or a `React.createElement`, `React.cloneElement` or
`React.Children` call. Three procedures do the work:

- `isStatelessComponent` is the entry filter. It accepts only properties,
  function declarations, function expressions and arrow functions. It
  rejects a property whose parent is a `React.createClass` call or a
  component class.
- `returnsJSXElementOrReactCall` looks at what a function returns. An
  expression-bodied arrow is judged by its body. Otherwise it visits the
  return statements of the function's own scope. For a property it uses
  the scope of the property's value.
- `resolvesToJSXElementOrReactCall` classifies a value. It accepts a
  recognised node, or a recognised value found by the resolver. It tries
  both outcomes of `?:` and of `&&`/`||`. It follows a call into the
  function its callee resolves to. It also looks the callee `root.a.b` up
  in an object literal that `root` resolves to.

## How the model is built

- `ast.dfy` (module `Ast`) holds the syntax tree. A `Node` stands for a
  recast path: an `id` (the path's identity), a `scope` (the id of the
  lexical scope recast computes for it) and a `shape`. The shape is the
  ESTree node with its children. Node types the classifier never tests
  are `Other`. Functions establish scopes, and so does the `catch` clause
  of a `try` statement: a return inside `catch (e) { … }` belongs to the
  clause's scope, not the function's, and the scan skips it.
- `collaborators.dfy` (module `Collaborators`) holds `Env`. Its fields are
  the helpers the file imports: `resolveToValue`, the five `isReact*`
  recognisers and `getPropertyValuePath`. Each is an arbitrary total
  function, so every result holds for every behaviour of those helpers.
- `stateless_component.dfy` (module `StatelessComponent`) holds the three
  mutually recursive procedures as functions. `SomeReturnQualifies` is the
  return-statement visitor. `CallQualifies` and `NamespaceQualifies` are
  the call-following part of the value classifier. Every procedure takes a
  `fuel` budget. Each entry into the value classifier spends one unit, and
  an empty budget answers `false`. The source has no such bound. On
  `function f() { return f(); }` it recurses until the call stack
  overflows and throws a `RangeError`.
- `member_chain.dfy` (module `MemberChain`) holds the namespace lookup.
  The `do…while` loop and the `reduce` are methods, each proved equal to a
  pure function that the classifier uses.
- `return_scan.dfy` (module `ReturnScan`) holds the visitor as the source
  runs it: a depth-first walk that sets a `visited` flag. It is proved
  equal to the recursive function. The module also gives a reference
  definition: the set of same-scope return statements the walk may
  consult. The set over-approximates the walk, because it also holds
  returns nested inside a return whose argument already resolved. Only
  its qualifying members matter.
- `classifier_facts.dfy` (module `ClassifierFacts`) states the case
  analysis and proves that more fuel never turns `true` into `false`.
- `scenarios.dfy` (module `Scenarios`) works through small programs.

Some behaviours of the code are easy to misread. The model follows the
code:

- An expression-bodied arrow used as a property value
  (`{ render: () => <div/> }`) is not a component. The arrow fast path
  tests the node's own type, and the property has no return statement.
- For a callee chain of two or more properties (`ns.a.b()`), the names
  looked up are `ns`, `a`, `b`. The loop leaves the chain's root as the
  current node and still unshifts its `property` child. That child path
  is empty, and recast's `node` of an empty path is the owner node, so
  the root's own name comes first.
- The visitor does not stop at the first qualifying return. It only skips
  that return's subtree and goes on to classify every later return of
  the scope. When the source returns, its answer is the model's. A later
  return can recurse until the call stack overflows, for example in
  `function g() { if (c) return <div/>; return g(); }`. Then the source
  throws a `RangeError`, and the model answers true. The same holds for a
  call, because the source scans the callee's returns before it tries the
  namespace lookup.
- Nothing bounds the recursion through `resolveToValue`. A cycle of
  resolutions recurses until the call stack overflows, and the
  `RangeError` escapes `isStatelessComponent`.
- The comment at line 141 says that only the returns of the function
  being checked count. The scope test at line 142 compares lexical
  scopes, though, and a `catch` clause has its own. A `return` inside
  `catch (e) { … }` is part of the function, but it is skipped.
  `Scenarios.CatchClauseReturnIgnored` shows this.

## Model

| member | source | states |
|---|---|---|
| `StatelessComponent.CandidateTypeNames` | src/utils/isStatelessComponent.js:23-28 | The list of valid types holds a node's type exactly when the node is a Property, FunctionDeclaration, FunctionExpression or ArrowFunctionExpression. |
| `StatelessComponent.RecognisedShapes` | src/utils/isStatelessComponent.js:30-37 | Only JSX elements and calls are ever recognised. A JSX element always is. A call is recognised exactly when the createElement, cloneElement or Children recogniser accepts it. |
| `StatelessComponent.IsStatelessComponent` | src/utils/isStatelessComponent.js:159-179 | Any other node kind is never a component. A function declaration, function expression or arrow function is a component iff it returns a qualifying value. A property is a component iff its parent is neither a createClass call nor a component class and it returns a qualifying value. |
| `ClassifierFacts.RecognisedValueResolves` | src/utils/isStatelessComponent.js:41-65 | A recognised node qualifies. So does a node whose resolved value is recognised and has a different identity. |
| `ClassifierFacts.BranchesResolve` | src/utils/isStatelessComponent.js:47-59 | For an unrecognised node whose value is `c ? a : b`, the node qualifies iff `a` or `b` does. For a value `l && r` or `l \|\| r`, it qualifies iff `l` or `r` does. |
| `ClassifierFacts.CallResolves` | src/utils/isStatelessComponent.js:67-116 | A node whose value is a call qualifies in three cases: the callee's value returns a qualifying value; the lookup in the namespace object literal fails; or the lookup finds a value that returns a qualifying value. |
| `ClassifierFacts.ResolvesOnlyByCases` | src/utils/isStatelessComponent.js:39-119 | A node qualifies only through one of the cases above. Every other value, and an empty budget, gives false. |
| `ClassifierFacts.ResolvesMonotone` | src/utils/isStatelessComponent.js:39-119 | If the value classifier says true for a budget, it says true for every larger budget. |
| `ClassifierFacts.CallMonotone` | src/utils/isStatelessComponent.js:68-75 | The call-following step keeps a true answer under more fuel. |
| `ClassifierFacts.NamespaceMonotone` | src/utils/isStatelessComponent.js:76-115 | The namespace step keeps a true answer under more fuel. |
| `ClassifierFacts.ReturnsMonotone` | src/utils/isStatelessComponent.js:121-154 | The return classifier keeps a true answer under more fuel. |
| `ClassifierFacts.ScanMonotone` | src/utils/isStatelessComponent.js:139-151 | The return-statement visitor keeps a true answer under more fuel. |
| `ClassifierFacts.IsStatelessComponentMonotone` | src/utils/isStatelessComponent.js:159-179 | The entry classifier keeps a true answer under more fuel. |
| `MemberChain.UnwindCollects` | src/utils/isStatelessComponent.js:84-87 | The do-while ends at the innermost object of the member chain. It puts in front the root's own name, then the property names below the callee. |
| `MemberChain.NamespaceTargetShape` | src/utils/isStatelessComponent.js:76-91 | A callee that is not a member expression has no namespace. For `obj.p` the model resolves `obj` and looks up `p`. For a longer chain it resolves the root and looks up the root's name, then every property from the root outward. |
| `MemberChain.CollectNamesToResolve` | src/utils/isStatelessComponent.js:76-91 | The loop that collects `namesToResolve` and resolves the chain's root computes the names and the root value of the previous row. |
| `MemberChain.LookupChainFromAbsent` | src/utils/isStatelessComponent.js:94-107 | Once a lookup has failed, the reduce stays failed to the end. |
| `MemberChain.LookupChainAppend` | src/utils/isStatelessComponent.js:94-107 | Looking up `a + b` is looking up `a`, then `b` from where `a` ended. |
| `MemberChain.ResolveMemberExpression` | src/utils/isStatelessComponent.js:94-107 | The reduce's loop gives the left fold of the lookup step. The step resolves every identifier it finds. |
| `ReturnScan.ReachedReturns` | src/utils/isStatelessComponent.js:139-151 | The return statements the visitor consults all belong to the function's scope. It never descends into a return of another scope. |
| `ReturnScan.ScanFindsReachedReturn` | src/utils/isStatelessComponent.js:139-153 | The visitor succeeds iff one of the same-scope return statements it reaches has an argument that resolves. |
| `ReturnScan.ReturnsIffQualifyingReturn` | src/utils/isStatelessComponent.js:121-154 | A function returns a qualifying value iff one of two things holds. Either it is an expression-bodied arrow whose body resolves. Or a reached return statement of its scope has a resolving argument. For a property, that is its value's scope. |
| `ReturnScan.VisitReturnStatements` | src/utils/isStatelessComponent.js:121-154 | The arrow fast path plus the depth-first walk with its `visited` flag gives exactly the recursive return classifier's answer. |
| `Scenarios.SingleReturnScan` | src/utils/isStatelessComponent.js:139-153 | A function whose only statement is `return arg;` qualifies iff `arg` resolves, or a same-scope return inside `arg` qualifies. |
| `Scenarios.ExpressionArrowReturningElement` | src/utils/isStatelessComponent.js:124-131 | `() => <div/>` is a component. |
| `Scenarios.CreateElementReturnIsComponent` | src/utils/isStatelessComponent.js:30-43 | A function returning a call that the createElement recogniser accepts is a component. |
| `Scenarios.LiteralReturnIsNotComponent` | src/utils/isStatelessComponent.js:39-119 | A function returning a literal that resolves to itself is not a component, with any budget. |
| `Scenarios.ConditionalReturnIsComponent` | src/utils/isStatelessComponent.js:47-52 | `return cond ? <div/> : null;` makes a component. |
| `Scenarios.NestedFunctionReturnIgnored` | src/utils/isStatelessComponent.js:140-142 | A JSX return that belongs to an inner function does not make the outer function a component. |
| `Scenarios.TwoLevelIndirection` | src/utils/isStatelessComponent.js:67-74 | A calls B, B calls C, and C returns `<div/>`. Then A is a component with a budget of three. |
| `Scenarios.SelfRecursionNeverQualifies` | src/utils/isStatelessComponent.js:67-74 | On `function f() { return f(); }` the source recurses until the call stack overflows and throws a `RangeError`. The model answers false for it with every budget. |
| `Scenarios.ExpressionArrowPropertyIsNotComponent` | src/utils/isStatelessComponent.js:124-153 | `{ render: () => <div/> }` is not a component. The fast path only applies to arrow nodes, and the property has no return statement. |
| `Scenarios.FirstQualifyingReturnDecides` | src/utils/isStatelessComponent.js:139-153 | In `function g() { if (c) return <div/>; return g(); }` the first return sets the flag, so the model calls `g` a component with every budget. The source's walk still classifies the second return, recurses until the call stack overflows, and throws a `RangeError`. |
| `Scenarios.CatchClauseReturnIgnored` | src/utils/isStatelessComponent.js:140-142 | A `return <div/>` inside a `catch` clause belongs to the clause's scope, so the enclosing function is not a component. |
| `Scenarios.PropertyMethodIsComponent` | src/utils/isStatelessComponent.js:133-137 | A method property returning `<div/>` in its own scope is a component when its parent is not a class factory. The scan uses the value's scope. |
| `Scenarios.MissingNamespaceEntryCounts` | src/utils/isStatelessComponent.js:109-113 | `ns.Item()` counts as a match when `ns` is an object literal without an `Item` entry. |
| `Scenarios.NestedNamespaceLooksUpRootNameFirst` | src/utils/isStatelessComponent.js:78-113 | For `ns.a.b()` the names looked up are "ns", "a", "b". When the object literal has no "ns" entry, the call counts as a match. |

## Left out

- The internals of `resolveToValue`, `getPropertyValuePath`,
  `isReactCreateClassCall`, `isReactComponentClass`,
  `isReactCreateElementCall`, `isReactCloneElementCall` and
  `isReactChildrenElementCall` are not part of this model. They are
  arbitrary total functions of `Env`. Binding resolution and cross-module
  lookup are not modelled.
- `getPropertyValuePath` throws when its argument is not an object
  literal. That can happen on the second step of the reduce. The model's
  collaborator is total, so the exception path is not represented.
- recast's visitor, `NodePath` and `scope` objects, and the
  `types.*.check` helpers are replaced by the `Node` datatype. Scopes are
  per-node scope ids, and traversal is a recursive walk or an explicit
  stack. The test `types.MemberExpression.check` at line 83 always holds
  in its branch, so that branch is a plain `else`.
- `path.parent`, used only for the property exclusion, is an explicit
  `parent` argument of `IsStatelessComponent`.
- Stack overflow: the fuel budget is a modelling device, not a property
  of the source. On self-referential calls the source recurses until the
  call stack overflows, and the `RangeError` escapes
  `isStatelessComponent`. The model never throws; it returns a boolean.
  When the budget runs out it answers false, as in
  `Scenarios.SelfRecursionNeverQualifies`. The `*Monotone` lemmas show
  that a larger budget never withdraws a true answer.
- The model also answers true in some cases where the source throws. That
  happens when a same-scope return, or a call's callee or namespace
  member, qualifies within the budget, while the source overflows the
  stack elsewhere. The overflow can come on another return of the same
  scan, or on the callee scan that runs before the namespace lookup.
  `Scenarios.FirstQualifyingReturnDecides` is such a case.
- A bare `return;` is a return without an argument and never qualifies.
  The source passes the empty argument path to the classifier, and that
  path stands for the return statement itself. The model does not follow
  that fallback.
- Flow type annotations, the imports and the default export are not
  modelled. Nor are the callers that extract documentation.
- Node fields the classifier never reads are not represented: function
  names, operators, the `computed` flag of member expressions, and source
  locations.
- Idempotence (classifying twice gives the same answer) needs no lemma.
  Every operation in the model is a pure function.

/** The classifier of src/utils/isStatelessComponent.js: does some return
    path of a function-like node yield a JSX element or a
    `React.createElement`, `React.cloneElement` or `React.Children` call?

    The three procedures of the source recurse into one another through
    `resolveToValue`, which the source does not guard against cycles
    (`function f() { return f(); }` recurses until the call stack overflows
    and throws a `RangeError`). Every function here takes a `fuel`
    budget: each entry into the value classifier spends one unit and an
    empty budget answers `false`. */
module StatelessComponent {
  import opened Ast
  import opened Collaborators
  import opened MemberChain

  /** The node types that can be a stateless component at all. */
  const ValidPossibleStatelessComponentTypes: seq<string> :=
    ["Property", "FunctionDeclaration", "FunctionExpression", "ArrowFunctionExpression"]

  /** The four shapes the type list names. */
  predicate IsCandidateKind(s: Shape)
  {
    s.Property? || s.FunctionDeclaration? || s.FunctionExpression? || s.ArrowFunctionExpression?
  }

  /** The type list accepts exactly the four candidate shapes. */
  lemma CandidateTypeNames(s: Shape)
    ensures TypeName(s) in ValidPossibleStatelessComponentTypes <==> IsCandidateKind(s)
  {
  }

  /** A JSX element, or a call that one of the createElement, cloneElement
      or Children recognisers accepts. */
  predicate IsJSXElementOrReactCall(o: Env, p: Node)
  {
    p.shape.JSXElement?
    || (p.shape.CallExpression? && o.isReactCreateElementCall(p))
    || (p.shape.CallExpression? && o.isReactCloneElementCall(p))
    || (p.shape.CallExpression? && o.isReactChildrenElementCall(p))
  }

  /** Only JSX elements and calls are ever recognised; a JSX element always
      is, and a call is exactly when one of the three recognisers accepts it. */
  lemma RecognisedShapes(o: Env, p: Node)
    ensures IsJSXElementOrReactCall(o, p) ==> p.shape.JSXElement? || p.shape.CallExpression?
    ensures p.shape.JSXElement? ==> IsJSXElementOrReactCall(o, p)
    ensures p.shape.CallExpression? ==>
      (IsJSXElementOrReactCall(o, p)
       <==> o.isReactCreateElementCall(p) || o.isReactCloneElementCall(p) || o.isReactChildrenElementCall(p))
  {
  }

  /** Can the value of the expression `p` be a JSX element or a React call? */
  function ResolvesToJSXElementOrReactCall(o: Env, p: Node, fuel: nat): (r: bool)
    decreases fuel, 0
  {
    if fuel == 0 then false
    else if IsJSXElementOrReactCall(o, p) then true
    else
      var resolved := o.resolveToValue(p);
      match resolved.shape
      case ConditionalExpression(_, consequent, alternate) =>
        ResolvesToJSXElementOrReactCall(o, consequent, fuel - 1)
        || ResolvesToJSXElementOrReactCall(o, alternate, fuel - 1)
      case LogicalExpression(left, right) =>
        ResolvesToJSXElementOrReactCall(o, left, fuel - 1)
        || ResolvesToJSXElementOrReactCall(o, right, fuel - 1)
      case _ =>
        if resolved.id != p.id && IsJSXElementOrReactCall(o, resolved) then true
        else if resolved.shape.CallExpression? then CallQualifies(o, resolved.shape.callee, fuel - 1)
        else false
  }

  /** Lines 68-115: a call qualifies when its callee's value returns a
      qualifying value, or when the callee is found through a namespace
      object literal. */
  function CallQualifies(o: Env, callee: Node, fuel: nat): bool
    decreases fuel, 4
  {
    var calleeValue := o.resolveToValue(callee);
    ReturnsJSXElementOrReactCall(o, calleeValue, fuel) || NamespaceQualifies(o, calleeValue, fuel)
  }

  /** Lines 76-115: the callee is `root.p1...pk` with `root` resolving to an
      object literal; a failed lookup counts as a match, a found value must
      return a qualifying value. */
  function NamespaceQualifies(o: Env, calleeValue: Node, fuel: nat): bool
    decreases fuel, 3
  {
    var target := NamespaceTarget(o, calleeValue);
    target.resolvedValue.Some? && target.resolvedValue.value.shape.ObjectExpression? &&
    var member := LookupChain(o, target.resolvedValue, target.names);
    member.None? || ReturnsJSXElementOrReactCall(o, member.value, fuel)
  }

  /** The scope whose return statements count for `p` (lines 133-137): a
      property uses the scope of its value. */
  function ScopeOf(p: Node): ScopeId
  {
    if p.shape.Property? then p.shape.value.scope else p.scope
  }

  /** Does the function-like `p` return a qualifying value? An
      expression-bodied arrow is judged by its body; otherwise some return
      statement of the right scope must return one. */
  function ReturnsJSXElementOrReactCall(o: Env, p: Node, fuel: nat): bool
    decreases fuel, 2
  {
    (p.shape.ArrowFunctionExpression? && !p.shape.body.shape.BlockStatement?
     && ResolvesToJSXElementOrReactCall(o, p.shape.body, fuel))
    || SomeReturnQualifies(o, p, ScopeOf(p), fuel)
  }

  /** The visitor of lines 139-151 over the subtree rooted at `n`: a return
      statement of another scope is skipped with its whole subtree; one of
      `scope` qualifies when its argument resolves, and is otherwise
      searched further. A bare `return;` never qualifies. */
  function SomeReturnQualifies(o: Env, n: Node, scope: ScopeId, fuel: nat): bool
    decreases fuel, 1, Size(n)
  {
    ChildSmaller(n);
    match n.shape
    case ReturnStatement(arg) =>
      n.scope == scope && arg.Some? &&
      (ResolvesToJSXElementOrReactCall(o, arg.value, fuel) || SomeReturnQualifies(o, arg.value, scope, fuel))
    case _ =>
      exists c :: c in Children(n.shape) && SomeReturnQualifies(o, c, scope, fuel)
  }

  /** Is the node at `p`, whose parent node is `parent`, a stateless component? */
  function IsStatelessComponent(o: Env, p: Node, parent: Node, fuel: nat): (r: bool)
    ensures !IsCandidateKind(p.shape) ==> !r
    ensures p.shape.Property? && (o.isReactCreateClassCall(parent) || o.isReactComponentClass(parent)) ==> !r
    ensures r ==> ReturnsJSXElementOrReactCall(o, p, fuel)
    ensures IsCandidateKind(p.shape) && !p.shape.Property? && ReturnsJSXElementOrReactCall(o, p, fuel) ==> r
    ensures p.shape.Property? ==>
      (r <==> !o.isReactCreateClassCall(parent) && !o.isReactComponentClass(parent)
              && ReturnsJSXElementOrReactCall(o, p, fuel))
  {
    if TypeName(p.shape) !in ValidPossibleStatelessComponentTypes then false
    else if p.shape.Property? && (o.isReactCreateClassCall(parent) || o.isReactComponentClass(parent)) then false
    else ReturnsJSXElementOrReactCall(o, p, fuel)
  }
}

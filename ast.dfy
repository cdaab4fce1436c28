/** The syntax tree the classifier reads.
    A `Node` stands for a recast NodePath: its `id` is the path's identity,
    its `scope` the id of the lexical scope recast computes for it (a
    function node carries the scope it establishes, and so does the
    `catch` clause of a `try` statement), and its `shape` the
    ESTree node with its children. Only the node types the classifier tests
    are spelled out; every other type is `Other` with its children. */
module Ast {

  datatype Option<T> = None | Some(value: T)

  type NodeId = nat
  type ScopeId = nat

  datatype Node = Node(id: NodeId, scope: ScopeId, shape: Shape)

  datatype Shape =
    | JSXElement(children: seq<Node>)
    | CallExpression(callee: Node, arguments: seq<Node>)
    | ConditionalExpression(test: Node, consequent: Node, alternate: Node)
    | LogicalExpression(left: Node, right: Node)
    | MemberExpression(obj: Node, property: Node)
    | Identifier(name: string)
    | ObjectExpression(properties: seq<Node>)
    | Property(key: Node, value: Node)
    | FunctionDeclaration(params: seq<Node>, body: Node)
    | FunctionExpression(params: seq<Node>, body: Node)
    | ArrowFunctionExpression(params: seq<Node>, body: Node)
    | BlockStatement(statements: seq<Node>)
    | ReturnStatement(argument: Option<Node>)
    | Other(children: seq<Node>)

  /** The ESTree `type` string of a node; `Other` stands for every type
      the classifier never names. */
  function TypeName(s: Shape): string
  {
    match s
    case JSXElement(_) => "JSXElement"
    case CallExpression(_, _) => "CallExpression"
    case ConditionalExpression(_, _, _) => "ConditionalExpression"
    case LogicalExpression(_, _) => "LogicalExpression"
    case MemberExpression(_, _) => "MemberExpression"
    case Identifier(_) => "Identifier"
    case ObjectExpression(_) => "ObjectExpression"
    case Property(_, _) => "Property"
    case FunctionDeclaration(_, _) => "FunctionDeclaration"
    case FunctionExpression(_, _) => "FunctionExpression"
    case ArrowFunctionExpression(_, _) => "ArrowFunctionExpression"
    case BlockStatement(_) => "BlockStatement"
    case ReturnStatement(_) => "ReturnStatement"
    case Other(_) => "Other"
  }

  /** The `name` of a node: only identifiers have one. */
  function NameOf(n: Node): Option<string>
  {
    if n.shape.Identifier? then Some(n.shape.name) else None
  }

  /** The children of a node, in source order, as a depth-first visitor meets them. */
  function Children(s: Shape): seq<Node>
  {
    match s
    case JSXElement(ch) => ch
    case CallExpression(callee, args) => [callee] + args
    case ConditionalExpression(t, c, a) => [t, c, a]
    case LogicalExpression(l, r) => [l, r]
    case MemberExpression(o, p) => [o, p]
    case Identifier(_) => []
    case ObjectExpression(ps) => ps
    case Property(k, v) => [k, v]
    case FunctionDeclaration(ps, b) => ps + [b]
    case FunctionExpression(ps, b) => ps + [b]
    case ArrowFunctionExpression(ps, b) => ps + [b]
    case BlockStatement(ss) => ss
    case ReturnStatement(arg) => if arg.Some? then [arg.value] else []
    case Other(ch) => ch
  }

  /** Number of nodes in the subtree rooted at `n`; the measure that makes
      tree walks terminate. */
  function Size(n: Node): (k: nat)
    ensures k >= 1
  {
    1 + ShapeSize(n.shape)
  }

  function ShapeSize(s: Shape): nat
  {
    match s
    case JSXElement(ch) => SizeAll(ch)
    case CallExpression(callee, args) => Size(callee) + SizeAll(args)
    case ConditionalExpression(t, c, a) => Size(t) + Size(c) + Size(a)
    case LogicalExpression(l, r) => Size(l) + Size(r)
    case MemberExpression(o, p) => Size(o) + Size(p)
    case Identifier(_) => 0
    case ObjectExpression(ps) => SizeAll(ps)
    case Property(k, v) => Size(k) + Size(v)
    case FunctionDeclaration(ps, b) => SizeAll(ps) + Size(b)
    case FunctionExpression(ps, b) => SizeAll(ps) + Size(b)
    case ArrowFunctionExpression(ps, b) => SizeAll(ps) + Size(b)
    case BlockStatement(ss) => SizeAll(ss)
    case ReturnStatement(arg) => if arg.Some? then Size(arg.value) else 0
    case Other(ch) => SizeAll(ch)
  }

  function SizeAll(ns: seq<Node>): nat
  {
    if ns == [] then 0 else Size(ns[0]) + SizeAll(ns[1..])
  }

  lemma {:induction false} SizeAllAppend(a: seq<Node>, b: seq<Node>)
    ensures SizeAll(a + b) == SizeAll(a) + SizeAll(b)
  {
    if a != [] {
      assert (a + b)[1..] == a[1..] + b;
      SizeAllAppend(a[1..], b);
    } else {
      assert a + b == b;
    }
  }

  lemma {:induction false} SizeAllMember(ns: seq<Node>, c: Node)
    requires c in ns
    ensures Size(c) <= SizeAll(ns)
  {
    if ns[0] != c {
      SizeAllMember(ns[1..], c);
    }
  }

  /** The children of a node account for its whole size but the node itself. */
  lemma ChildrenSize(n: Node)
    ensures SizeAll(Children(n.shape)) == Size(n) - 1
  {
    match n.shape
    case CallExpression(callee, args) =>
      SizeAllAppend([callee], args);
    case ConditionalExpression(t, c, a) =>
      assert SizeAll([t, c, a]) == Size(t) + SizeAll([c, a]);
      assert SizeAll([c, a]) == Size(c) + SizeAll([a]);
    case LogicalExpression(l, r) =>
      assert SizeAll([l, r]) == Size(l) + SizeAll([r]);
    case MemberExpression(o, p) =>
      assert SizeAll([o, p]) == Size(o) + SizeAll([p]);
    case Property(k, v) =>
      assert SizeAll([k, v]) == Size(k) + SizeAll([v]);
    case FunctionDeclaration(ps, b) =>
      SizeAllAppend(ps, [b]);
    case FunctionExpression(ps, b) =>
      SizeAllAppend(ps, [b]);
    case ArrowFunctionExpression(ps, b) =>
      SizeAllAppend(ps, [b]);
    case _ =>
  }

  /** Every child is a strictly smaller subtree than its parent. */
  lemma ChildSmaller(n: Node)
    ensures forall c :: c in Children(n.shape) ==> Size(c) < Size(n)
  {
    forall c | c in Children(n.shape)
      ensures Size(c) < Size(n)
    {
      SizeAllMember(Children(n.shape), c);
      ChildrenSize(n);
    }
  }
}

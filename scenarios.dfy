/** Small programs and what the classifier says about them. Each holds for
    every behaviour of the collaborators that meets its `requires`. */
module Scenarios {
  import opened Ast
  import opened Collaborators
  import opened MemberChain
  import opened StatelessComponent

  /** `function name(...) { return arg; }` with the function's own scope. */
  function FunctionReturning(id: NodeId, scope: ScopeId, params: seq<Node>, arg: Node): Node
  {
    Node(id, scope, FunctionDeclaration(params,
      Node(id + 1, scope, BlockStatement([Node(id + 2, scope, ReturnStatement(Some(arg)))]))))
  }

  /** A function whose only statement is `return arg;` qualifies exactly
      when `arg` resolves. */
  lemma {:induction false} SingleReturnScan(o: Env, id: NodeId, scope: ScopeId, arg: Node, fuel: nat)
    ensures var f := FunctionReturning(id, scope, [], arg);
      ReturnsJSXElementOrReactCall(o, f, fuel)
      <==> ResolvesToJSXElementOrReactCall(o, arg, fuel) || SomeReturnQualifies(o, arg, scope, fuel)
  {
    var f := FunctionReturning(id, scope, [], arg);
    var block := f.shape.body;
    var ret := block.shape.statements[0];
    assert Children(f.shape) == [block];
    assert Children(block.shape) == [ret];
    assert SomeReturnQualifies(o, block, scope, fuel) <==> SomeReturnQualifies(o, ret, scope, fuel);
    assert SomeReturnQualifies(o, f, scope, fuel) <==> SomeReturnQualifies(o, block, scope, fuel);
  }

  /** `() => <div/>` is a component. */
  lemma ExpressionArrowReturningElement(o: Env, id: NodeId, scope: ScopeId, params: seq<Node>,
                                        children: seq<Node>, parent: Node, fuel: nat)
    requires fuel >= 1
    ensures IsStatelessComponent(o,
      Node(id, scope, ArrowFunctionExpression(params, Node(id + 1, scope, JSXElement(children)))), parent, fuel)
  {
  }

  /** `function f() { return React.createElement(...); }` is a component. */
  lemma CreateElementReturnIsComponent(o: Env, id: NodeId, scope: ScopeId, call: Node, parent: Node, fuel: nat)
    requires fuel >= 1
    requires call.shape.CallExpression? && o.isReactCreateElementCall(call)
    ensures IsStatelessComponent(o, FunctionReturning(id, scope, [], call), parent, fuel)
  {
    SingleReturnScan(o, id, scope, call, fuel);
  }

  /** `function f() { return 42; }` is not a component, with any fuel. */
  lemma LiteralReturnIsNotComponent(o: Env, id: NodeId, scope: ScopeId, literal: Node, parent: Node, fuel: nat)
    requires literal.shape == Other([])
    requires o.resolveToValue(literal) == literal
    ensures !IsStatelessComponent(o, FunctionReturning(id, scope, [], literal), parent, fuel)
  {
    SingleReturnScan(o, id, scope, literal, fuel);
    assert Children(literal.shape) == [];
  }

  /** `function f() { return cond ? <div/> : null; }` is a component. */
  lemma ConditionalReturnIsComponent(o: Env, id: NodeId, scope: ScopeId, cond: Node, test: Node,
                                     element: Node, alternate: Node, parent: Node, fuel: nat)
    requires fuel >= 2
    requires cond.shape == ConditionalExpression(test, element, alternate)
    requires element.shape.JSXElement?
    requires o.resolveToValue(cond) == cond
    ensures IsStatelessComponent(o, FunctionReturning(id, scope, [], cond), parent, fuel)
  {
    SingleReturnScan(o, id, scope, cond, fuel);
  }

  /** `function outer() { function inner() { return <div/>; } }`: the
      return belongs to `inner`'s scope, so `outer` is not a component,
      whatever the collaborators say. */
  lemma NestedFunctionReturnIgnored(o: Env, outerScope: ScopeId, innerScope: ScopeId, parent: Node, fuel: nat)
    requires outerScope != innerScope
    ensures var element := Node(5, innerScope, JSXElement([]));
      var inner := FunctionReturning(2, innerScope, [], element);
      var outer := Node(0, outerScope, FunctionDeclaration([], Node(1, outerScope, BlockStatement([inner]))));
      !IsStatelessComponent(o, outer, parent, fuel)
  {
    var element := Node(5, innerScope, JSXElement([]));
    var inner := FunctionReturning(2, innerScope, [], element);
    var innerBlock := inner.shape.body;
    var ret := innerBlock.shape.statements[0];
    var outerBlock := Node(1, outerScope, BlockStatement([inner]));
    var outer := Node(0, outerScope, FunctionDeclaration([], outerBlock));
    assert !SomeReturnQualifies(o, ret, outerScope, fuel);
    assert Children(innerBlock.shape) == [ret];
    assert !SomeReturnQualifies(o, innerBlock, outerScope, fuel);
    assert Children(inner.shape) == [innerBlock];
    assert !SomeReturnQualifies(o, inner, outerScope, fuel);
    assert Children(outerBlock.shape) == [inner];
    assert !SomeReturnQualifies(o, outerBlock, outerScope, fuel);
    assert Children(outer.shape) == [outerBlock];
    assert !SomeReturnQualifies(o, outer, outerScope, fuel);
  }

  /** A calls B, B calls C, C returns `<div/>`: A is a component once the
      budget covers the three levels. */
  lemma TwoLevelIndirection(o: Env, parent: Node, fuel: nat)
    requires fuel >= 3
    requires var element := Node(33, 3, JSXElement([]));
      var fnC := FunctionReturning(30, 3, [], element);
      var calleeC := Node(24, 2, Identifier("C"));
      var callC := Node(23, 2, CallExpression(calleeC, []));
      var fnB := FunctionReturning(20, 2, [], callC);
      var calleeB := Node(14, 1, Identifier("B"));
      var callB := Node(13, 1, CallExpression(calleeB, []));
      o.resolveToValue(callB) == callB && o.resolveToValue(calleeB) == fnB
      && o.resolveToValue(callC) == callC && o.resolveToValue(calleeC) == fnC
    ensures var callB := Node(13, 1, CallExpression(Node(14, 1, Identifier("B")), []));
      IsStatelessComponent(o, FunctionReturning(10, 1, [], callB), parent, fuel)
  {
    var element := Node(33, 3, JSXElement([]));
    var fnC := FunctionReturning(30, 3, [], element);
    var calleeC := Node(24, 2, Identifier("C"));
    var callC := Node(23, 2, CallExpression(calleeC, []));
    var fnB := FunctionReturning(20, 2, [], callC);
    var calleeB := Node(14, 1, Identifier("B"));
    var callB := Node(13, 1, CallExpression(calleeB, []));
    SingleReturnScan(o, 30, 3, element, fuel - 2);
    assert ReturnsJSXElementOrReactCall(o, fnC, fuel - 2);
    assert ResolvesToJSXElementOrReactCall(o, callC, fuel - 1);
    SingleReturnScan(o, 20, 2, callC, fuel - 1);
    assert ReturnsJSXElementOrReactCall(o, fnB, fuel - 1);
    assert ResolvesToJSXElementOrReactCall(o, callB, fuel);
    SingleReturnScan(o, 10, 1, callB, fuel);
  }

  /** `function f() { return f(); }` makes the source recurse until the
      call stack overflows and a `RangeError` escapes; the model answers
      false with every budget. */
  lemma {:induction false} SelfRecursionNeverQualifies(o: Env, scope: ScopeId, parent: Node, fuel: nat)
    requires var callee := Node(4, scope, Identifier("f"));
      var call := Node(3, scope, CallExpression(callee, []));
      !IsJSXElementOrReactCall(o, call)
      && o.resolveToValue(call) == call
      && o.resolveToValue(callee) == FunctionReturning(0, scope, [], call)
    ensures var call := Node(3, scope, CallExpression(Node(4, scope, Identifier("f")), []));
      !ResolvesToJSXElementOrReactCall(o, call, fuel)
      && !IsStatelessComponent(o, FunctionReturning(0, scope, [], call), parent, fuel)
  {
    var callee := Node(4, scope, Identifier("f"));
    var call := Node(3, scope, CallExpression(callee, []));
    var f := FunctionReturning(0, scope, [], call);
    if fuel > 0 {
      SelfRecursionNeverQualifies(o, scope, parent, fuel - 1);
    }
    assert Children(callee.shape) == [];
    assert !SomeReturnQualifies(o, callee, scope, fuel);
    assert Children(call.shape) == [callee];
    assert !SomeReturnQualifies(o, call, scope, fuel);
    SingleReturnScan(o, 0, scope, call, fuel);
    if fuel > 0 {
      assert !SomeReturnQualifies(o, call, scope, fuel - 1);
      SingleReturnScan(o, 0, scope, call, fuel - 1);
      assert !ReturnsJSXElementOrReactCall(o, f, fuel - 1);
      assert !NamespaceQualifies(o, f, fuel - 1);
      assert !CallQualifies(o, callee, fuel - 1);
    }
  }

  /** `function g() { if (c) return <div/>; return g(); }`: the first
      return qualifies, so the model calls `g` a component with every
      budget. The source sets `visited` on that return too, but its walk
      goes on to the second return and recurses through `g` until the
      call stack overflows and a `RangeError` escapes. */
  lemma FirstQualifyingReturnDecides(o: Env, scope: ScopeId, parent: Node, fuel: nat)
    requires fuel >= 1
    requires var callee := Node(6, scope, Identifier("g"));
      var call := Node(5, scope, CallExpression(callee, []));
      var first := Node(2, scope, ReturnStatement(Some(Node(3, scope, JSXElement([])))));
      var second := Node(4, scope, ReturnStatement(Some(call)));
      o.resolveToValue(callee) == Node(0, scope, FunctionDeclaration([], Node(1, scope, BlockStatement([first, second]))))
    ensures var call := Node(5, scope, CallExpression(Node(6, scope, Identifier("g")), []));
      var first := Node(2, scope, ReturnStatement(Some(Node(3, scope, JSXElement([])))));
      var second := Node(4, scope, ReturnStatement(Some(call)));
      IsStatelessComponent(o, Node(0, scope, FunctionDeclaration([], Node(1, scope, BlockStatement([first, second])))),
                           parent, fuel)
  {
    var element := Node(3, scope, JSXElement([]));
    var call := Node(5, scope, CallExpression(Node(6, scope, Identifier("g")), []));
    var first := Node(2, scope, ReturnStatement(Some(element)));
    var second := Node(4, scope, ReturnStatement(Some(call)));
    var block := Node(1, scope, BlockStatement([first, second]));
    var g := Node(0, scope, FunctionDeclaration([], block));
    assert SomeReturnQualifies(o, first, scope, fuel);
    assert Children(block.shape) == [first, second];
    assert SomeReturnQualifies(o, block, scope, fuel);
    assert Children(g.shape) == [block];
    assert SomeReturnQualifies(o, g, scope, fuel);
  }

  /** `function f() { try { } catch (e) { return <div/>; } }`: the catch
      clause establishes a scope of its own, so its return is not one of
      `f`'s and `f` is not a component, whatever the collaborators say. */
  lemma CatchClauseReturnIgnored(o: Env, fnScope: ScopeId, catchScope: ScopeId, parent: Node, fuel: nat)
    requires fnScope != catchScope
    ensures var ret := Node(4, catchScope, ReturnStatement(Some(Node(5, catchScope, JSXElement([])))));
      var handler := Node(2, catchScope, Other([Node(3, catchScope, BlockStatement([ret]))]));
      var f := Node(0, fnScope, FunctionDeclaration([], Node(1, fnScope, BlockStatement([handler]))));
      !IsStatelessComponent(o, f, parent, fuel)
  {
    var ret := Node(4, catchScope, ReturnStatement(Some(Node(5, catchScope, JSXElement([])))));
    var handlerBody := Node(3, catchScope, BlockStatement([ret]));
    var handler := Node(2, catchScope, Other([handlerBody]));
    var block := Node(1, fnScope, BlockStatement([handler]));
    var f := Node(0, fnScope, FunctionDeclaration([], block));
    assert !SomeReturnQualifies(o, ret, fnScope, fuel);
    assert Children(handlerBody.shape) == [ret];
    assert !SomeReturnQualifies(o, handlerBody, fnScope, fuel);
    assert Children(handler.shape) == [handlerBody];
    assert !SomeReturnQualifies(o, handler, fnScope, fuel);
    assert Children(block.shape) == [handler];
    assert !SomeReturnQualifies(o, block, fnScope, fuel);
    assert Children(f.shape) == [block];
    assert !SomeReturnQualifies(o, f, fnScope, fuel);
  }

  /** `{ render: () => <div/> }`: the arrow fast path only looks at arrow
      nodes, and the property's arrow value has no return statement, so
      the property is not a component (lines 125-153). */
  lemma ExpressionArrowPropertyIsNotComponent(o: Env, id: NodeId, outerScope: ScopeId, arrowScope: ScopeId,
                                              parent: Node, fuel: nat)
    ensures var arrow := Node(id + 2, arrowScope,
        ArrowFunctionExpression([], Node(id + 3, arrowScope, JSXElement([]))));
      !IsStatelessComponent(o, Node(id, outerScope, Property(Node(id + 1, outerScope, Identifier("render")), arrow)),
                            parent, fuel)
  {
    var body := Node(id + 3, arrowScope, JSXElement([]));
    var arrow := Node(id + 2, arrowScope, ArrowFunctionExpression([], body));
    var key := Node(id + 1, outerScope, Identifier("render"));
    var prop := Node(id, outerScope, Property(key, arrow));
    assert Children(body.shape) == [];
    assert !SomeReturnQualifies(o, body, arrowScope, fuel);
    assert Children(arrow.shape) == [body];
    assert !SomeReturnQualifies(o, arrow, arrowScope, fuel);
    assert Children(key.shape) == [];
    assert !SomeReturnQualifies(o, key, arrowScope, fuel);
    assert Children(prop.shape) == [key, arrow];
    assert !SomeReturnQualifies(o, prop, arrowScope, fuel);
  }

  /** `{ render() { return <div/>; } }` outside any class factory: the
      return belongs to the method's own scope, which is the scope the scan
      uses for a property, so the property is a component. */
  lemma PropertyMethodIsComponent(o: Env, outerScope: ScopeId, methodScope: ScopeId, parent: Node, fuel: nat)
    requires fuel >= 1
    requires !o.isReactCreateClassCall(parent) && !o.isReactComponentClass(parent)
    ensures var renderFn := FunctionReturning(12, methodScope, [], Node(15, methodScope, JSXElement([])));
      IsStatelessComponent(o, Node(10, outerScope, Property(Node(11, outerScope, Identifier("render")), renderFn)),
                           parent, fuel)
  {
    var element := Node(15, methodScope, JSXElement([]));
    var renderFn := FunctionReturning(12, methodScope, [], element);
    var key := Node(11, outerScope, Identifier("render"));
    var prop := Node(10, outerScope, Property(key, renderFn));
    SingleReturnScan(o, 12, methodScope, element, fuel);
    assert SomeReturnQualifies(o, renderFn, methodScope, fuel);
    assert Children(prop.shape) == [key, renderFn];
    assert SomeReturnQualifies(o, prop, methodScope, fuel);
  }

  /** `ns.Item()` with `ns` an object literal that has no `Item` entry:
      the failed lookup counts as a match (lines 109-113). */
  lemma MissingNamespaceEntryCounts(o: Env, obj: Node, fuel: nat)
    requires fuel >= 1
    requires obj.shape.ObjectExpression?
    requires var ns := Node(2, 0, Identifier("ns"));
      var callee := Node(1, 0, MemberExpression(ns, Node(3, 0, Identifier("Item"))));
      var call := Node(0, 0, CallExpression(callee, []));
      o.resolveToValue(call) == call && o.resolveToValue(callee) == callee && o.resolveToValue(ns) == obj
      && o.getPropertyValuePath(obj, Some("Item")) == None
    ensures var callee := Node(1, 0, MemberExpression(Node(2, 0, Identifier("ns")), Node(3, 0, Identifier("Item"))));
      ResolvesToJSXElementOrReactCall(o, Node(0, 0, CallExpression(callee, [])), fuel)
  {
    var ns := Node(2, 0, Identifier("ns"));
    var callee := Node(1, 0, MemberExpression(ns, Node(3, 0, Identifier("Item"))));
    assert NamespaceQualifies(o, callee, fuel - 1);
  }

  /** `ns.a.b()` with `ns` an object literal: the names looked up are
      "ns", "a", "b" in that order (the root's own name first, read through
      the empty `property` path of the root), so an object literal without
      an entry named "ns" makes the call count as a match whatever `a.b` is. */
  lemma NestedNamespaceLooksUpRootNameFirst(o: Env, obj: Node, fuel: nat)
    requires fuel >= 1
    requires obj.shape.ObjectExpression?
    requires var ns := Node(3, 0, Identifier("ns"));
      var inner := Node(2, 0, MemberExpression(ns, Node(4, 0, Identifier("a"))));
      var callee := Node(1, 0, MemberExpression(inner, Node(5, 0, Identifier("b"))));
      var call := Node(0, 0, CallExpression(callee, []));
      o.resolveToValue(call) == call && o.resolveToValue(callee) == callee && o.resolveToValue(ns) == obj
      && o.getPropertyValuePath(obj, Some("ns")) == None
    ensures var ns := Node(3, 0, Identifier("ns"));
      var inner := Node(2, 0, MemberExpression(ns, Node(4, 0, Identifier("a"))));
      var callee := Node(1, 0, MemberExpression(inner, Node(5, 0, Identifier("b"))));
      NamespaceTarget(o, callee) == Target([Some("ns"), Some("a"), Some("b")], Some(obj))
      && ResolvesToJSXElementOrReactCall(o, Node(0, 0, CallExpression(callee, [])), fuel)
  {
    var ns := Node(3, 0, Identifier("ns"));
    var inner := Node(2, 0, MemberExpression(ns, Node(4, 0, Identifier("a"))));
    var callee := Node(1, 0, MemberExpression(inner, Node(5, 0, Identifier("b"))));
    NamespaceTargetShape(o, callee);
    assert PropertyNames(callee) == [Some("a"), Some("b")];
    LookupChainFromAbsent(o, [Some("a"), Some("b")]);
    assert LookupChain(o, Some(obj), [Some("ns"), Some("a"), Some("b")]) == None;
    assert NamespaceQualifies(o, callee, fuel - 1);
  }
}

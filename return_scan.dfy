/** The return-statement scan of `returnsJSXElementOrReactCall`
    (isStatelessComponent.js, lines 121-154): the visitor that sets a
    `visited` flag, and the set of return statements it may consult. */
module ReturnScan {
  import opened Ast
  import opened Collaborators
  import opened StatelessComponent

  /** The return statements of scope `scope` that the walk may consult from
      `n`: it descends through every node except a return statement of
      another scope, whose subtree it skips. The set also holds returns
      nested inside a return whose argument already resolved, which the
      walk prunes; the set over-approximates what the walk visits, and
      only its qualifying members matter. */
  ghost function ReachedReturns(n: Node, scope: ScopeId): (rs: set<Node>)
    ensures forall r :: r in rs ==> r.shape.ReturnStatement? && r.scope == scope
    decreases Size(n)
  {
    ChildSmaller(n);
    match n.shape
    case ReturnStatement(arg) =>
      if n.scope != scope then {}
      else {n} + (if arg.Some? then ReachedReturns(arg.value, scope) else {})
    case _ =>
      set c, r | c in Children(n.shape) && r in ReachedReturns(c, scope) :: r
  }

  /** A return statement whose argument can be a JSX element or a React call. */
  predicate ArgumentResolves(o: Env, r: Node, fuel: nat)
  {
    r.shape.ReturnStatement? && r.shape.argument.Some?
    && ResolvesToJSXElementOrReactCall(o, r.shape.argument.value, fuel)
  }

  /** Some node of `ns` holds a qualifying return statement. */
  predicate AnyQualifies(o: Env, ns: seq<Node>, scope: ScopeId, fuel: nat)
  {
    exists n :: n in ns && SomeReturnQualifies(o, n, scope, fuel)
  }

  lemma AnyQualifiesAppend(o: Env, a: seq<Node>, b: seq<Node>, scope: ScopeId, fuel: nat)
    ensures AnyQualifies(o, a + b, scope, fuel) <==> AnyQualifies(o, a, scope, fuel) || AnyQualifies(o, b, scope, fuel)
  {
    if AnyQualifies(o, a + b, scope, fuel) {
      var n :| n in a + b && SomeReturnQualifies(o, n, scope, fuel);
      assert n in a || n in b;
    }
  }

  lemma AnyQualifiesSingleton(o: Env, n: Node, scope: ScopeId, fuel: nat)
    ensures AnyQualifies(o, [n], scope, fuel) <==> SomeReturnQualifies(o, n, scope, fuel)
  {
    if SomeReturnQualifies(o, n, scope, fuel) {
      assert n in [n];
    }
  }

  /** Away from a return statement the scan is the scan of the children. */
  lemma ScanInner(o: Env, n: Node, scope: ScopeId, fuel: nat)
    requires !n.shape.ReturnStatement?
    ensures SomeReturnQualifies(o, n, scope, fuel) <==> AnyQualifies(o, Children(n.shape), scope, fuel)
  {
  }

  lemma ReachedInner(n: Node, scope: ScopeId, r: Node)
    requires !n.shape.ReturnStatement?
    ensures r in ReachedReturns(n, scope) <==> exists c :: c in Children(n.shape) && r in ReachedReturns(c, scope)
  {
  }

  /** The scan succeeds exactly when one of the return statements of the
      scope that it reaches has an argument that resolves. */
  lemma {:induction false} ScanFindsReachedReturn(o: Env, n: Node, scope: ScopeId, fuel: nat)
    ensures SomeReturnQualifies(o, n, scope, fuel)
        <==> exists r :: r in ReachedReturns(n, scope) && ArgumentResolves(o, r, fuel)
    decreases Size(n)
  {
    ChildSmaller(n);
    if n.shape.ReturnStatement? {
      var arg := n.shape.argument;
      if n.scope == scope && arg.Some? {
        ScanFindsReachedReturn(o, arg.value, scope, fuel);
        assert n in ReachedReturns(n, scope);
      }
    } else {
      ScanInner(o, n, scope, fuel);
      if SomeReturnQualifies(o, n, scope, fuel) {
        var c :| c in Children(n.shape) && SomeReturnQualifies(o, c, scope, fuel);
        ScanFindsReachedReturn(o, c, scope, fuel);
        var r :| r in ReachedReturns(c, scope) && ArgumentResolves(o, r, fuel);
        ReachedInner(n, scope, r);
      }
      if exists r :: r in ReachedReturns(n, scope) && ArgumentResolves(o, r, fuel) {
        var r :| r in ReachedReturns(n, scope) && ArgumentResolves(o, r, fuel);
        ReachedInner(n, scope, r);
        var c :| c in Children(n.shape) && r in ReachedReturns(c, scope);
        ScanFindsReachedReturn(o, c, scope, fuel);
      }
    }
  }

  /** `returnsJSXElementOrReactCall` is the arrow fast path, or a reached
      return statement of the function's scope (its value's scope for a
      property) whose argument resolves. */
  lemma ReturnsIffQualifyingReturn(o: Env, p: Node, fuel: nat)
    ensures ReturnsJSXElementOrReactCall(o, p, fuel)
        <==> (p.shape.ArrowFunctionExpression? && !p.shape.body.shape.BlockStatement?
              && ResolvesToJSXElementOrReactCall(o, p.shape.body, fuel))
             || exists r :: r in ReachedReturns(p, ScopeOf(p)) && ArgumentResolves(o, r, fuel)
  {
    ScanFindsReachedReturn(o, p, ScopeOf(p), fuel);
  }

  /** Lines 121-154 as the source runs them: the arrow fast path, then a
      depth-first walk that sets `visited` when a return statement of the
      scope has a resolving argument. */
  method VisitReturnStatements(o: Env, path: Node, fuel: nat) returns (visited: bool)
    ensures visited == ReturnsJSXElementOrReactCall(o, path, fuel)
  {
    visited := false;
    if path.shape.ArrowFunctionExpression? && !path.shape.body.shape.BlockStatement?
       && ResolvesToJSXElementOrReactCall(o, path.shape.body, fuel) {
      return true;
    }
    var scope := path.scope;
    if path.shape.Property? {
      scope := path.shape.value.scope;
    }
    var stack := [path];
    while stack != []
      invariant SomeReturnQualifies(o, path, scope, fuel)
        <==> visited || AnyQualifies(o, stack, scope, fuel)
      decreases SizeAll(stack)
    {
      var n := stack[0];
      ChildSmaller(n);
      ChildrenSize(n);
      SizeAllAppend(Children(n.shape), stack[1..]);
      assert stack == [n] + stack[1..];
      AnyQualifiesAppend(o, [n], stack[1..], scope, fuel);
      AnyQualifiesSingleton(o, n, scope, fuel);
      AnyQualifiesAppend(o, Children(n.shape), stack[1..], scope, fuel);
      match n.shape {
        case ReturnStatement(arg) =>
          if n.scope != scope {
            // a return of another function: skip it and its subtree
            stack := stack[1..];
          } else if arg.Some? && ResolvesToJSXElementOrReactCall(o, arg.value, fuel) {
            visited := true;
            stack := stack[1..];
          } else {
            // this.traverse(returnPath)
            if arg.Some? {
              AnyQualifiesSingleton(o, arg.value, scope, fuel);
            }
            stack := Children(n.shape) + stack[1..];
          }
        case _ =>
          ScanInner(o, n, scope, fuel);
          stack := Children(n.shape) + stack[1..];
      }
    }
  }
}

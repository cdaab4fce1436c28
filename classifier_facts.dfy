/** What `resolvesToJSXElementOrReactCall` decides, case by case
    (isStatelessComponent.js, lines 39-119), and how the fuel budget
    behaves. */
module ClassifierFacts {
  import opened Ast
  import opened Collaborators
  import opened MemberChain
  import opened StatelessComponent

  /** Lines 41-43 and 63-65: a recognised node qualifies, and so does a
      recognised value that the resolver found for a different node. */
  lemma RecognisedValueResolves(o: Env, p: Node, fuel: nat)
    requires fuel > 0
    ensures IsJSXElementOrReactCall(o, p) ==> ResolvesToJSXElementOrReactCall(o, p, fuel)
    ensures var v := o.resolveToValue(p);
      v.id != p.id && IsJSXElementOrReactCall(o, v) ==> ResolvesToJSXElementOrReactCall(o, p, fuel)
  {
  }

  /** Lines 49-59: an unrecognised node whose value is `c ? a : b` or
      `l && r` / `l || r` qualifies exactly when one of the two outcomes does. */
  lemma BranchesResolve(o: Env, p: Node, fuel: nat)
    requires fuel > 0 && !IsJSXElementOrReactCall(o, p)
    ensures var v := o.resolveToValue(p);
      v.shape.ConditionalExpression? ==>
        (ResolvesToJSXElementOrReactCall(o, p, fuel)
         <==> ResolvesToJSXElementOrReactCall(o, v.shape.consequent, fuel - 1)
              || ResolvesToJSXElementOrReactCall(o, v.shape.alternate, fuel - 1))
    ensures var v := o.resolveToValue(p);
      v.shape.LogicalExpression? ==>
        (ResolvesToJSXElementOrReactCall(o, p, fuel)
         <==> ResolvesToJSXElementOrReactCall(o, v.shape.left, fuel - 1)
              || ResolvesToJSXElementOrReactCall(o, v.shape.right, fuel - 1))
  {
  }

  /** Lines 68-115: a node whose value is a call qualifies when the
      callee's value returns a qualifying value, when the callee is found
      in a namespace object literal and returns one, and when the lookup
      in that object literal fails. */
  lemma CallResolves(o: Env, p: Node, fuel: nat)
    requires fuel > 0 && o.resolveToValue(p).shape.CallExpression?
    ensures var calleeValue := o.resolveToValue(o.resolveToValue(p).shape.callee);
      ReturnsJSXElementOrReactCall(o, calleeValue, fuel - 1) ==> ResolvesToJSXElementOrReactCall(o, p, fuel)
    ensures var calleeValue := o.resolveToValue(o.resolveToValue(p).shape.callee);
      var target := NamespaceTarget(o, calleeValue);
      target.resolvedValue.Some? && target.resolvedValue.value.shape.ObjectExpression?
      && LookupChain(o, target.resolvedValue, target.names).None?
      ==> ResolvesToJSXElementOrReactCall(o, p, fuel)
    ensures var calleeValue := o.resolveToValue(o.resolveToValue(p).shape.callee);
      var target := NamespaceTarget(o, calleeValue);
      var member := LookupChain(o, target.resolvedValue, target.names);
      target.resolvedValue.Some? && target.resolvedValue.value.shape.ObjectExpression?
      && member.Some? && ReturnsJSXElementOrReactCall(o, member.value, fuel - 1)
      ==> ResolvesToJSXElementOrReactCall(o, p, fuel)
  {
  }

  /** The converse: a node qualifies only through one of the cases above;
      any other value (line 118), and an empty budget, answer false. */
  lemma ResolvesOnlyByCases(o: Env, p: Node, fuel: nat)
    ensures var v := o.resolveToValue(p);
      ResolvesToJSXElementOrReactCall(o, p, fuel) ==>
        fuel > 0 &&
        (IsJSXElementOrReactCall(o, p)
         || (v.shape.ConditionalExpression?
             && (ResolvesToJSXElementOrReactCall(o, v.shape.consequent, fuel - 1)
                 || ResolvesToJSXElementOrReactCall(o, v.shape.alternate, fuel - 1)))
         || (v.shape.LogicalExpression?
             && (ResolvesToJSXElementOrReactCall(o, v.shape.left, fuel - 1)
                 || ResolvesToJSXElementOrReactCall(o, v.shape.right, fuel - 1)))
         || (v.id != p.id && IsJSXElementOrReactCall(o, v))
         || (v.shape.CallExpression?
             && (ReturnsJSXElementOrReactCall(o, o.resolveToValue(v.shape.callee), fuel - 1)
                 || NamespaceQualifies(o, o.resolveToValue(v.shape.callee), fuel - 1))))
  {
    var v := o.resolveToValue(p);
    if fuel > 0 && v.shape.CallExpression? {
      assert CallQualifies(o, v.shape.callee, fuel - 1)
          == (ReturnsJSXElementOrReactCall(o, o.resolveToValue(v.shape.callee), fuel - 1)
              || NamespaceQualifies(o, o.resolveToValue(v.shape.callee), fuel - 1));
    }
  }

  // More fuel never turns a positive answer negative: an answer found
  // within a budget is the answer for every larger budget.

  lemma {:induction false} ResolvesMonotone(o: Env, p: Node, f: nat, g: nat)
    requires f <= g
    ensures ResolvesToJSXElementOrReactCall(o, p, f) ==> ResolvesToJSXElementOrReactCall(o, p, g)
    decreases f, 0
  {
    if f > 0 && !IsJSXElementOrReactCall(o, p) {
      var v := o.resolveToValue(p);
      if v.shape.ConditionalExpression? {
        ResolvesMonotone(o, v.shape.consequent, f - 1, g - 1);
        ResolvesMonotone(o, v.shape.alternate, f - 1, g - 1);
      } else if v.shape.LogicalExpression? {
        ResolvesMonotone(o, v.shape.left, f - 1, g - 1);
        ResolvesMonotone(o, v.shape.right, f - 1, g - 1);
      } else if v.shape.CallExpression? {
        CallMonotone(o, v.shape.callee, f - 1, g - 1);
      }
    }
  }

  lemma {:induction false} CallMonotone(o: Env, callee: Node, f: nat, g: nat)
    requires f <= g
    ensures CallQualifies(o, callee, f) ==> CallQualifies(o, callee, g)
    decreases f, 4
  {
    var calleeValue := o.resolveToValue(callee);
    ReturnsMonotone(o, calleeValue, f, g);
    NamespaceMonotone(o, calleeValue, f, g);
  }

  lemma {:induction false} NamespaceMonotone(o: Env, calleeValue: Node, f: nat, g: nat)
    requires f <= g
    ensures NamespaceQualifies(o, calleeValue, f) ==> NamespaceQualifies(o, calleeValue, g)
    decreases f, 3
  {
    var target := NamespaceTarget(o, calleeValue);
    var member := LookupChain(o, target.resolvedValue, target.names);
    if member.Some? {
      ReturnsMonotone(o, member.value, f, g);
    }
  }

  lemma {:induction false} ReturnsMonotone(o: Env, p: Node, f: nat, g: nat)
    requires f <= g
    ensures ReturnsJSXElementOrReactCall(o, p, f) ==> ReturnsJSXElementOrReactCall(o, p, g)
    decreases f, 2
  {
    if p.shape.ArrowFunctionExpression? {
      ResolvesMonotone(o, p.shape.body, f, g);
    }
    ScanMonotone(o, p, ScopeOf(p), f, g);
  }

  lemma {:induction false} ScanMonotone(o: Env, n: Node, scope: ScopeId, f: nat, g: nat)
    requires f <= g
    ensures SomeReturnQualifies(o, n, scope, f) ==> SomeReturnQualifies(o, n, scope, g)
    decreases f, 1, Size(n)
  {
    ChildSmaller(n);
    if n.shape.ReturnStatement? {
      if n.shape.argument.Some? {
        ResolvesMonotone(o, n.shape.argument.value, f, g);
        ScanMonotone(o, n.shape.argument.value, scope, f, g);
      }
    } else {
      forall c | c in Children(n.shape)
        ensures SomeReturnQualifies(o, c, scope, f) ==> SomeReturnQualifies(o, c, scope, g)
      {
        ScanMonotone(o, c, scope, f, g);
      }
    }
  }

  /** The classifier itself keeps its answer under more fuel. */
  lemma IsStatelessComponentMonotone(o: Env, p: Node, parent: Node, f: nat, g: nat)
    requires f <= g
    ensures IsStatelessComponent(o, p, parent, f) ==> IsStatelessComponent(o, p, parent, g)
  {
    ReturnsMonotone(o, p, f, g);
  }
}

/** Looking up a call's callee `obj.a.b` in an object literal used as a
    namespace (isStatelessComponent.js, lines 76-107).

    recast's `get(field)` always returns a path; on a node that lacks the
    field the path is empty and its `node` is the nearest enclosing node,
    that is, the owner itself. `PropertyName` and `ObjectOf` follow that
    rule, which is why the `!path` guard of the reduce never fires here. */
module MemberChain {
  import opened Ast
  import opened Collaborators

  /** `n.get('property').node.name` */
  function PropertyName(n: Node): Option<string>
  {
    if n.shape.MemberExpression? then NameOf(n.shape.property) else NameOf(n)
  }

  /** `n.get('object')`, as the node it stands for */
  function ObjectOf(n: Node): Node
  {
    if n.shape.MemberExpression? then n.shape.obj else n
  }

  /** The loop of lines 84-87, from a member expression on: step to the
      object and put its property name in front, while the object is
      itself a member expression. */
  function Unwind(cv: Node, names: seq<Option<string>>): (Node, seq<Option<string>>)
    decreases cv
  {
    if cv.shape.MemberExpression? then
      var next := cv.shape.obj;
      Unwind(next, [PropertyName(next)] + names)
    else
      (cv, names)
  }

  /** `namesToResolve` and `resolvedValue` once lines 78-91 have run. */
  datatype Target = Target(names: seq<Option<string>>, resolvedValue: Option<Node>)

  function NamespaceTarget(o: Env, calleeValue: Node): Target
  {
    var names := [PropertyName(calleeValue)];
    if !calleeValue.shape.MemberExpression? then
      Target(names, None)
    else if calleeValue.shape.obj.shape.Identifier? then
      Target(names, Some(o.resolveToValue(calleeValue.shape.obj)))
    else
      var (root, all) := Unwind(calleeValue, names);
      Target(all, Some(o.resolveToValue(ObjectOf(root))))
  }

  /** One step of the reduce of lines 94-107. */
  function LookupStep(o: Env, acc: Option<Node>, name: Option<string>): Option<Node>
  {
    match acc
    case None => None
    case Some(obj) =>
      match o.getPropertyValuePath(obj, name)
      case None => None
      case Some(v) => if v.shape.Identifier? then Some(o.resolveToValue(v)) else Some(v)
  }

  /** The whole reduce: look the names up one after the other. */
  function LookupChain(o: Env, acc: Option<Node>, names: seq<Option<string>>): Option<Node>
    decreases names
  {
    if names == [] then acc else LookupChain(o, LookupStep(o, acc, names[0]), names[1..])
  }

  // Reference definitions: the chain `root.p1.p2...pk` read from the root outward.

  /** The innermost object of a chain of member expressions. */
  function MemberRoot(n: Node): (r: Node)
    ensures !r.shape.MemberExpression?
  {
    if n.shape.MemberExpression? then MemberRoot(n.shape.obj) else n
  }

  /** The property names of a chain of member expressions, root first. */
  function PropertyNames(n: Node): (ns: seq<Option<string>>)
    ensures n.shape.MemberExpression? <==> ns != []
  {
    if n.shape.MemberExpression? then PropertyNames(n.shape.obj) + [NameOf(n.shape.property)] else []
  }

  /** Unwinding reaches the root of the chain; the names it puts in front
      are the root's own name (read through the empty `property` path of the
      root) followed by the properties below `cv`. */
  lemma {:induction false} UnwindCollects(cv: Node, names: seq<Option<string>>)
    ensures Unwind(cv, names).0 == MemberRoot(cv)
    ensures cv.shape.MemberExpression? ==>
      Unwind(cv, names).1 == [NameOf(MemberRoot(cv))] + PropertyNames(cv.shape.obj) + names
    ensures !cv.shape.MemberExpression? ==> Unwind(cv, names).1 == names
  {
    if cv.shape.MemberExpression? {
      var next := cv.shape.obj;
      UnwindCollects(next, [PropertyName(next)] + names);
      if next.shape.MemberExpression? {
        assert [NameOf(MemberRoot(next))] + PropertyNames(next.shape.obj) + ([PropertyName(next)] + names)
            == [NameOf(MemberRoot(cv))] + PropertyNames(next) + names;
      }
    }
  }

  /** What lines 78-91 compute: a callee that is not a member expression has
      no namespace; `obj.p()` resolves `obj` and looks up `p`; a longer chain
      `root.p1...pk()` resolves `root` and looks up the root's own name
      before `p1`...`pk`. */
  lemma NamespaceTargetShape(o: Env, calleeValue: Node)
    ensures !calleeValue.shape.MemberExpression? ==> NamespaceTarget(o, calleeValue).resolvedValue == None
    ensures calleeValue.shape.MemberExpression? ==>
      NamespaceTarget(o, calleeValue).resolvedValue == Some(o.resolveToValue(MemberRoot(calleeValue)))
    ensures calleeValue.shape.MemberExpression? && calleeValue.shape.obj.shape.Identifier? ==>
      NamespaceTarget(o, calleeValue).names == PropertyNames(calleeValue)
    ensures calleeValue.shape.MemberExpression? && !calleeValue.shape.obj.shape.Identifier? ==>
      NamespaceTarget(o, calleeValue).names == [NameOf(MemberRoot(calleeValue))] + PropertyNames(calleeValue)
  {
    if calleeValue.shape.MemberExpression? && !calleeValue.shape.obj.shape.Identifier? {
      UnwindCollects(calleeValue, [PropertyName(calleeValue)]);
    }
  }

  /** Once a lookup has failed the reduce carries the failure to the end. */
  lemma {:induction false} LookupChainFromAbsent(o: Env, names: seq<Option<string>>)
    ensures LookupChain(o, None, names) == None
  {
    if names != [] {
      LookupChainFromAbsent(o, names[1..]);
    }
  }

  /** Looking up `a + b` is looking up `a`, then `b` from where `a` ended. */
  lemma {:induction false} LookupChainAppend(o: Env, acc: Option<Node>, a: seq<Option<string>>, b: seq<Option<string>>)
    ensures LookupChain(o, acc, a + b) == LookupChain(o, LookupChain(o, acc, a), b)
    decreases a
  {
    if a == [] {
      assert a + b == b;
    } else {
      assert (a + b)[1..] == a[1..] + b;
      LookupChainAppend(o, LookupStep(o, acc, a[0]), a[1..], b);
    }
  }

  /** Lines 78-91: collect the names and resolve the root of the callee. */
  method CollectNamesToResolve(o: Env, calleeValue: Node) returns (names: seq<Option<string>>, resolvedValue: Option<Node>)
    ensures Target(names, resolvedValue) == NamespaceTarget(o, calleeValue)
  {
    var cv := calleeValue;
    names := [PropertyName(cv)];
    resolvedValue := None;
    if cv.shape.MemberExpression? {
      if cv.shape.obj.shape.Identifier? {
        resolvedValue := Some(o.resolveToValue(cv.shape.obj));
      } else {
        // do { ... } while (cv is a MemberExpression), entered with a member expression
        ghost var names0 := names;
        while cv.shape.MemberExpression?
          invariant Unwind(cv, names) == Unwind(calleeValue, names0)
          decreases cv
        {
          cv := ObjectOf(cv);
          names := [PropertyName(cv)] + names;
        }
        resolvedValue := Some(o.resolveToValue(ObjectOf(cv)));
      }
    }
  }

  /** Lines 94-107: the reduce over the collected names. */
  method ResolveMemberExpression(o: Env, resolvedValue: Node, names: seq<Option<string>>) returns (result: Option<Node>)
    ensures result == LookupChain(o, Some(resolvedValue), names)
  {
    result := Some(resolvedValue);
    var i := 0;
    while i < |names|
      invariant 0 <= i <= |names|
      invariant LookupChain(o, result, names[i..]) == LookupChain(o, Some(resolvedValue), names)
    {
      assert names[i..][1..] == names[i + 1..];
      if result.Some? {
        result := o.getPropertyValuePath(result.value, names[i]);
        if result.Some? && result.value.shape.Identifier? {
          result := Some(o.resolveToValue(result.value));
        }
      }
      i := i + 1;
    }
    assert names[i..] == [];
  }
}

/** The older, v3-only engine (src/index.js): it recognises only the
    variadic convention, under fewer container names, rejects a computed
    callee, and takes every `ReasonReact.X` for a fragment. Names and props
    are resolved as in the current engine. */
module Legacy {
  import opened Syntax
  import opened Seqs
  import opened Markup
  import opened Names
  import opened Props
  import opened Arguments

  /** The names the element-construction module goes by. */
  const Containers: set<string> := {"React", "ReactDOMRe"}
  /** The method names of the variadic convention. */
  const VariadicMethods: set<string> := {"createElement", "createElementVariadic", "createDOMElementVariadic"}

  /** `isReactCreateElement`: a call of `C.m` with `C` a container name and
      `m` a variadic method name, through a non-computed member access. */
  predicate IsReactCreateElement(n: Node) {
    && n.Call?
    && n.callee.Member?
    && IsIdentIn(n.callee.obj, Containers)
    && IsIdentIn(n.callee.prop, VariadicMethods)
    && !n.callee.computed
  }

  /** `isReactFragment`: any member access on the identifier `ReasonReact`,
      whatever the property. */
  predicate IsFragment(n: Option<Node>) {
    n.Some? && n.value.Member? && IsIdentNamed(n.value.obj, "ReasonReact")
  }

  /** `getJSXChild`: a string literal becomes text; a recognised call is
      translated (and the child fails with it); another expression goes into
      braces; anything else fails. */
  function JsxChild(n: Node): (r: Option<Child>)
    ensures SlotComplete(r) || r.None?
    ensures SlotWellFormed(r)
    ensures r.None? <==> !IsExpression(n) || (IsReactCreateElement(n) && JsxNode(n).None?)
    ensures n.StrLit? ==> r == Some(Text(n.value))
    ensures IsReactCreateElement(n) && JsxNode(n).Some? ==> r == Some(Nested(JsxNode(n).value))
    ensures IsExpression(n) && !n.StrLit? && !IsReactCreateElement(n) ==> r == Some(Container(n))
    decreases n, 3
  {
    if n.StrLit? then Some(Text(n.value))
    else if IsReactCreateElement(n) then
      match JsxNode(n)
      case Some(j) => Some(Nested(j))
      case None => None
    else if IsExpression(n) then Some(Container(n))
    else None
  }

  /** `getJSXChildren`: the kept arguments converted in order, or `None` as
      soon as one of them fails. */
  function Children(call: Node): (r: Option<seq<Option<Child>>>)
    requires call.Call?
    ensures r.Some? <==> forall i :: 0 <= i < |KeptChildren(call)| ==> JsxChild(KeptChildren(call)[i]).Some?
    ensures r.Some? ==> |r.value| == |KeptChildren(call)|
    ensures r.Some? ==> forall i :: 0 <= i < |r.value| ==> r.value[i] == JsxChild(KeptChildren(call)[i])
    ensures r.Some? ==> forall i :: 0 <= i < |r.value| ==> SlotComplete(r.value[i]) && SlotWellFormed(r.value[i])
    decreases call, 1
  {
    var kept := KeptChildren(call);
    var children := seq(|kept|, i requires 0 <= i < |kept| =>
                          assert kept[i] in call.arguments; JsxChild(kept[i]));
    assert forall i :: 0 <= i < |kept| ==> children[i] == JsxChild(kept[i]);
    if forall i :: 0 <= i < |children| ==> children[i].Some? then Some(children)
    else None
  }

  /** `getJSXNode`: name first, then the children (so a failing child
      aborts a fragment too), then either a fragment of the children, the
      props ignored, or an element with the props' attributes. Every node
      built here, and every one nested in it as a child, keeps the
      self-closing invariant and has no failed child slot. */
  function JsxNode(n: Node): (r: Option<Jsx>)
    ensures r.Some? ==> IsReactCreateElement(n) && WellFormed(r.value) && Complete(r.value)
    decreases n, 2
  {
    if !IsReactCreateElement(n) then None
    else
      var args := n.arguments;
      var nameNode, propsNode := Arg(args, 0), Arg(args, 1);
      match JsxName(nameNode)
      case None => None
      case Some(name) =>
        var children := if AllEmptyArrays(Trailing(args)) then Some([]) else Children(n);
        match children
        case None => None
        case Some(cs) =>
          if IsFragment(nameNode) then Some(CreateFragment(cs))
          else
            match JsxProps(propsNode)
            case None => None
            case Some(attrs) => Some(CreateElement(name, attrs, cs))
  }
}

/** What the older engine promises, and how it relates to the current one. */
module LegacyFacts {
  import opened Syntax
  import opened Seqs
  import opened Markup
  import opened Names
  import opened Props
  import opened Legacy
  import opened Arguments
  import Engine

  /** The result is `None` exactly when the call is not recognised, the name
      does not resolve, the children (unless all `[]`) fail, or, for an
      element, the props fail. */
  lemma Aborts(n: Node)
    requires IsReactCreateElement(n)
    ensures var args := n.arguments;
            var t, p := Arg(args, 0), Arg(args, 1);
            var rest := Trailing(args);
            JsxNode(n).None? <==>
              || JsxName(t).None?
              || (!AllEmptyArrays(rest) && exists i :: 0 <= i < |KeptChildren(n)| && JsxChild(KeptChildren(n)[i]).None?)
              || (!IsFragment(t) && JsxProps(p).None?)
  {
  }

  /** When a recognised call translates: it is a fragment exactly when the
      type names one; its children are none when every trailing argument is
      `[]` and otherwise its kept children converted in order; an element
      carries the resolved name and the attributes of the props. */
  lemma Translation(n: Node)
    requires IsReactCreateElement(n) && JsxNode(n).Some?
    ensures JsxName(Arg(n.arguments, 0)).Some?
    ensures var j := JsxNode(n).value;
            && (j.Fragment? <==> IsFragment(Arg(n.arguments, 0)))
            && (AllEmptyArrays(Trailing(n.arguments)) ==> j.children == [])
            && (!AllEmptyArrays(Trailing(n.arguments)) ==>
                  |j.children| == |KeptChildren(n)| &&
                  forall i :: 0 <= i < |j.children| ==> j.children[i] == JsxChild(KeptChildren(n)[i]))
            && (j.Element? ==> j.name == JsxName(Arg(n.arguments, 0)).value
                               && Some(j.attributes) == JsxProps(Arg(n.arguments, 1)))
  {
  }

  /** Children are resolved before the fragment test: a fragment with a
      failing child fails. */
  lemma FragmentChildFails(n: Node, k: nat)
    requires IsReactCreateElement(n) && IsFragment(Arg(n.arguments, 0))
    requires !AllEmptyArrays(Trailing(n.arguments))
    requires k < |KeptChildren(n)| && JsxChild(KeptChildren(n)[k]).None?
    ensures JsxNode(n).None?
  {
  }

  /** The children depend on the kept trailing arguments alone. */
  lemma ChildrenSameKept(a: Node, b: Node)
    requires a.Call? && b.Call? && KeptChildren(a) == KeptChildren(b)
    ensures Children(a) == Children(b)
  {
    if Children(a).Some? {
      var x, y := Children(a).value, Children(b).value;
      assert |x| == |y| && forall i :: 0 <= i < |x| ==> x[i] == y[i];
    }
  }

  /** A fragment carries only the children; its props are never looked at. */
  lemma FragmentIgnoresProps(callee: Node, t: Node, p: Node, q: Node, rest: seq<Node>)
    requires IsReactCreateElement(Call(callee, [t, p] + rest)) && IsFragment(Some(t))
    ensures JsxNode(Call(callee, [t, p] + rest)) == JsxNode(Call(callee, [t, q] + rest))
    ensures JsxNode(Call(callee, [t, p] + rest)).Some? ==> JsxNode(Call(callee, [t, p] + rest)).value.Fragment?
  {
    var a, b := Call(callee, [t, p] + rest), Call(callee, [t, q] + rest);
    assert Arg(a.arguments, 0) == Some(t) == Arg(b.arguments, 0);
    assert Trailing(a.arguments) == rest == Trailing(b.arguments);
    ChildrenSameKept(a, b);
    var cs := if AllEmptyArrays(rest) then Some([]) else Children(a);
    assert JsxNode(a) == if JsxName(Some(t)).None? || cs.None? then None else Some(CreateFragment(cs.value));
    assert JsxNode(b) == if JsxName(Some(t)).None? || cs.None? then None else Some(CreateFragment(cs.value));
  }

  /** Every property of `ReasonReact` names a fragment in this engine, while
      the current engine knows only `Fragment`, `fragment` and `jsxFragment`. */
  lemma FragmentAnyProperty(prop: string)
    ensures IsFragment(Some(Member(Ident("ReasonReact"), Ident(prop), false)))
    ensures Engine.IsFragment(Some(Member(Ident("ReasonReact"), Ident(prop), false))) <==>
              prop in {"Fragment", "fragment", "jsxFragment"}
  {
  }

  /** A computed callee is never recognised: `React["createElement"](...)`
      and `React[createElement](...)` are left alone. */
  lemma ComputedRejected(o: Node, m: Node, args: seq<Node>)
    ensures !IsReactCreateElement(Call(Member(o, m, true), args))
    ensures JsxNode(Call(Member(o, m, true), args)).None?
  {
  }

  /** Every call the older engine recognises, the current one takes for a
      v3 call; the converse fails for `ReactDOM`, `JsxRuntime` and for
      computed callees. */
  lemma RecognisedCallsAreV3(n: Node)
    requires IsReactCreateElement(n)
    ensures Engine.JsxVersion(n) == Some(Engine.V3)
  {
  }

  lemma CurrentRecognisesMore()
    ensures var n := Call(Member(Ident("ReactDOM"), Ident("createElement"), false), []);
            Engine.JsxVersion(n) == Some(Engine.V3) && !IsReactCreateElement(n)
    ensures var n := Call(Member(Ident("React"), Ident("createElement"), true), []);
            Engine.JsxVersion(n) == Some(Engine.V3) && !IsReactCreateElement(n)
  {
  }
}

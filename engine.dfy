/** The current engine (src/index.mjs): it recognises both the variadic
    convention `React.createElement(type, props, ...children)` (called v3)
    and the props-object convention `JsxRuntime.jsx(type, {..., children})`
    (called v4), and rewrites a recognised call into markup, or reports that
    it cannot (`None`). */
module Engine {
  import opened Syntax
  import opened Seqs
  import opened Markup
  import opened Names
  import opened Props
  import opened Arguments

  datatype Version = V3 | V4

  /** The names the element-construction module goes by. */
  const Containers: set<string> := {"JsxRuntime", "React", "ReactDOM", "ReactDOMRe"}
  /** The method names of the variadic convention. */
  const VariadicMethods: set<string> := {"createElement", "createElementVariadic", "createDOMElementVariadic"}
  /** The method names of the props-object convention. */
  const PropsObjectMethods: set<string> := {"jsx", "jsxs", "jsxDEV"}
  /** `X.Y` names a fragment when `X` is one of these ... */
  const FragmentNamespaces: set<string> := {"JsxRuntime", "ReasonReact", "React"}
  /** ... and `Y` one of these. */
  const FragmentNames: set<string> := {"Fragment", "fragment", "jsxFragment"}

  /** `n` is a call `C.m(...)` (or `C[m](...)`) with `C` one of `containers`
      and `m` one of `methods`, both identifiers. */
  predicate CallsMethod(n: Node, containers: set<string>, methods: set<string>) {
    && n.Call?
    && n.callee.Member?
    && IsIdentIn(n.callee.obj, containers)
    && IsIdentIn(n.callee.prop, methods)
  }

  /** `getNodeJsxVersion`: which convention a call follows, if any. The
      callee's `computed` flag is not looked at. */
  function JsxVersion(n: Node): (r: Option<Version>)
    ensures r == Some(V3) <==> CallsMethod(n, Containers, VariadicMethods)
    ensures r == Some(V4) <==> CallsMethod(n, Containers, PropsObjectMethods)
    ensures r.Some? ==> n.Call?
  {
    if n.Call? && n.callee.Member? && IsIdentIn(n.callee.obj, Containers) then
      if IsIdentIn(n.callee.prop, VariadicMethods) then Some(V3)
      else if IsIdentIn(n.callee.prop, PropsObjectMethods) then Some(V4)
      else None
    else None
  }

  /** `isReactFragment`: the type argument is `X.Y` with `X` a fragment
      namespace and `Y` a fragment name. */
  predicate IsFragment(n: Option<Node>) {
    && n.Some?
    && n.value.Member?
    && IsIdentIn(n.value.obj, FragmentNamespaces)
    && IsIdentIn(n.value.prop, FragmentNames)
  }

  /** A property keyed by the identifier `children` (a spread has no key). */
  function IsChildrenKey(p: Prop): bool {
    !p.SpreadProp? && IsIdentNamed(p.key, "children")
  }

  function NotChildrenKey(p: Prop): bool {
    !IsChildrenKey(p)
  }

  /** `hasJSXChildrenV4`: the props are an object literal with a property
      keyed by the identifier `children`. */
  predicate HasChildrenV4(n: Option<Node>) {
    n.Some? && n.value.Obj? && exists i :: 0 <= i < |n.value.properties| && IsChildrenKey(n.value.properties[i])
  }

  /** `removeChildrenFromPropsV4`: the same object literal with every
      property keyed by the identifier `children` taken out and the others
      kept in order. */
  function RemoveChildrenV4(n: Node): (r: Node)
    requires n.Obj?
    ensures r.Obj? && r.properties == Filter(n.properties, NotChildrenKey)
    ensures forall p :: p in r.properties <==> p in n.properties && !IsChildrenKey(p)
  {
    Obj(Filter(n.properties, NotChildrenKey))
  }

  /** `getJSXChild`: a string literal becomes text; a recognised call is
      translated, and if that fails so does the child (it does not fall back
      to an expression child); any other expression goes into braces; a
      node that is not an expression fails. */
  function JsxChild(n: Node): (r: Option<Child>)
    ensures SlotWellFormed(r)
    ensures r.None? <==> !IsExpression(n) || (JsxVersion(n).Some? && JsxNode(n).None?)
    ensures n.StrLit? ==> r == Some(Text(n.value))
    ensures JsxVersion(n).Some? && JsxNode(n).Some? ==> r == Some(Nested(JsxNode(n).value))
    ensures IsExpression(n) && !n.StrLit? && JsxVersion(n).None? ==> r == Some(Container(n))
    decreases n, 3
  {
    if n.StrLit? then Some(Text(n.value))
    else if JsxVersion(n).Some? then
      match JsxNode(n)
      case Some(j) => Some(Nested(j))
      case None => None
    else if IsExpression(n) then Some(Container(n))
    else None
  }

  /** `getJSXChildrenV3` on the trailing arguments of a v3 call: the kept
      arguments converted one by one, in order, or `None` as soon as one of
      them fails. */
  function ChildrenV3(call: Node): (r: Option<seq<Option<Child>>>)
    requires call.Call?
    ensures r.Some? <==> forall i :: 0 <= i < |KeptChildren(call)| ==> JsxChild(KeptChildren(call)[i]).Some?
    ensures r.Some? ==> |r.value| == |KeptChildren(call)|
    ensures r.Some? ==> forall i :: 0 <= i < |r.value| ==> r.value[i] == JsxChild(KeptChildren(call)[i])
    ensures r.Some? ==> forall i :: 0 <= i < |r.value| ==> r.value[i].Some? && SlotWellFormed(r.value[i])
    decreases call, 1
  {
    var kept := KeptChildren(call);
    var children := seq(|kept|, i requires 0 <= i < |kept| =>
                          assert kept[i] in call.arguments; JsxChild(kept[i]));
    assert forall i :: 0 <= i < |kept| ==> children[i] == JsxChild(kept[i]);
    if forall i :: 0 <= i < |children| ==> children[i].Some? then Some(children)
    else None
  }

  /** `getJSXChildrenV4`: the value of the first `children` property; an
      array literal gives one converted child per element, in order, and any
      other value one child. A child that fails stays in the list as a
      failed slot. A method property has no value, which converts to a
      failed child. */
  function ChildrenV4(props: Node): (r: seq<Option<Child>>)
    requires HasChildrenV4(Some(props))
    ensures forall i :: 0 <= i < |r| ==> SlotWellFormed(r[i])
    decreases props, 1
  {
    var ps := props.properties;
    var k :| 0 <= k < |ps| && IsChildrenKey(ps[k]);
    assert ps[k] in Filter(ps, IsChildrenKey);
    var first := Filter(ps, IsChildrenKey)[0];
    assert first in ps;
    if first.MethodProp? then [None]
    else
      var v := first.value;
      if v.Arr? then seq(|v.elements|, i requires 0 <= i < |v.elements| => JsxChild(v.elements[i]))
      else [JsxChild(v)]
  }

  /** `getJSXNode`: the markup for a recognised call, or `None`. The name is
      resolved first, then the children; a fragment is built from the
      children alone, without looking at the props; otherwise the props are
      resolved (for v4 with the `children` properties removed) and an
      element is built. Every element built here and nested in the result
      keeps the self-closing invariant. */
  function JsxNode(n: Node): (r: Option<Jsx>)
    ensures r.Some? ==> JsxVersion(n).Some? && WellFormed(r.value)
    decreases n, 2
  {
    match JsxVersion(n)
    case None => None
    case Some(version) =>
      var nameNode, propsNode := Arg(n.arguments, 0), Arg(n.arguments, 1);
      match JsxName(nameNode)
      case None => None
      case Some(name) =>
        if version == V3 then
          var children := if AllEmptyArrays(Trailing(n.arguments)) then Some([]) else ChildrenV3(n);
          match children
          case None => None
          case Some(cs) =>
            if IsFragment(nameNode) then Some(CreateFragment(cs))
            else
              match JsxProps(propsNode)
              case None => None
              case Some(attrs) => Some(CreateElement(name, attrs, cs))
        else
          var cs := if HasChildrenV4(propsNode) then ChildrenV4(propsNode.value) else [];
          if IsFragment(nameNode) then Some(CreateFragment(cs))
          else
            var props := if HasChildrenV4(propsNode) then JsxProps(Some(RemoveChildrenV4(propsNode.value)))
                         else JsxProps(propsNode);
            match props
            case None => None
            case Some(attrs) => Some(CreateElement(name, attrs, cs))
  }
}

/** What the current engine promises, stated over the functions of `Engine`. */
module EngineFacts {
  import opened Syntax
  import opened Seqs
  import opened Markup
  import opened Names
  import opened Props
  import opened Engine
  import opened Arguments

  /** All-or-nothing: a v3 call whose trailing arguments are not all `[]`
      and one of whose kept children fails to convert translates to nothing,
      whatever its name, props or other children. */
  lemma V3Aborts(n: Node, k: nat)
    requires JsxVersion(n) == Some(V3)
    requires !AllEmptyArrays(Trailing(n.arguments))
    requires k < |KeptChildren(n)| && JsxChild(KeptChildren(n)[k]).None?
    ensures JsxNode(n).None?
  {
  }

  /** A v3 call fails exactly when its name does not resolve, its children
      (unless all `[]`) fail, or, for an element, its props fail: when all
      three resolve it translates. */
  lemma V3Fails(n: Node)
    requires JsxVersion(n) == Some(V3)
    ensures var args := n.arguments;
            var t, p := Arg(args, 0), Arg(args, 1);
            JsxNode(n).None? <==>
              || JsxName(t).None?
              || (!AllEmptyArrays(Trailing(args)) &&
                  exists i :: 0 <= i < |KeptChildren(n)| && JsxChild(KeptChildren(n)[i]).None?)
              || (!IsFragment(t) && JsxProps(p).None?)
  {
  }

  /** When every trailing argument is `[]` (also when there are none) a v3
      call has no children, and an element built from it is self-closing,
      without any closing tag. */
  lemma V3EmptyArrays(n: Node)
    requires JsxVersion(n) == Some(V3)
    requires AllEmptyArrays(Trailing(n.arguments))
    ensures JsxNode(n).Some? ==> JsxNode(n).value.children == []
    ensures JsxNode(n).Some? && JsxNode(n).value.Element? ==>
              JsxNode(n).value.selfClosing && JsxNode(n).value.closing.None?
  {
  }

  /** When a v3 call translates, its children are its kept trailing
      arguments converted in order, none of them failed, and an element
      carries the props' attributes and the resolved name. */
  lemma V3Translation(n: Node)
    requires JsxVersion(n) == Some(V3)
    requires JsxNode(n).Some?
    ensures JsxName(Arg(n.arguments, 0)).Some?
    ensures var j := JsxNode(n).value;
            && (j.Fragment? <==> IsFragment(Arg(n.arguments, 0)))
            && (forall i :: 0 <= i < |j.children| ==> j.children[i].Some?)
            && (AllEmptyArrays(Trailing(n.arguments)) ==> j.children == [])
            && (!AllEmptyArrays(Trailing(n.arguments)) ==>
                  |j.children| == |KeptChildren(n)| &&
                  forall i :: 0 <= i < |j.children| ==> j.children[i] == JsxChild(KeptChildren(n)[i]))
            && (j.Element? ==> j.name == JsxName(Arg(n.arguments, 0)).value
                               && Some(j.attributes) == JsxProps(Arg(n.arguments, 1)))
  {
  }

  /** v3 children depend on the kept trailing arguments alone. */
  lemma ChildrenV3SameKept(a: Node, b: Node)
    requires a.Call? && b.Call? && KeptChildren(a) == KeptChildren(b)
    ensures ChildrenV3(a) == ChildrenV3(b)
  {
    if ChildrenV3(a).Some? {
      var x, y := ChildrenV3(a).value, ChildrenV3(b).value;
      assert |x| == |y| && forall i :: 0 <= i < |x| ==> x[i] == y[i];
    }
  }

  /** A fragment ignores the props argument of a v3 call: any two props
      give the same result, which is a fragment when there is one. */
  lemma V3FragmentIgnoresProps(callee: Node, t: Node, p: Node, q: Node, rest: seq<Node>)
    requires JsxVersion(Call(callee, [t, p] + rest)) == Some(V3)
    requires IsFragment(Some(t))
    ensures JsxNode(Call(callee, [t, p] + rest)) == JsxNode(Call(callee, [t, q] + rest))
    ensures JsxNode(Call(callee, [t, p] + rest)).Some? ==> JsxNode(Call(callee, [t, p] + rest)).value.Fragment?
  {
    var a, b := Call(callee, [t, p] + rest), Call(callee, [t, q] + rest);
    assert Arg(a.arguments, 0) == Some(t) == Arg(b.arguments, 0);
    assert Trailing(a.arguments) == rest == Trailing(b.arguments);
    ChildrenV3SameKept(a, b);
  }

  /** v4 children come from the first property keyed `children`: an array
      value gives one converted child per element, in order, any other
      value exactly one child, a method property one failed child. A child
      that fails to convert stays in the list as a failed slot. */
  lemma ChildrenV4Spec(props: Node, k: nat)
    requires props.Obj? && k < |props.properties| && IsChildrenKey(props.properties[k])
    requires forall j :: 0 <= j < k ==> !IsChildrenKey(props.properties[j])
    ensures var p, r := props.properties[k], ChildrenV4(props);
            && (p.MethodProp? ==> r == [None])
            && (p.KeyValue? && p.value.Arr? ==>
                  |r| == |p.value.elements| &&
                  forall i :: 0 <= i < |r| ==> r[i] == JsxChild(p.value.elements[i]))
            && (p.KeyValue? && !p.value.Arr? ==> r == [JsxChild(p.value)])
  {
    FilterFirst(props.properties, IsChildrenKey, k);
  }

  /** A v4 call never fails because of a child: it translates exactly when
      its name resolves and, unless it is a fragment, its props without the
      `children` properties resolve. */
  lemma V4FailsOnlyOnNameOrProps(n: Node)
    requires JsxVersion(n) == Some(V4)
    ensures var t, p := Arg(n.arguments, 0), Arg(n.arguments, 1);
            JsxNode(n).Some? <==>
              && JsxName(t).Some?
              && (IsFragment(t) || JsxProps(if HasChildrenV4(p) then Some(RemoveChildrenV4(p.value)) else p).Some?)
  {
  }

  /** When a v4 call translates to an element, its attributes are those of
      the props with every `children` property removed and its children
      those of the first `children` property (none without one). */
  lemma V4Translation(n: Node)
    requires JsxVersion(n) == Some(V4)
    requires JsxNode(n).Some? && JsxNode(n).value.Element?
    ensures var t, p, j := Arg(n.arguments, 0), Arg(n.arguments, 1), JsxNode(n).value;
            && !IsFragment(t)
            && j.name == JsxName(t).value
            && Some(j.attributes) == JsxProps(if HasChildrenV4(p) then Some(RemoveChildrenV4(p.value)) else p)
            && j.children == (if HasChildrenV4(p) then ChildrenV4(p.value) else [])
  {
  }

  /** A fragment-named v4 call always translates, to a fragment holding
      only the children, whatever the other properties are. */
  lemma V4FragmentNeverFails(n: Node)
    requires JsxVersion(n) == Some(V4)
    requires IsFragment(Arg(n.arguments, 0))
    ensures var p := Arg(n.arguments, 1);
            JsxNode(n) == Some(Fragment(if HasChildrenV4(p) then ChildrenV4(p.value) else []))
  {
  }

  /** A v4 call reads only its first two arguments. */
  lemma V4IgnoresExtraArguments(n: Node)
    requires JsxVersion(n) == Some(V4) && |n.arguments| >= 2
    ensures JsxNode(n) == JsxNode(Call(n.callee, n.arguments[..2]))
  {
    var m := Call(n.callee, n.arguments[..2]);
    assert Arg(n.arguments, 0) == Arg(m.arguments, 0);
    assert Arg(n.arguments, 1) == Arg(m.arguments, 1);
  }

  /** Only properties keyed by an identifier are children: `"children": x`
      with a string key gives an attribute named `children` and no child. */
  lemma V4StringChildrenKey(callee: Node, t: Node, v: Node)
    requires JsxVersion(Call(callee, [t, Obj([KeyValue(StrLit("children"), v, false)])])) == Some(V4)
    requires JsxName(Some(t)).Some? && !IsFragment(Some(t)) && IsExpression(v)
    ensures var r := JsxNode(Call(callee, [t, Obj([KeyValue(StrLit("children"), v, false)])]));
            && r.Some? && r.value.children == []
            && r.value.attributes == [Attribute("children", AttributeValue(v).value)]
  {
    var props := Obj([KeyValue(StrLit("children"), v, false)]);
    assert !HasChildrenV4(Some(props));
    assert IsPlainObject(props);
  }

  /** A v4 `children: null` is not dropped as a v3 `null` argument is: it
      gives one expression child, so the element is not self-closing. */
  lemma V4NullChild(callee: Node, t: Node)
    requires JsxVersion(Call(callee, [t, Obj([KeyValue(Ident("children"), NullLit, false)])])) == Some(V4)
    requires JsxName(Some(t)).Some? && !IsFragment(Some(t))
    ensures var r := JsxNode(Call(callee, [t, Obj([KeyValue(Ident("children"), NullLit, false)])]));
            && r.Some? && r.value.children == [Some(Container(NullLit))] && !r.value.selfClosing
  {
    var props := Obj([KeyValue(Ident("children"), NullLit, false)]);
    assert IsChildrenKey(props.properties[0]);
    ChildrenV4Spec(props, 0);
    assert Filter(props.properties, NotChildrenKey) == [] by {
      FilterSingleton(props.properties[0], NotChildrenKey);
    }
  }

  /** The classifier does not look at `computed`: `React[createElement](...)`
      is taken for a v3 call just like `React.createElement(...)`. */
  lemma VersionIgnoresComputed(o: Node, m: Node, c: bool, args: seq<Node>)
    ensures JsxVersion(Call(Member(o, m, c), args)) == JsxVersion(Call(Member(o, m, !c), args))
  {
  }
}

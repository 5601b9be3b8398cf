/** Calls from the repository's test suites, with the markup each engine
    gives for them. A printer would merge adjacent text children; the
    engine does not, so `"Header", "harhar"` stays two text children. */
module Scenarios {
  import opened Syntax
  import opened Names
  import opened Props
  import Engine
  import Legacy
  import opened Arguments
  import opened Seqs
  import Markup
  import EngineFacts

  function ReactCall(m: string, args: seq<Node>): Node {
    Call(Member(Ident("React"), Ident(m), false), args)
  }

  function RuntimeCall(m: string, args: seq<Node>): Node {
    Call(Member(Ident("JsxRuntime"), Ident(m), false), args)
  }

  function SelfClosing(tag: string, attrs: seq<Attr>): Jsx {
    Element(JIdent(tag), attrs, true, None, [])
  }

  /** `React.createElement("h1")` is `<h1 />` in both engines. */
  lemma OneArgument()
    ensures Engine.JsxNode(ReactCall("createElement", [StrLit("h1")])) == Some(SelfClosing("h1", []))
    ensures Legacy.JsxNode(ReactCall("createElement", [StrLit("h1")])) == Some(SelfClosing("h1", []))
  {
  }

  /** `JsxRuntime.jsx("h1")` is `<h1 />` in the current engine. */
  lemma RuntimeOneArgument()
    ensures Engine.JsxNode(RuntimeCall("jsx", [StrLit("h1")])) == Some(SelfClosing("h1", []))
  {
  }

  /** `React.createElement(Foo.Bar.Baz)` is `<Foo.Bar.Baz />`. */
  lemma MemberName()
    ensures var t := Member(Member(Ident("Foo"), Ident("Bar"), false), Ident("Baz"), false);
            Engine.JsxNode(ReactCall("createElement", [t])) ==
              Some(Element(JMember(JMember(JIdent("Foo"), JIdent("Bar")), JIdent("Baz")), [], true, None, []))
  {
  }

  /** `React.createElement("h2", null, null)` is `<h2 />`. */
  lemma NullArguments()
    ensures Engine.JsxNode(ReactCall("createElement", [StrLit("h2"), NullLit, NullLit])) == Some(SelfClosing("h2", []))
    ensures Legacy.JsxNode(ReactCall("createElement", [StrLit("h2"), NullLit, NullLit])) == Some(SelfClosing("h2", []))
  {
    assert Arguments.KeptChildren(ReactCall("createElement", [StrLit("h2"), NullLit, NullLit])) == [];
  }

  /** `_extends({hi: "there"}, props)` */
  function MixedProps(): Node {
    Extends([Obj([KeyValue(Ident("hi"), StrLit("there"), false)]), Ident("props")])
  }

  /** The merge gives `hi="there"` and then `{...props}`, in argument order. */
  lemma MixedAttributes()
    ensures PropsOf(MixedProps()) == Some([Attribute("hi", VStr("there")), SpreadAttr(Ident("props"))])
  {
    var o, p := MixedProps().arguments[0], MixedProps().arguments[1];
    var hi := Attribute("hi", VStr("there"));
    ObjectRoundTrip([hi]);
    assert ObjectOf([hi]) == o;
    ExtendsSingle(o);
    ExtendsSingle(p);
    ExtendsConcat([o], [p]);
    assert [o] + [p] == MixedProps().arguments;
    assert PropsOf(MixedProps()).value == [hi] + [SpreadAttr(p)];
    assert [hi] + [SpreadAttr(p)] == [hi, SpreadAttr(p)];
  }

  /** `React.createElement("h1", _extends({hi: "there"}, props))` is
      `<h1 hi="there" {...props} />`. */
  lemma MixedElement()
    ensures Engine.JsxNode(ReactCall("createElement", [StrLit("h1"), MixedProps()])) ==
              Some(SelfClosing("h1", [Attribute("hi", VStr("there")), SpreadAttr(Ident("props"))]))
  {
    MixedAttributes();
    var n := ReactCall("createElement", [StrLit("h1"), MixedProps()]);
    assert Trailing(n.arguments) == [];
    assert Engine.JsxNode(n) == Some(Markup.CreateElement(JIdent("h1"), PropsOf(MixedProps()).value, []));
  }

  /** `React.createElement("h1", null, null, "Header", undefined)` */
  function IntermingledCall(): Node {
    ReactCall("createElement", [StrLit("h1"), NullLit, NullLit, StrLit("Header"), Ident("undefined")])
  }

  /** Its one kept child is `"Header"`: both sentinels are dropped. */
  lemma IntermingledKept()
    ensures KeptChildren(IntermingledCall()) == [StrLit("Header")]
  {
    KeepMiddle(NullLit, StrLit("Header"), Ident("undefined"));
    assert Trailing(IntermingledCall().arguments) == [NullLit, StrLit("Header"), Ident("undefined")];
  }

  /** Of three trailing arguments with sentinels on either side only the middle one is kept. */
  lemma KeepMiddle(a: Node, x: Node, b: Node)
    requires IsNullLike(a) && !IsNullLike(x) && IsNullLike(b)
    ensures Filter([a, x, b], NotNullLike) == [x]
  {
    FilterSingleton(a, NotNullLike);
    FilterSingleton(x, NotNullLike);
    FilterSingleton(b, NotNullLike);
    FilterAppend([x], [b], NotNullLike);
    assert [x] + [b] == [x, b];
    FilterAppend([a], [x, b], NotNullLike);
    assert [a] + [x, b] == [a, x, b];
  }

  /** Its children are the one text child. */
  lemma IntermingledChildren()
    ensures Engine.ChildrenV3(IntermingledCall()) == Some([Some(Text("Header"))])
  {
    IntermingledKept();
    OneTextChild(IntermingledCall(), "Header");
  }

  /** A v3 call whose one kept argument is a string literal has that text
      for its only child. */
  lemma OneTextChild(call: Node, text: string)
    requires call.Call? && KeptChildren(call) == [StrLit(text)]
    ensures Engine.ChildrenV3(call) == Some([Some(Text(text))])
  {
    var cs := Engine.ChildrenV3(call);
    assert cs.Some? && |cs.value| == 1 && cs.value[0] == Some(Text(text));
    assert cs.value == [cs.value[0]];
  }

  /** `React.createElement("h2", null, "Header", "harhar")` */
  function TwoTextsCall(): Node {
    ReactCall("createElement", [StrLit("h2"), NullLit, StrLit("Header"), StrLit("harhar")])
  }

  /** Its two string arguments stay two text children, in order: merging
      them into `Headerharhar` is left to a printer. */
  lemma TwoTexts()
    ensures Engine.ChildrenV3(TwoTextsCall()) == Some([Some(Text("Header")), Some(Text("harhar"))])
  {
    var a, b := StrLit("Header"), StrLit("harhar");
    FilterSingleton(a, NotNullLike);
    FilterSingleton(b, NotNullLike);
    FilterAppend([a], [b], NotNullLike);
    assert Trailing(TwoTextsCall().arguments) == [a] + [b];
    assert KeptChildren(TwoTextsCall()) == [a, b];
    var cs := Engine.ChildrenV3(TwoTextsCall());
    assert cs.Some? && |cs.value| == 2 && cs.value[0] == Some(Text("Header")) && cs.value[1] == Some(Text("harhar"));
    assert cs.value == [cs.value[0], cs.value[1]];
  }

  /** ... and it becomes `<h1>Header</h1>`. */
  lemma IntermingledNulls()
    ensures Engine.JsxNode(IntermingledCall()) ==
              Some(Element(JIdent("h1"), [], false, Some(JIdent("h1")), [Some(Text("Header"))]))
  {
    var n := IntermingledCall();
    IntermingledChildren();
    assert !AllEmptyArrays(Trailing(n.arguments)) by {
      assert Trailing(n.arguments)[0] == NullLit;
    }
    assert Engine.JsxVersion(n) == Some(Engine.V3);
    assert JsxName(Arg(n.arguments, 0)) == Some(JIdent("h1"));
    assert JsxProps(Arg(n.arguments, 1)) == Some([]);
    assert Engine.JsxNode(n) == Some(Markup.CreateElement(JIdent("h1"), [], [Some(Text("Header"))]));
  }

  /** `JsxRuntime.jsx("div", {children: "Child"})` */
  function InnerCall(): Node {
    RuntimeCall("jsx", [StrLit("div"), Obj([KeyValue(Ident("children"), StrLit("Child"), false)])])
  }

  /** `JsxRuntime.jsx("h1", {hi: there, children: ["Header", <inner>]})` */
  function OuterCall(): Node {
    RuntimeCall("jsx", [StrLit("h1"), Obj([KeyValue(Ident("hi"), Ident("there"), false),
                                           KeyValue(Ident("children"), Arr([StrLit("Header"), InnerCall()]), false)])])
  }

  /** The inner call is `<div>Child</div>`: a lone `children` value is one child. */
  lemma InnerElement()
    ensures Engine.JsxNode(InnerCall()) == Some(Element(JIdent("div"), [], false, Some(JIdent("div")), [Some(Text("Child"))]))
  {
    var props := InnerCall().arguments[1];
    EngineFacts.ChildrenV4Spec(props, 0);
    assert Filter(props.properties, Engine.NotChildrenKey) == [] by {
      FilterSingleton(props.properties[0], Engine.NotChildrenKey);
    }
    assert Engine.ChildrenV4(props) == [Some(Text("Child"))];
  }

  /** As a child, the inner call is its element nested. */
  lemma InnerChild()
    ensures Engine.JsxChild(InnerCall()) ==
              Some(Nested(Element(JIdent("div"), [], false, Some(JIdent("div")), [Some(Text("Child"))])))
  {
    InnerElement();
  }

  /** The array under `children` gives the text and the nested element, in order. */
  lemma OuterChildren()
    ensures Engine.HasChildrenV4(Some(OuterCall().arguments[1]))
    ensures Engine.ChildrenV4(OuterCall().arguments[1]) ==
              [Some(Text("Header")),
               Some(Nested(Element(JIdent("div"), [], false, Some(JIdent("div")), [Some(Text("Child"))])))]
  {
    InnerChild();
    var props := OuterCall().arguments[1];
    assert Engine.IsChildrenKey(props.properties[1]) && !Engine.IsChildrenKey(props.properties[0]);
    EngineFacts.ChildrenV4Spec(props, 1);
    var cs := Engine.ChildrenV4(props);
    assert |cs| == 2 && cs[0] == Engine.JsxChild(StrLit("Header")) && cs[1] == Engine.JsxChild(InnerCall());
  }

  /** Without its `children` property the outer props object is `{hi: there}`. */
  lemma OuterAttributes()
    ensures PropsOf(Engine.RemoveChildrenV4(OuterCall().arguments[1])) == Some([Attribute("hi", VExpr(Ident("there")))])
  {
    var props := OuterCall().arguments[1];
    DropChildren(props.properties[0], props.properties[1]);
    var hi := Attribute("hi", VExpr(Ident("there")));
    ObjectRoundTrip([hi]);
    assert ObjectOf([hi]) == Obj([props.properties[0]]);
  }

  /** Taking the `children` property out of a two-property object leaves the other. */
  lemma DropChildren(p: Prop, ch: Prop)
    requires !Engine.IsChildrenKey(p) && Engine.IsChildrenKey(ch)
    ensures Engine.RemoveChildrenV4(Obj([p, ch])) == Obj([p])
  {
    assert [p, ch] == [p] + [ch];
    FilterAppend([p], [ch], Engine.NotChildrenKey);
    FilterSingleton(p, Engine.NotChildrenKey);
    FilterSingleton(ch, Engine.NotChildrenKey);
  }

  /** The outer call is `<h1 hi={there}>Header<div>Child</div></h1>`: the
      array's elements are converted in order, the nested call translated. */
  lemma NestedPropsObject()
    ensures Engine.JsxNode(OuterCall()) ==
              Some(Element(JIdent("h1"), [Attribute("hi", VExpr(Ident("there")))], false, Some(JIdent("h1")),
                           [Some(Text("Header")),
                            Some(Nested(Element(JIdent("div"), [], false, Some(JIdent("div")), [Some(Text("Child"))])))]))
  {
    OuterChildren();
    OuterAttributes();
    var n := OuterCall();
    V4Element(n, JIdent("h1"), [Attribute("hi", VExpr(Ident("there")))], Engine.ChildrenV4(n.arguments[1]));
  }

  /** A v4 element call with a `children` property, from its parts. */
  lemma V4Element(n: Node, name: JName, attrs: seq<Attr>, cs: seq<Option<Child>>)
    requires Engine.JsxVersion(n) == Some(Engine.V4) && |n.arguments| >= 2
    requires JsxName(Some(n.arguments[0])) == Some(name) && !Engine.IsFragment(Some(n.arguments[0]))
    requires Engine.HasChildrenV4(Some(n.arguments[1]))
    requires PropsOf(Engine.RemoveChildrenV4(n.arguments[1])) == Some(attrs)
    requires Engine.ChildrenV4(n.arguments[1]) == cs
    ensures Engine.JsxNode(n) == Some(Markup.CreateElement(name, attrs, cs))
  {
    assert Arg(n.arguments, 0) == Some(n.arguments[0]) && Arg(n.arguments, 1) == Some(n.arguments[1]);
  }

  /** `React.createElement(React.Fragment, null)` and the other fragment
      names give the empty fragment `<></>` in the current engine. */
  lemma Fragments(ns: string, name: string)
    requires ns in {"React", "ReasonReact", "JsxRuntime"} && name in {"Fragment", "fragment", "jsxFragment"}
    ensures Engine.JsxNode(ReactCall("createElement", [Member(Ident(ns), Ident(name), false), NullLit])) ==
              Some(Fragment([]))
  {
  }

  /** The older engine takes `ReasonReact.fragment` for a fragment and
      `React.Fragment` for an ordinary element name. */
  lemma LegacyFragments()
    ensures Legacy.JsxNode(ReactCall("createElement", [Member(Ident("ReasonReact"), Ident("fragment"), false), NullLit])) ==
              Some(Fragment([]))
    ensures Legacy.JsxNode(ReactCall("createElement", [Member(Ident("React"), Ident("Fragment"), false), NullLit])) ==
              Some(Element(JMember(JIdent("React"), JIdent("Fragment")), [], true, None, []))
  {
  }
}

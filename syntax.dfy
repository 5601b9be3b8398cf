/** The tree shapes the rewrite engine reads (the handful of Babel expression
    nodes it looks at) and the markup shapes it builds. */
module Syntax {

  datatype Option<+T> = None | Some(value: T)

  /** An input node. Only the shapes the engine distinguishes get their own
      constructor; every other expression (a conditional, a binary operation,
      a template, ...) is an `OtherExpr`, and every node that is not an
      expression (a spread argument `...xs`, an array hole, a private name)
      is a `NonExpr`. */
  datatype Node =
    | Ident(name: string)
    | StrLit(value: string)
    | NullLit
    | Member(obj: Node, prop: Node, computed: bool)
    | Call(callee: Node, arguments: seq<Node>)
    | Obj(properties: seq<Prop>)
    | Arr(elements: seq<Node>)
    | JsxExpr(jsx: Jsx)
    | OtherExpr(kind: string)
    | NonExpr(kind: string)

  /** An entry of an object literal: `key: value`, `...argument`, or a method
      `key() { ... }`, which has a key and no value. */
  datatype Prop =
    | KeyValue(key: Node, value: Node, computed: bool)
    | SpreadProp(argument: Node)
    | MethodProp(key: Node, computed: bool)

  /** A tag name: `Foo` or a member chain `Foo.Bar.Baz`. */
  datatype JName = JIdent(id: string) | JMember(obj: JName, prop: JName)

  /** The value of an attribute: a string literal, markup passed through as
      it is, or an expression in braces. */
  datatype AttrValue = VStr(text: string) | VElem(element: Jsx) | VExpr(expression: Node)

  datatype Attr = Attribute(name: string, value: AttrValue) | SpreadAttr(argument: Node)

  datatype Child = Text(text: string) | Container(expression: Node) | Nested(jsx: Jsx)

  /** Markup. A child slot is `None` where the engine handed the builder a
      child that failed to convert (this happens only under the props-object
      convention, which never aborts on a child). */
  datatype Jsx =
    | Element(name: JName, attributes: seq<Attr>, selfClosing: bool,
              closing: Option<JName>, children: seq<Option<Child>>)
    | Fragment(children: seq<Option<Child>>)

  predicate IsExpression(n: Node) {
    !n.NonExpr?
  }

  /** `t.isIdentifier(n, { name: s })` */
  predicate IsIdentNamed(n: Node, s: string) {
    n.Ident? && n.name == s
  }

  /** `null` or `undefined`: both mean "omitted". */
  predicate IsNullLike(n: Node) {
    n.NullLit? || IsIdentNamed(n, "undefined")
  }

  /** `t.isJSXElement(n)`: a fragment is markup but not an element. */
  predicate IsJsxElement(n: Node) {
    n.JsxExpr? && n.jsx.Element?
  }

  /** `n` is an identifier whose name is one of `names`. */
  predicate IsIdentIn(n: Node, names: set<string>) {
    n.Ident? && n.name in names
  }

  /** Argument `i` of a call, absent when the call has fewer arguments. */
  function Arg(args: seq<Node>, i: nat): (r: Option<Node>)
    ensures r.Some? <==> i < |args|
    ensures r.Some? ==> r.value == args[i]
  {
    if i < |args| then Some(args[i]) else None
  }
}

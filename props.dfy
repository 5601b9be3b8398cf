/** Props normalisation: the props argument of a constructor call becomes
    an ordered list of attributes. The code is the same in both engines. */
module Props {
  import opened Syntax
  import opened Seqs
  import Names

  /** `getJSXAttributeValue`: a string literal and an element are kept as
      they are, any other expression goes into braces, and a node that is
      not an expression has no attribute value. */
  function AttributeValue(n: Node): (r: Option<AttrValue>)
    ensures r.None? <==> !IsExpression(n)
    ensures r.Some? ==> ValueSource(r.value) == n
    ensures r.Some? && r.value.VExpr? ==> !n.StrLit? && !IsJsxElement(n)
  {
    if n.StrLit? then Some(VStr(n.value))
    else if IsJsxElement(n) then Some(VElem(n.jsx))
    else if IsExpression(n) then Some(VExpr(n))
    else None
  }

  /** The node an attribute value was made from. */
  function ValueSource(v: AttrValue): Node {
    match v
    case VStr(s) => StrLit(s)
    case VElem(j) => JsxExpr(j)
    case VExpr(e) => e
  }

  /** A property `isPlainObjectExpression` accepts: a spread, or a
      non-computed `key: value` whose key is an identifier or a string and
      whose value is an expression. */
  predicate IsPlainProperty(p: Prop) {
    || p.SpreadProp?
    || (p.KeyValue? && !p.computed &&
        Names.JsxIdentifier(p.key).Some? && AttributeValue(p.value).Some?)
  }

  /** `isPlainObjectExpression` */
  predicate IsPlainObject(n: Node) {
    n.Obj? && forall i :: 0 <= i < |n.properties| ==> IsPlainProperty(n.properties[i])
  }

  /** The attribute a plain property becomes. */
  function ToAttr(p: Prop): Attr
    requires IsPlainProperty(p)
  {
    if p.KeyValue? then
      Attribute(Names.JsxIdentifier(p.key).value, AttributeValue(p.value).value)
    else
      SpreadAttr(p.argument)
  }

  /** A call of the merge helper `_extends(...)` that the compiler emits for
      object spreads. */
  predicate IsExtendsCall(n: Node) {
    n.Call? && IsIdentNamed(n.callee, "_extends")
  }

  /** `getJSXProps` of a present node. Only a non-expression or an object
      literal that is not plain fails; a null sentinel gives no attributes;
      a merge call whose arguments all resolve gives their attributes in
      argument order and otherwise is one opaque spread, like every other
      non-object expression. */
  function PropsOf(n: Node): (r: Option<seq<Attr>>)
    ensures r.None? <==> !IsExpression(n) || (n.Obj? && !IsPlainObject(n))
    ensures IsNullLike(n) ==> r == Some([])
    ensures (IsExtendsCall(n) && !(forall i :: 0 <= i < |n.arguments| ==> PropsOf(n.arguments[i]).Some?))
            ==> r == Some([SpreadAttr(n)])
    ensures !IsNullLike(n) && !IsExtendsCall(n) && !n.Obj? && IsExpression(n) ==> r == Some([SpreadAttr(n)])
    decreases n
  {
    if IsNullLike(n) then Some([])
    else if IsExtendsCall(n) && forall i :: 0 <= i < |n.arguments| ==> PropsOf(n.arguments[i]).Some? then
      Some(Flatten(seq(|n.arguments|, i requires 0 <= i < |n.arguments| => PropsOf(n.arguments[i]).value)))
    else if !n.Obj? && IsExpression(n) then Some([SpreadAttr(n)])
    else if !IsPlainObject(n) then None
    else Some(seq(|n.properties|, i requires 0 <= i < |n.properties| => ToAttr(n.properties[i])))
  }

  /** `getJSXProps`: absent props give no attributes. */
  function JsxProps(n: Option<Node>): (r: Option<seq<Attr>>)
    ensures n.None? ==> r == Some([])
    ensures n.Some? ==> r == PropsOf(n.value)
  {
    match n
    case None => Some([])
    case Some(node) => PropsOf(node)
  }

  /** A plain object literal gives one attribute per property, in the order
      of the properties: a spread entry a spread attribute of the same
      argument, a `key: value` entry an attribute with the key's name and the
      converted value. */
  lemma ObjectAttributes(n: Node)
    requires IsPlainObject(n)
    ensures PropsOf(n).Some? && |PropsOf(n).value| == |n.properties|
    ensures forall i :: 0 <= i < |n.properties| ==>
              var p, a := n.properties[i], PropsOf(n).value[i];
              && (p.SpreadProp? <==> a.SpreadAttr?)
              && (p.SpreadProp? ==> a.argument == p.argument)
              && (p.KeyValue? ==> a.Attribute? && a.name == Names.JsxIdentifier(p.key).value
                                   && ValueSource(a.value) == p.value)
  {
  }

  /** An attribute that an object literal can give back: a value in braces
      must be one that would not have been taken for a literal or an element. */
  predicate Printable(a: Attr) {
    a.Attribute? ==> match a.value
                      case VStr(_) => true
                      case VElem(j) => j.Element?
                      case VExpr(e) => IsExpression(e) && !e.StrLit? && !IsJsxElement(e)
  }

  /** The object literal `{ name: value, ...argument, ... }` for a list of attributes. */
  function ObjectOf(attrs: seq<Attr>): (r: Node)
  {
    Obj(seq(|attrs|, i requires 0 <= i < |attrs| =>
              match attrs[i]
              case Attribute(name, v) => KeyValue(Ident(name), ValueSource(v), false)
              case SpreadAttr(e) => SpreadProp(e)))
  }

  /** Normalisation inverts `ObjectOf`: any list of printable attributes, in
      any order, is what its object literal normalises to. */
  lemma ObjectRoundTrip(attrs: seq<Attr>)
    requires forall i :: 0 <= i < |attrs| ==> Printable(attrs[i])
    ensures PropsOf(ObjectOf(attrs)) == Some(attrs)
  {
    var n := ObjectOf(attrs);
    forall i | 0 <= i < |attrs|
      ensures IsPlainProperty(n.properties[i]) && ToAttr(n.properties[i]) == attrs[i]
    {
      if attrs[i].Attribute? {
        match attrs[i].value
        case VStr(_) =>
        case VElem(_) =>
        case VExpr(_) =>
      }
    }
    assert IsPlainObject(n);
    var r := PropsOf(n).value;
    assert |r| == |attrs|;
    assert forall i :: 0 <= i < |attrs| ==> r[i] == attrs[i];
    assert r == attrs;
  }

  /** The merge call `_extends(...)`. */
  function Extends(args: seq<Node>): Node {
    Call(Ident("_extends"), args)
  }

  /** Merge flattening is concatenation in argument order: splitting the
      arguments of a fully resolvable merge call splits its attributes at
      the same place (so `_extends({}, props, {hi: "there"})` puts the spread
      before `hi`). */
  lemma ExtendsConcat(xs: seq<Node>, ys: seq<Node>)
    requires forall i :: 0 <= i < |xs| ==> PropsOf(xs[i]).Some?
    requires forall i :: 0 <= i < |ys| ==> PropsOf(ys[i]).Some?
    ensures PropsOf(Extends(xs + ys)).Some?
    ensures PropsOf(Extends(xs + ys)).value == PropsOf(Extends(xs)).value + PropsOf(Extends(ys)).value
  {
    var zs := xs + ys;
    forall i | 0 <= i < |zs| ensures PropsOf(zs[i]).Some? {
      if i >= |xs| { assert zs[i] == ys[i - |xs|]; }
    }
    var lists := seq(|zs|, i requires 0 <= i < |zs| => PropsOf(zs[i]).value);
    var lx := seq(|xs|, i requires 0 <= i < |xs| => PropsOf(xs[i]).value);
    var ly := seq(|ys|, i requires 0 <= i < |ys| => PropsOf(ys[i]).value);
    assert lists == lx + ly;
    FlattenAppend(lx, ly);
  }

  /** A merge of one resolvable argument gives that argument's attributes. */
  lemma ExtendsSingle(n: Node)
    requires PropsOf(n).Some?
    ensures PropsOf(Extends([n])) == PropsOf(n)
  {
    var e := Extends([n]);
    assert e.arguments == [n];
    assert !IsNullLike(e) && IsExtendsCall(e);
    assert forall i :: 0 <= i < |e.arguments| ==> PropsOf(e.arguments[i]).Some?;
    var lists := seq(|e.arguments|, i requires 0 <= i < |e.arguments| => PropsOf(e.arguments[i]).value);
    assert PropsOf(e) == Some(Flatten(lists));
    assert lists == [PropsOf(n).value];
    FlattenSingleton(PropsOf(n).value);
  }

  /** A merge argument that fails (a non-plain object literal, a spread
      argument) does not make the merge fail: the whole call becomes a single
      spread attribute. */
  lemma ExtendsFallback(args: seq<Node>, k: nat)
    requires k < |args| && PropsOf(args[k]).None?
    ensures PropsOf(Extends(args)) == Some([SpreadAttr(Extends(args))])
  {
  }
}

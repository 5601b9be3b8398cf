/** Name resolution: the type argument of a constructor call becomes a tag
    name. The code is the same in both engines. */
module Names {
  import opened Syntax

  /** An identifier, or a string literal (compilers write host-element names
      such as "h1" as literals), gives a one-token name. */
  function JsxIdentifier(n: Node): (r: Option<string>)
    ensures r.Some? <==> n.Ident? || n.StrLit?
    ensures n.Ident? ==> r == Some(n.name)
    ensures n.StrLit? ==> r == Some(n.value)
  {
    if n.Ident? then Some(n.name)
    else if n.StrLit? then Some(n.value)
    else None
  }

  /** The tokens of a member tree, left to right: what a name resolved from
      it must spell. */
  function Leaves(n: Node): seq<string>
    decreases n
  {
    match n
    case Ident(name) => [name]
    case StrLit(value) => [value]
    case Member(o, p, _) => Leaves(o) + Leaves(p)
    case _ => []
  }

  /** The tokens of a name, left to right. */
  function Segments(j: JName): seq<string>
    decreases j
  {
    match j
    case JIdent(id) => [id]
    case JMember(o, p) => Segments(o) + Segments(p)
  }

  /** Resolution of a present node. A member access resolves exactly when
      both its object and its property do; the access's `computed` flag is
      not looked at. A resolved name spells the node's tokens in order. */
  function ResolveName(n: Node): (r: Option<JName>)
    ensures r.Some? <==> n.Ident? || n.StrLit? ||
                         (n.Member? && ResolveName(n.obj).Some? && ResolveName(n.prop).Some?)
    ensures r.Some? && n.Member? ==> r.value == JMember(ResolveName(n.obj).value, ResolveName(n.prop).value)
    ensures r.Some? ==> Segments(r.value) == Leaves(n)
    decreases n
  {
    match JsxIdentifier(n)
    case Some(id) => Some(JIdent(id))
    case None =>
      if !n.Member? then None
      else
        match (ResolveName(n.obj), ResolveName(n.prop))
        case (Some(o), Some(p)) => Some(JMember(o, p))
        case _ => None
  }

  /** `getJSXName`: an absent node has no name. */
  function JsxName(n: Option<Node>): (r: Option<JName>)
    ensures n.None? ==> r.None?
    ensures n.Some? ==> r == ResolveName(n.value)
  {
    match n
    case None => None
    case Some(node) => ResolveName(node)
  }

  /** The source form of a name: identifiers joined by non-computed member
      accesses. */
  function Unparse(j: JName): (r: Node)
    decreases j
  {
    match j
    case JIdent(id) => Ident(id)
    case JMember(o, p) => Member(Unparse(o), Unparse(p), false)
  }

  /** Resolution inverts `Unparse`: every name is the resolution of its own
      source form. */
  lemma {:induction false} ResolveUnparse(j: JName)
    ensures ResolveName(Unparse(j)) == Some(j)
    decreases j
  {
    match j
    case JIdent(_) =>
    case JMember(o, p) =>
      ResolveUnparse(o);
      ResolveUnparse(p);
  }

  /** `a.b.c` as a parser builds it: member accesses nested to the left. */
  function Dotted(names: seq<string>): (r: Node)
    requires |names| >= 1
    decreases |names|
  {
    if |names| == 1 then Ident(names[0])
    else Member(Dotted(names[..|names| - 1]), Ident(names[|names| - 1]), false)
  }

  /** A dotted path of any length resolves, and the name keeps the order of
      the path (`Foo.Bar.Baz` stays `Foo.Bar.Baz`). */
  lemma {:induction false} DottedResolves(names: seq<string>)
    requires |names| >= 1
    ensures ResolveName(Dotted(names)).Some?
    ensures Segments(ResolveName(Dotted(names)).value) == names
    decreases |names|
  {
    if |names| > 1 {
      var front := names[..|names| - 1];
      DottedResolves(front);
      assert names == front + [names[|names| - 1]];
    }
  }

  /** `part` occurs in the member chain `n`: it is `n`, or it occurs in the
      object or the property of a member access. */
  predicate InChain(n: Node, part: Node)
    decreases n
  {
    n == part || (n.Member? && (InChain(n.obj, part) || InChain(n.prop, part)))
  }

  /** A name fails as soon as any part of the chain, at any depth, fails:
      a call, an object literal, a null literal, or a member access one of
      whose own parts fails. */
  lemma {:induction false} UnresolvableInside(n: Node, bad: Node)
    requires InChain(n, bad) && ResolveName(bad).None?
    ensures ResolveName(n).None?
    decreases n
  {
    if n != bad {
      if InChain(n.obj, bad) {
        UnresolvableInside(n.obj, bad);
      } else {
        UnresolvableInside(n.prop, bad);
      }
    }
  }

  /** `A.f().B`: a call two levels down makes the whole chain fail. */
  lemma CallInChain()
    ensures var call := Call(Ident("f"), []);
            var n := Member(Member(Ident("A"), call, false), Ident("B"), false);
            InChain(n, call) && ResolveName(n).None?
  {
    var call := Call(Ident("f"), []);
    UnresolvableInside(Member(Member(Ident("A"), call, false), Ident("B"), false), call);
  }
}

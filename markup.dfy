/** Building markup nodes, and the shape invariants every element the engine
    builds satisfies. */
module Markup {
  import opened Syntax

  /** An element named `name`: self-closing exactly when it has no children,
      and then without a closing tag; otherwise closed by a tag of the same
      name. Failed child slots count as children. */
  function CreateElement(name: JName, attrs: seq<Attr>, children: seq<Option<Child>>): (r: Jsx)
    ensures r.Element? && r.name == name && r.attributes == attrs && r.children == children
    ensures r.selfClosing <==> |children| == 0
    ensures r.closing.Some? <==> !r.selfClosing
    ensures r.closing.Some? ==> r.closing.value == name
  {
    var selfClosing := |children| == 0;
    Element(name, attrs, selfClosing, if selfClosing then None else Some(name), children)
  }

  /** A fragment holds children only: it has no name and no attributes. */
  function CreateFragment(children: seq<Option<Child>>): (r: Jsx)
    ensures r.Fragment? && r.children == children
  {
    Fragment(children)
  }

  /** The self-closing invariant, for `j` and for every element nested in
      it as a child. Markup inside an expression child or an attribute value
      is not the engine's and is not inspected. */
  predicate WellFormed(j: Jsx)
    decreases j
  {
    match j
    case Element(name, _, selfClosing, closing, children) =>
      && selfClosing == (|children| == 0)
      && closing == (if selfClosing then None else Some(name))
      && forall i :: 0 <= i < |children| ==> SlotWellFormed(children[i])
    case Fragment(children) =>
      forall i :: 0 <= i < |children| ==> SlotWellFormed(children[i])
  }

  predicate SlotWellFormed(s: Option<Child>)
    decreases s
  {
    s.Some? && s.value.Nested? ==> WellFormed(s.value.jsx)
  }

  /** No child slot of `j`, nor of any element or fragment nested in it as a
      child, is a failed one. */
  predicate Complete(j: Jsx)
    decreases j
  {
    forall i :: 0 <= i < |j.children| ==> SlotComplete(j.children[i])
  }

  predicate SlotComplete(s: Option<Child>)
    decreases s
  {
    s.Some? && (s.value.Nested? ==> Complete(s.value.jsx))
  }
}

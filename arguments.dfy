/** The argument layout of the variadic convention, `(type, props,
    ...children)`, and the child-argument tests both engines share. */
module Arguments {
  import opened Syntax
  import opened Seqs

  /** The arguments after the type and the props. */
  function Trailing(args: seq<Node>): (r: seq<Node>)
    ensures |args| >= 2 ==> r == args[2..]
    ensures |args| < 2 ==> r == []
    ensures forall x :: x in r ==> x in args
  {
    if |args| < 2 then [] else args[2..]
  }

  /** `isEmptyChildren`: every node is the empty array literal `[]`
      (vacuously so for no nodes). */
  predicate AllEmptyArrays(nodes: seq<Node>) {
    forall i :: 0 <= i < |nodes| ==> nodes[i].Arr? && |nodes[i].elements| == 0
  }

  function NotNullLike(n: Node): bool {
    !IsNullLike(n)
  }

  /** The child arguments of a call that are kept: the trailing ones that
      are not `null` or `undefined`, in order. */
  function KeptChildren(call: Node): (r: seq<Node>)
    requires call.Call?
    ensures forall x :: x in r ==> x in Trailing(call.arguments) && !IsNullLike(x)
    ensures forall i :: 0 <= i < |r| ==> r[i] in call.arguments
    ensures forall x :: x in Trailing(call.arguments) && !IsNullLike(x) ==> x in r
  {
    Filter(Trailing(call.arguments), NotNullLike)
  }

  /** Prepending a child argument prepends it to the kept children exactly
      when it is not `null` or `undefined`: the kept children are the
      trailing arguments without the sentinels, in their order. */
  lemma KeptChildrenCons(callee: Node, t: Node, p: Node, x: Node, rest: seq<Node>)
    ensures KeptChildren(Call(callee, [t, p, x] + rest)) ==
              (if IsNullLike(x) then [] else [x]) + KeptChildren(Call(callee, [t, p] + rest))
  {
    assert Trailing([t, p, x] + rest) == [x] + rest;
    assert Trailing([t, p] + rest) == rest;
    FilterAppend([x], rest, NotNullLike);
    FilterSingleton(x, NotNullLike);
  }
}

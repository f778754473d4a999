/** What a valid `Links` value means: a plain recursive tree, its order and its depth. */
module RedBlackShape {
  import opened EventTypes
  import opened RedBlack

  /** The reference notion of a tree: no addresses of parents, no positions. */
  datatype Shape = Leaf | Node(left: Shape, elm: Ptr, color: Color, right: Shape)

  function InOrder(t: Shape): seq<Ptr> {
    match t
    case Leaf => []
    case Node(l, e, _, r) => InOrder(l) + [e] + InOrder(r)
  }

  /** Every way down has this many black nodes, or -1 if two ways differ. */
  function BlackCount(t: Shape): int {
    match t
    case Leaf => 0
    case Node(l, _, c, r) =>
      var (a, b) := (BlackCount(l), BlackCount(r));
      if a == b && a >= 0 then a + (if c == Black then 1 else 0) else -1
  }

  predicate IsRedNode(t: Shape) {
    t.Node? && t.color == Red
  }

  predicate NoRedRed(t: Shape) {
    match t
    case Leaf => true
    case Node(l, _, c, r) =>
      (c == Red ==> !IsRedNode(l) && !IsRedNode(r)) && NoRedRed(l) && NoRedRed(r)
  }

  function Depth(t: Shape): nat {
    match t
    case Leaf => 0
    case Node(l, _, _, r) => 1 + if Depth(l) > Depth(r) then Depth(l) else Depth(r)
  }

  function Pow2(n: nat): nat {
    if n == 0 then 1 else 2 * Pow2(n - 1)
  }

  /** The tree that the child links spell out below n. */
  ghost function Unfold(s: Links, n: Ptr): (t: Shape)
    requires s.Linked() && s.step == 1 && (n != NULL ==> n in s.pos)
    decreases if n in s.pos && s.LinkedAt(n) then s.farEnd[n] - s.nearEnd[n] else 0
  {
    if n == NULL then Leaf
    else
      assert s.LinkedAt(n);
      assert s.near[n] != NULL ==> s.LinkedAt(s.near[n]);
      assert s.far[n] != NULL ==> s.LinkedAt(s.far[n]);
      Node(Unfold(s, s.near[n]), n, s.color[n], Unfold(s, s.far[n]))
  }

  /** The positions around n are positions of the sequence or one step outside. */
  ghost predicate Within(s: Links, n: Ptr) {
    s.LinkedAt(n) && -1 <= s.nearEnd[n] && s.farEnd[n] <= |s.order|
  }

  lemma {:induction false} UnfoldOrder(s: Links, n: Ptr)
    requires s.Linked() && s.step == 1 && n in s.pos && Within(s, n)
    ensures InOrder(Unfold(s, n)) == s.order[s.nearEnd[n] + 1..s.farEnd[n]]
    decreases s.farEnd[n] - s.nearEnd[n]
  {
    var l, r := s.near[n], s.far[n];
    if l != NULL { assert s.LinkedAt(l); UnfoldOrder(s, l); }
    if r != NULL { assert s.LinkedAt(r); UnfoldOrder(s, r); }
    SplitAt(s.order, s.nearEnd[n] + 1, s.pos[n], s.farEnd[n]);
    assert InOrder(Unfold(s, l)) == s.order[s.nearEnd[n] + 1..s.pos[n]];
    assert InOrder(Unfold(s, r)) == s.order[s.pos[n] + 1..s.farEnd[n]];
  }

  lemma SplitAt(o: seq<Ptr>, a: int, p: int, b: int)
    requires 0 <= a <= p < b <= |o|
    ensures o[a..b] == o[a..p] + [o[p]] + o[p + 1..b]
  {
  }

  lemma {:induction false} UnfoldBalanced(s: Links, n: Ptr)
    requires s.Linked() && s.Balanced(NULL, NULL, true) && s.step == 1 && (n != NULL ==> n in s.pos)
    ensures BlackCount(Unfold(s, n)) == s.Height(n) >= 0 && NoRedRed(Unfold(s, n))
    ensures IsRedNode(Unfold(s, n)) <==> s.IsRed(n)
    decreases if n in s.pos && s.LinkedAt(n) then s.farEnd[n] - s.nearEnd[n] else 0
  {
    if n != NULL {
      assert s.LinkedAt(n);
      assert s.BalancedAt(n, NULL, NULL, true);
      if s.near[n] != NULL { assert s.LinkedAt(s.near[n]); }
      if s.far[n] != NULL { assert s.LinkedAt(s.far[n]); }
      UnfoldBalanced(s, s.near[n]);
      UnfoldBalanced(s, s.far[n]);
    }
  }

  /** Valid links are a red-black tree in the textbook sense, in the order they claim. */
  lemma ValidIsRedBlack(s: Links)
    requires s.Valid() && s.step == 1
    ensures s.root != NULL ==> s.root in s.pos
    ensures var t := Unfold(s, s.root);
      InOrder(t) == s.order && BlackCount(t) >= 0 && NoRedRed(t) && !IsRedNode(t)
  {
    if s.root != NULL {
      UnfoldOrder(s, s.root);
      assert s.LinkedAt(s.root);
      assert s.order[0..|s.order|] == s.order;
    }
    UnfoldBalanced(s, s.root);
  }

  // ---- depth ----

  function Max(a: int, b: int): int { if a > b then a else b }

  lemma {:induction false} BalancedSize(t: Shape)
    requires BlackCount(t) >= 0 && NoRedRed(t)
    ensures Pow2(BlackCount(t)) <= |InOrder(t)| + 1
    ensures Depth(t) <= 2 * BlackCount(t) + (if IsRedNode(t) then 1 else 0)
  {
    match t
    case Leaf =>
    case Node(l, _, c, r) =>
      BalancedSize(l);
      BalancedSize(r);
  }

  lemma {:induction false} Pow2Sum(a: nat, b: nat)
    ensures Pow2(a + b) == Pow2(a) * Pow2(b)
  {
    if a > 0 { Pow2Sum(a - 1, b); }
  }

  lemma {:induction false} Pow2Monotone(a: nat, b: nat)
    requires a <= b
    ensures 1 <= Pow2(a) <= Pow2(b)
  {
    if a < b { Pow2Monotone(a, b - 1); } else if a > 0 { Pow2Monotone(a - 1, a - 1); }
  }

  /** steps <= 2 lg(n + 1), without logarithms */
  predicate Logarithmic(steps: nat, n: nat) {
    Pow2(steps) <= (n + 1) * (n + 1)
  }

  /** The height bound 2 lg(n + 1) of net/evsys/tree.h:54. */
  lemma DepthBound(t: Shape)
    requires BlackCount(t) >= 0 && NoRedRed(t) && !IsRedNode(t)
    ensures Logarithmic(Depth(t), |InOrder(t)|)
  {
    var b := BlackCount(t);
    BalancedSize(t);
    Pow2Monotone(Depth(t), 2 * b);
    Pow2Sum(b, b);
    SquareMonotone(Pow2(b), |InOrder(t)| + 1);
  }

  lemma SquareMonotone(a: nat, b: nat)
    requires a <= b
    ensures a * a <= b * b
  {
  }
}

/** Red-black links as values: what the rotations and fix-ups of net/evsys/tree.h keep.

    A `Links` value is the RB_ENTRY memory of all events together with the position of
    every tree node in the in-order sequence. The two mirror images of each algorithm are
    the same statement about a tree and about its `Mirror`: "near" is the left side when
    step is 1 and the right side when step is -1. */
module RedBlack {
  import opened EventTypes

  /** The value v after the positions from `from` on have moved by `delta`. */
  function Moved(v: int, from: int, delta: int): int {
    if v >= from then v + delta else v
  }

  function Shift(m: map<Ptr, int>, from: int, delta: int): map<Ptr, int> {
    map n | n in m :: Moved(m[n], from, delta)
  }

  datatype Links = Links(
      root: Ptr,
      near: map<Ptr, Ptr>,
      far: map<Ptr, Ptr>,
      parent: map<Ptr, Ptr>,
      color: map<Ptr, Color>,
      order: seq<Ptr>,         // the nodes from left to right
      nearEnd: map<Ptr, int>,  // position of the closest node outside the subtree, near side
      pos: map<Ptr, int>,      // position of the node itself; the keys are the nodes of the tree
      farEnd: map<Ptr, int>,   // position of the closest node outside the subtree, far side
      bh: map<Ptr, int>,       // black nodes on each way down, the node included
      step: int)
  {
    function Mirror(): Links {
      Links(root, far, near, parent, color, order, farEnd, pos, nearEnd, bh, -step)
    }

    // ---- links and positions ----

    ghost predicate Has(n: Ptr) {
      && n in near && n in far && n in parent && n in color
      && n in nearEnd && n in pos && n in farEnd && n in bh
    }

    ghost predicate Before(a: int, b: int) {
      if step == 1 then a < b else b < a
    }

    ghost predicate NearAt(n: Ptr)
      requires Has(n)
    {
      var c := near[n];
      if c == NULL then nearEnd[n] == pos[n] - step
      else Has(c) && parent[c] == n && nearEnd[c] == nearEnd[n] && farEnd[c] == pos[n]
    }

    ghost predicate FarAt(n: Ptr)
      requires Has(n)
    {
      var c := far[n];
      if c == NULL then farEnd[n] == pos[n] + step
      else Has(c) && parent[c] == n && farEnd[c] == farEnd[n] && nearEnd[c] == pos[n]
    }

    ghost predicate ParentAt(n: Ptr)
      requires Has(n)
    {
      var p := parent[n];
      if p == NULL then n == root
      else Has(p) && (if Before(pos[n], pos[p]) then near[p] == n else far[p] == n)
    }

    ghost predicate SpotAt(n: Ptr)
      requires Has(n)
    {
      && n != NULL
      && Before(nearEnd[n], pos[n]) && Before(pos[n], farEnd[n])
      && 0 <= pos[n] < |order| && order[pos[n]] == n
    }

    ghost predicate LinkedAt(n: Ptr) {
      Has(n) && NearAt(n) && FarAt(n) && ParentAt(n) && SpotAt(n)
    }

    ghost predicate RootAt() {
      if root == NULL then order == []
      else
        && Has(root) && parent[root] == NULL
        && nearEnd[root] == (if step == 1 then -1 else |order|)
        && farEnd[root] == (if step == 1 then |order| else -1)
    }

    /** Child links, parent links and positions agree for every node, and the positions
        enumerate `order`. */
    ghost predicate Linked() {
      && (step == 1 || step == -1)
      && (forall n {:trigger LinkedAt(n)} :: n in pos ==> LinkedAt(n))
      && OrderAt()
      && RootAt()
    }

    ghost predicate OrderAt() {
      forall i {:trigger order[i]} :: 0 <= i < |order| ==> order[i] in pos && pos[order[i]] == i
    }

    // ---- colours and black heights ----

    ghost predicate IsRed(c: Ptr) {
      c in color && c != NULL && color[c] == Red
    }

    ghost function Height(c: Ptr): int {
      if c in bh && c != NULL then bh[c] else 0
    }

    /** No red node has a red child, the node x and its children excepted. */
    ghost predicate RedAt(n: Ptr, x: Ptr)
      requires Has(n)
    {
      n != x && color[n] == Red ==> (near[n] == x || !IsRed(near[n])) && (far[n] == x || !IsRed(far[n]))
    }

    /** Both sides of n carry the same number of black nodes, counting one more on one
        side of q: that side is short of a black node. */
    ghost predicate HeightAt(n: Ptr, q: Ptr, qNear: bool)
      requires Has(n)
    {
      var h := Height(near[n]) + (if n == q && qNear then 1 else 0);
      && h == Height(far[n]) + (if n == q && !qNear then 1 else 0)
      && bh[n] == h + (if color[n] == Black then 1 else 0)
      && bh[n] >= (if color[n] == Black then 1 else 0)
    }

    ghost predicate BalancedAt(n: Ptr, x: Ptr, q: Ptr, qNear: bool) {
      Has(n) && RedAt(n, x) && HeightAt(n, q, qNear)
    }

    ghost predicate Balanced(x: Ptr, q: Ptr, qNear: bool) {
      forall n {:trigger BalancedAt(n, x, q, qNear)} :: n in pos ==> BalancedAt(n, x, q, qNear)
    }

    /** A valid red-black tree. */
    ghost predicate Valid() {
      Linked() && Balanced(NULL, NULL, true) && !IsRed(root)
    }

    // ---- rotation ----

    /** The far child of elm takes its place and elm becomes that child's near child. The
        two nodes trade black heights. */
    ghost function Rotate(elm: Ptr): Links
      requires Has(elm) && Has(far[elm])
    {
      var tmp := far[elm];
      var b := near[tmp];
      var p := parent[elm];
      var atNear := p in near && near[p] == elm;
      var far1 := far[elm := b];
      var parent1 := if b != NULL then parent[b := elm] else parent;
      Links(
        if p == NULL then tmp else root,
        (if p != NULL && atNear then near[p := tmp] else near)[tmp := elm],
        if p != NULL && !atNear then far1[p := tmp] else far1,
        parent1[tmp := p][elm := tmp],
        color, order,
        nearEnd[tmp := nearEnd[elm]], pos, farEnd[elm := pos[tmp]],
        bh[elm := bh[tmp]][tmp := bh[elm]],
        step)
    }

    ghost predicate Rotatable(elm: Ptr) {
      && (step == 1 || step == -1)
      && LinkedAt(elm)
      && far[elm] != NULL
      && LinkedAt(far[elm])
      && (near[far[elm]] != NULL ==> LinkedAt(near[far[elm]]))
      && (parent[elm] != NULL ==> LinkedAt(parent[elm]))
    }

    /** All that carrying out a rotation needs. */
    ghost predicate Turnable(elm: Ptr) {
      && Has(elm) && Has(far[elm])
      && var t, b, p := far[elm], near[far[elm]], parent[elm];
      && t != elm && b != elm && b != t && p != elm && p != t
      && (p != NULL ==> Has(p) && (near[p] == elm <==> far[p] != elm))
    }

    lemma RotatableTurnable(elm: Ptr)
      requires Rotatable(elm)
      ensures Turnable(elm)
    {
    }

    lemma RotateNearAt(elm: Ptr, n: Ptr)
      requires Rotatable(elm) && LinkedAt(n)
      requires near[n] != NULL ==> LinkedAt(near[n])
      ensures Rotate(elm).Has(n) && Rotate(elm).NearAt(n)
    {
    }

    lemma RotateFarAt(elm: Ptr, n: Ptr)
      requires Rotatable(elm) && LinkedAt(n)
      requires far[n] != NULL ==> LinkedAt(far[n])
      ensures Rotate(elm).Has(n) && Rotate(elm).FarAt(n)
    {
    }

    lemma RotateParentAt(elm: Ptr, n: Ptr)
      requires Rotatable(elm) && LinkedAt(n)
      requires parent[n] != NULL ==> LinkedAt(parent[n])
      ensures Rotate(elm).Has(n) && Rotate(elm).ParentAt(n)
    {
      if n == elm || n == far[elm] || n == near[far[elm]] {
        RotateParentHere(elm, n);
      } else {
        RotateParentElsewhere(elm, n);
      }
    }

    /** The three nodes that get another parent. */
    lemma RotateParentHere(elm: Ptr, n: Ptr)
      requires Rotatable(elm) && LinkedAt(n) && (n == elm || n == far[elm] || n == near[far[elm]])
      requires parent[n] != NULL ==> LinkedAt(parent[n])
      ensures Rotate(elm).Has(n) && Rotate(elm).ParentAt(n)
    {
    }

    lemma RotateParentElsewhere(elm: Ptr, n: Ptr)
      requires Rotatable(elm) && LinkedAt(n) && n != elm && n != far[elm] && n != near[far[elm]]
      requires parent[n] != NULL ==> LinkedAt(parent[n])
      ensures Rotate(elm).Has(n) && Rotate(elm).ParentAt(n)
    {
      var s, p := Rotate(elm), parent[n];
      assert s.parent[n] == p && s.pos == pos;
    }

    lemma RotateSpotAt(elm: Ptr, n: Ptr)
      requires Rotatable(elm) && LinkedAt(n)
      ensures Rotate(elm).Has(n) && Rotate(elm).SpotAt(n)
    {
    }

    lemma CanRotate(elm: Ptr)
      requires Linked() && elm in pos && Has(elm) && far[elm] != NULL
      ensures Rotatable(elm)
    {
      assert LinkedAt(elm);
      assert LinkedAt(far[elm]);
      assert near[far[elm]] != NULL ==> LinkedAt(near[far[elm]]);
      assert parent[elm] != NULL ==> LinkedAt(parent[elm]);
    }

    lemma RotateRootAt(elm: Ptr)
      requires Rotatable(elm) && RootAt() && root != NULL
      requires LinkedAt(root)
      ensures Rotate(elm).RootAt()
    {
    }

    lemma RotateLinked(elm: Ptr)
      requires Linked() && Rotatable(elm)
      ensures Rotate(elm).Linked()
    {
      assert elm == order[pos[elm]];
      assert LinkedAt(root);
      RotateRootAt(elm);
      forall n | n in pos ensures Rotate(elm).LinkedAt(n) {
        RotateNodeLinked(elm, n);
      }
    }

    lemma RotateNodeLinked(elm: Ptr, n: Ptr)
      requires Linked() && Rotatable(elm) && n in pos
      ensures Rotate(elm).LinkedAt(n)
    {
      assert LinkedAt(n);
      assert near[n] != NULL ==> LinkedAt(near[n]);
      assert far[n] != NULL ==> LinkedAt(far[n]);
      assert parent[n] != NULL ==> LinkedAt(parent[n]);
      RotateNearAt(elm, n);
      RotateFarAt(elm, n);
      RotateParentAt(elm, n);
      RotateSpotAt(elm, n);
    }

    lemma MirrorNodeLinked(n: Ptr)
      requires (step == 1 || step == -1) && LinkedAt(n)
      requires parent[n] != NULL ==> LinkedAt(parent[n])
      ensures Mirror().LinkedAt(n)
    {
    }

    lemma MirrorLinked()
      requires Linked()
      ensures Mirror().Linked()
    {
      forall n | n in pos ensures Mirror().LinkedAt(n) {
        assert LinkedAt(n);
        assert parent[n] != NULL ==> LinkedAt(parent[n]);
        MirrorNodeLinked(n);
      }
    }

    /** What is known about n and the nodes it is linked to. */
    ghost predicate Around(n: Ptr) {
      && LinkedAt(n)
      && (near[n] != NULL ==> LinkedAt(near[n]))
      && (far[n] != NULL ==> LinkedAt(far[n]))
      && (parent[n] != NULL ==> LinkedAt(parent[n]))
    }

    lemma Surround(n: Ptr)
      requires Linked() && n in pos
      ensures Around(n)
    {
      assert LinkedAt(n);
      assert near[n] != NULL ==> LinkedAt(near[n]);
      assert far[n] != NULL ==> LinkedAt(far[n]);
      assert parent[n] != NULL ==> LinkedAt(parent[n]);
    }

    // ---- a new leaf ----

    /** elm becomes the near child of p, which has none. */
    ghost function Attach(p: Ptr, elm: Ptr): Links
      requires Has(p) && 0 <= pos[p] < |order|
    {
      var k := if step == 1 then pos[p] else pos[p] + 1;
      Links(
        root, near[elm := NULL][p := elm], far[elm := NULL], parent[elm := p], color[elm := Red],
        order[..k] + [elm] + order[k..],
        Shift(nearEnd, k, 1)[elm := Moved(nearEnd[p], k, 1)],
        Shift(pos, k, 1)[elm := k],
        Shift(farEnd, k + step, 1)[elm := Moved(pos[p], k, 1)],
        bh[elm := 0],
        step)
    }

    ghost predicate Attachable(p: Ptr, elm: Ptr) {
      (step == 1 || step == -1) && Around(p) && near[p] == NULL && elm != NULL && elm !in pos
    }

    lemma AttachLinksAt(p: Ptr, elm: Ptr, n: Ptr)
      requires Attachable(p, elm) && Around(n)
      ensures Attach(p, elm).Has(n) && Attach(p, elm).NearAt(n) && Attach(p, elm).FarAt(n)
    {
    }

    lemma AttachSpotAt(p: Ptr, elm: Ptr, n: Ptr)
      requires Attachable(p, elm) && LinkedAt(n) && (parent[n] != NULL ==> LinkedAt(parent[n]))
      ensures Attach(p, elm).Has(n) && Attach(p, elm).ParentAt(n) && Attach(p, elm).SpotAt(n)
    {
    }

    lemma AttachNewAt(p: Ptr, elm: Ptr)
      requires Attachable(p, elm)
      ensures Attach(p, elm).LinkedAt(elm)
    {
    }

    lemma AttachOrderAt(p: Ptr, elm: Ptr)
      requires OrderAt() && Attachable(p, elm)
      ensures Attach(p, elm).OrderAt()
    {
      var s := Attach(p, elm);
      var k := s.pos[elm];
      forall i | 0 <= i < |s.order| ensures s.order[i] in s.pos && s.pos[s.order[i]] == i {
        assert s.order[i] == if i < k then order[i] else if i == k then elm else order[i - 1];
      }
    }

    lemma AttachLinked(p: Ptr, elm: Ptr)
      requires Linked() && Attachable(p, elm)
      ensures Attach(p, elm).Linked()
    {
      var s := Attach(p, elm);
      AttachNewAt(p, elm);
      AttachOrderAt(p, elm);
      AttachRootAt(p, elm);
      forall n | n in s.pos ensures s.LinkedAt(n) {
        if n != elm { AttachAt(p, elm, n); }
      }
    }

    lemma AttachRootAt(p: Ptr, elm: Ptr)
      requires Linked() && Attachable(p, elm)
      ensures Attach(p, elm).RootAt()
    {
    }

    lemma AttachAt(p: Ptr, elm: Ptr, n: Ptr)
      requires Linked() && Attachable(p, elm) && n in pos
      ensures Attach(p, elm).LinkedAt(n)
    {
      Surround(n);
      AttachLinksAt(p, elm, n);
      AttachSpotAt(p, elm, n);
    }

    // ---- taking out a node with at most one child ----

    /** The far child of z, if any, takes the place of z, which has no near child. */
    ghost function Unlink(z: Ptr): Links
      requires Has(z) && 0 <= pos[z] < |order|
    {
      var k := pos[z];
      var c := far[z];
      var p := parent[z];
      var atNear := p in near && near[p] == z;
      Links(
        if p == NULL then c else root,
        if p != NULL && atNear then near[p := c] else near,
        if p != NULL && !atNear then far[p := c] else far,
        if c != NULL then parent[c := p] else parent,
        color,
        order[..k] + order[k + 1..],
        Shift(nearEnd, if step == 1 then k else k + 1, -1) - {z},
        Shift(pos, k + 1, -1) - {z},
        Shift(farEnd, if step == 1 then k + 1 else k, -1) - {z},
        bh, step)
    }

    ghost predicate Unlinkable(z: Ptr) {
      (step == 1 || step == -1) && Around(z) && near[z] == NULL
    }

    /** All that taking out z or putting another node in its place needs. */
    ghost predicate Detachable(z: Ptr) {
      && Has(z) && 0 <= pos[z] < |order| && far[z] != z && parent[z] != z
      && (parent[z] != NULL ==> Has(parent[z]) && (near[parent[z]] == z <==> far[parent[z]] != z))
    }

    lemma AroundDetachable(z: Ptr)
      requires (step == 1 || step == -1) && Around(z)
      ensures Detachable(z) && Mirror().Detachable(z)
    {
    }

    lemma UnlinkNearAt(z: Ptr, n: Ptr)
      requires Unlinkable(z) && LinkedAt(n) && (near[n] != NULL ==> LinkedAt(near[n])) && n != z
      ensures Unlink(z).Has(n) && Unlink(z).NearAt(n)
    {
      assert pos[n] != pos[z];
      if near[n] == z { UnlinkNearParentAt(z); } else { UnlinkOtherNearAt(z, n); }
    }

    lemma UnlinkOtherNearAt(z: Ptr, n: Ptr)
      requires Unlinkable(z) && LinkedAt(n) && (near[n] != NULL ==> LinkedAt(near[n])) && n != z && near[n] != z
      requires pos[n] != pos[z]
      ensures Unlink(z).Has(n) && Unlink(z).NearAt(n)
    {
    }

    lemma UnlinkNearParentAt(z: Ptr)
      requires Unlinkable(z) && parent[z] != NULL && near[parent[z]] == z
      ensures Unlink(z).Has(parent[z]) && Unlink(z).NearAt(parent[z])
    {
    }

    lemma UnlinkFarAt(z: Ptr, n: Ptr)
      requires Unlinkable(z) && LinkedAt(n) && (far[n] != NULL ==> LinkedAt(far[n])) && n != z
      ensures Unlink(z).Has(n) && Unlink(z).FarAt(n)
    {
      assert pos[n] != pos[z];
      if far[n] != z { UnlinkOtherFarAt(z, n); }
    }

    lemma UnlinkOtherFarAt(z: Ptr, n: Ptr)
      requires Unlinkable(z) && LinkedAt(n) && (far[n] != NULL ==> LinkedAt(far[n])) && n != z && far[n] != z
      requires pos[n] != pos[z]
      ensures Unlink(z).Has(n) && Unlink(z).FarAt(n)
    {
    }

    lemma UnlinkParentAt(z: Ptr, n: Ptr)
      requires Unlinkable(z) && LinkedAt(n) && (parent[n] != NULL ==> LinkedAt(parent[n]))
      requires n != z && n != far[z]
      ensures Unlink(z).Has(n) && Unlink(z).ParentAt(n)
    {
      assert pos[n] != pos[z];
      assert parent[n] != z;
      if parent[n] == parent[z] { UnlinkSiblingAt(z, n); } else { UnlinkElsewhereAt(z, n); }
    }

    lemma UnlinkSiblingAt(z: Ptr, n: Ptr)
      requires Unlinkable(z) && LinkedAt(n) && (parent[n] != NULL ==> LinkedAt(parent[n]))
      requires n != z && n != far[z] && parent[n] != z && pos[n] != pos[z] && parent[n] == parent[z]
      ensures Unlink(z).Has(n) && Unlink(z).ParentAt(n)
    {
    }

    lemma UnlinkElsewhereAt(z: Ptr, n: Ptr)
      requires Unlinkable(z) && LinkedAt(n) && (parent[n] != NULL ==> LinkedAt(parent[n]))
      requires n != z && n != far[z] && parent[n] != z && pos[n] != pos[z] && parent[n] != parent[z]
      ensures Unlink(z).Has(n) && Unlink(z).ParentAt(n)
    {
      var s, p := Unlink(z), parent[n];
      assert s.Has(n) && s.parent[n] == p;
      if p != NULL {
        assert s.Has(p) && s.near[p] == near[p] && s.far[p] == far[p];
        assert s.Before(s.pos[n], s.pos[p]) <==> Before(pos[n], pos[p]);
      }
    }

    lemma UnlinkChildAt(z: Ptr)
      requires Unlinkable(z) && far[z] != NULL
      ensures Unlink(z).Has(far[z]) && Unlink(z).ParentAt(far[z])
    {
    }

    lemma UnlinkSpotAt(z: Ptr, n: Ptr)
      requires Unlinkable(z) && LinkedAt(n) && n != z
      ensures Unlink(z).Has(n) && Unlink(z).SpotAt(n)
    {
      assert pos[n] != pos[z];
      UnlinkOrder(z, pos[n]);
    }

    /** Every other position keeps its node, moved by one behind z. */
    lemma UnlinkOrder(z: Ptr, i: int)
      requires Has(z) && 0 <= pos[z] < |order| && 0 <= i < |order| && i != pos[z]
      ensures var j := Moved(i, pos[z] + 1, -1); 0 <= j < |order| - 1 && Unlink(z).order[j] == order[i]
    {
    }

    lemma UnlinkRootAt(z: Ptr)
      requires Unlinkable(z) && RootAt() && root != NULL && LinkedAt(root)
      requires far[z] == NULL && parent[z] == NULL ==> |order| == 1
      ensures Unlink(z).RootAt()
    {
    }

    lemma UnlinkOrderAt(z: Ptr)
      requires OrderAt() && Unlinkable(z)
      ensures Unlink(z).OrderAt()
    {
      var s, k := Unlink(z), pos[z];
      forall i | 0 <= i < |s.order| ensures s.order[i] in s.pos && s.pos[s.order[i]] == i {
        assert s.order[i] == if i < k then order[i] else order[i + 1];
      }
    }

    lemma UnlinkLinked(z: Ptr)
      requires Linked() && Unlinkable(z)
      ensures Unlink(z).Linked()
    {
      var s := Unlink(z);
      assert z == order[pos[z]];
      assert LinkedAt(root);
      UnlinkRootAt(z);
      UnlinkOrderAt(z);
      forall n | n in s.pos ensures s.LinkedAt(n) {
        Surround(n);
        UnlinkNearAt(z, n);
        UnlinkFarAt(z, n);
        if n == far[z] { UnlinkChildAt(z); } else { UnlinkParentAt(z, n); }
        UnlinkSpotAt(z, n);
      }
    }

    // ---- one node in the place of another ----

    /** elm, which is not in the tree, takes the place of old. */
    ghost function Replace(gone: Ptr, elm: Ptr): Links
      requires Has(gone) && 0 <= pos[gone] < |order|
    {
      var l := near[gone];
      var r := far[gone];
      var p := parent[gone];
      var atNear := p in near && near[p] == gone;
      var near1 := near[elm := l];
      var far1 := far[elm := r];
      var parent1 := parent[elm := p];
      var parent2 := if l != NULL then parent1[l := elm] else parent1;
      Links(
        if p == NULL then elm else root,
        if p != NULL && atNear then near1[p := elm] else near1,
        if p != NULL && !atNear then far1[p := elm] else far1,
        if r != NULL then parent2[r := elm] else parent2,
        color[elm := color[gone]],
        order[pos[gone] := elm],
        nearEnd[elm := nearEnd[gone]] - {gone},
        pos[elm := pos[gone]] - {gone},
        farEnd[elm := farEnd[gone]] - {gone},
        bh[elm := bh[gone]], step)
    }

    ghost predicate Replaceable(gone: Ptr, elm: Ptr) {
      (step == 1 || step == -1) && Around(gone) && elm != NULL && elm !in pos
    }

    lemma ReplaceNearAt(gone: Ptr, elm: Ptr, n: Ptr)
      requires Replaceable(gone, elm) && LinkedAt(n) && (near[n] != NULL ==> LinkedAt(near[n])) && n != gone
      ensures Replace(gone, elm).Has(n) && Replace(gone, elm).NearAt(n)
    {
    }

    lemma ReplaceFarAt(gone: Ptr, elm: Ptr, n: Ptr)
      requires Replaceable(gone, elm) && LinkedAt(n) && (far[n] != NULL ==> LinkedAt(far[n])) && n != gone
      ensures Replace(gone, elm).Has(n) && Replace(gone, elm).FarAt(n)
    {
    }

    lemma ReplaceParentAt(gone: Ptr, elm: Ptr, n: Ptr)
      requires Replaceable(gone, elm) && LinkedAt(n) && (parent[n] != NULL ==> LinkedAt(parent[n]))
      requires n != gone && parent[n] != gone
      ensures Replace(gone, elm).Has(n) && Replace(gone, elm).ParentAt(n)
    {
      assert n != near[gone] && n != far[gone];
    }

    lemma ReplaceChildAt(gone: Ptr, elm: Ptr, n: Ptr)
      requires Replaceable(gone, elm) && LinkedAt(n) && n != gone && parent[n] == gone
      ensures Replace(gone, elm).Has(n) && Replace(gone, elm).ParentAt(n)
    {
    }

    lemma ReplaceSpotAt(gone: Ptr, elm: Ptr, n: Ptr)
      requires Replaceable(gone, elm) && LinkedAt(n) && n != gone
      ensures Replace(gone, elm).Has(n) && Replace(gone, elm).SpotAt(n)
    {
    }

    lemma ReplaceNewAt(gone: Ptr, elm: Ptr)
      requires Replaceable(gone, elm)
      ensures Replace(gone, elm).LinkedAt(elm)
    {
      ReplaceNewKids(gone, elm);
      ReplaceNewPlace(gone, elm);
    }

    lemma ReplaceNewPlace(gone: Ptr, elm: Ptr)
      requires Replaceable(gone, elm)
      ensures Replace(gone, elm).Has(elm) && Replace(gone, elm).ParentAt(elm) && Replace(gone, elm).SpotAt(elm)
    {
    }

    lemma ReplaceNewKids(gone: Ptr, elm: Ptr)
      requires Replaceable(gone, elm)
      ensures Replace(gone, elm).Has(elm) && Replace(gone, elm).NearAt(elm) && Replace(gone, elm).FarAt(elm)
    {
    }

    lemma ReplaceOrderAt(gone: Ptr, elm: Ptr)
      requires OrderAt() && Replaceable(gone, elm)
      ensures Replace(gone, elm).OrderAt()
    {
    }

    lemma ReplaceRootAt(gone: Ptr, elm: Ptr)
      requires Replaceable(gone, elm) && RootAt() && LinkedAt(root)
      ensures Replace(gone, elm).RootAt()
    {
    }

    lemma ReplaceLinked(gone: Ptr, elm: Ptr)
      requires Linked() && Replaceable(gone, elm)
      ensures Replace(gone, elm).Linked()
    {
      var s := Replace(gone, elm);
      assert gone == order[pos[gone]];
      assert LinkedAt(root);
      ReplaceRootAt(gone, elm);
      ReplaceNewAt(gone, elm);
      ReplaceOrderAt(gone, elm);
      forall n | n in s.pos ensures s.LinkedAt(n) {
        if n != elm { ReplaceNodeLinked(gone, elm, n); }
      }
    }

    lemma ReplaceNodeLinked(gone: Ptr, elm: Ptr, n: Ptr)
      requires Linked() && Replaceable(gone, elm) && n in pos && n != gone
      ensures Replace(gone, elm).LinkedAt(n)
    {
      Surround(n);
      ReplaceNearAt(gone, elm, n);
      ReplaceFarAt(gone, elm, n);
      if parent[n] == gone { ReplaceChildAt(gone, elm, n); } else { ReplaceParentAt(gone, elm, n); }
      ReplaceSpotAt(gone, elm, n);
    }

    // ---- what rotations do to colours and black heights ----

    /** b is a with the values of e and f exchanged. */
    ghost predicate Swapped(a: map<Ptr, Color>, b: map<Ptr, Color>, e: Ptr, f: Ptr)
      requires e in a && f in a
    {
      && b.Keys == a.Keys && b[e] == a[f] && b[f] == a[e]
      && forall n {:trigger b[n]} :: n in a && n != e && n != f ==> b[n] == a[n]
    }

    /** Seen from any other node, a rotation puts far[elm] where elm was. */
    lemma RotateOtherKids(elm: Ptr, n: Ptr)
      requires Rotatable(elm) && LinkedAt(n) && n != elm && n != far[elm]
      requires near[n] != NULL ==> LinkedAt(near[n])
      requires far[n] != NULL ==> LinkedAt(far[n])
      ensures Rotate(elm).Has(n)
      ensures near[n] != far[elm] && far[n] != far[elm]
      ensures Rotate(elm).near[n] == if near[n] == elm then far[elm] else near[n]
      ensures Rotate(elm).far[n] == if far[n] == elm then far[elm] else far[n]
    {
    }

    /** A rotation that also swaps the two colours changes nothing for any other node. */
    lemma RotateOtherBalanced(elm: Ptr, c: map<Ptr, Color>, n: Ptr, q: Ptr, qNear: bool)
      requires Rotatable(elm) && n != elm && n != far[elm]
      requires Rotate(elm).Has(n) && near[n] != far[elm] && far[n] != far[elm]
      requires Rotate(elm).near[n] == if near[n] == elm then far[elm] else near[n]
      requires Rotate(elm).far[n] == if far[n] == elm then far[elm] else far[n]
      requires Swapped(color, c, elm, far[elm])
      requires BalancedAt(n, NULL, q, qNear)
      ensures Rotate(elm).(color := c).BalancedAt(n, NULL, q, qNear)
    {
    }

    lemma RotateNodeBalanced(elm: Ptr, c: map<Ptr, Color>, n: Ptr, q: Ptr, qNear: bool)
      requires Linked() && Rotatable(elm) && n in pos && n != elm && n != far[elm]
      requires Swapped(color, c, elm, far[elm])
      requires BalancedAt(n, NULL, q, qNear)
      ensures Rotate(elm).(color := c).BalancedAt(n, NULL, q, qNear)
    {
      Surround(n);
      RotateOtherKids(elm, n);
      RotateOtherBalanced(elm, c, n, q, qNear);
    }

    // ---- the insertion fix-up ----

    /** elm is red and may have a red parent; nothing else is wrong but a red root. */
    ghost predicate Inserting(elm: Ptr) {
      && Linked() && elm in pos
      && Balanced(elm, NULL, true)
      && LinkedAt(elm) && IsRed(elm) && !IsRed(near[elm]) && !IsRed(far[elm])
      && (IsRed(root) ==> root == elm)
    }

    /** Uncle and parent of elm are red: both turn black and the grandparent red. */
    ghost function Recolored(u: Ptr, p: Ptr, g: Ptr): Links
      requires u in bh && p in bh
    {
      this.(color := color[u := Black][p := Black][g := Red], bh := bh[u := bh[u] + 1][p := bh[p] + 1])
    }

    /** Links and positions do not depend on colours. */
    lemma RepaintLinked(c: map<Ptr, Color>, h: map<Ptr, int>)
      requires Linked() && color.Keys <= c.Keys && bh.Keys <= h.Keys
      ensures this.(color := c, bh := h).Linked()
    {
      var s := this.(color := c, bh := h);
      forall n | n in pos ensures s.LinkedAt(n) {
        Surround(n);
      }
    }

    ghost predicate Recolorable(elm: Ptr, p: Ptr, g: Ptr, u: Ptr) {
      && Has(elm) && p == parent[elm] && IsRed(p) && Has(p) && g == parent[p] && Has(g) && g != NULL
      && ((far[g] == p && near[g] == u) || (near[g] == p && far[g] == u))
      && IsRed(u) && Has(u) && parent[u] == g
      && u != p && u != g && p != g && p != elm && g != elm && u != elm
    }

    lemma RecolorNodeBalanced(elm: Ptr, p: Ptr, g: Ptr, u: Ptr, n: Ptr)
      requires Recolorable(elm, p, g, u)
      requires BalancedAt(n, elm, NULL, true) && BalancedAt(g, elm, NULL, true)
      requires near[n] != NULL ==> Has(near[n]) && parent[near[n]] == n
      requires far[n] != NULL ==> Has(far[n]) && parent[far[n]] == n
      requires n == elm ==> !IsRed(near[n]) && !IsRed(far[n])
      ensures Recolored(u, p, g).BalancedAt(n, g, NULL, true)
    {
      assert color[g] == Black;
    }

    lemma RecolorFacts(elm: Ptr, p: Ptr, g: Ptr, u: Ptr)
      requires Inserting(elm)
      requires p == parent[elm] && IsRed(p) && Has(p) && g == parent[p] && Has(g)
      requires (far[g] == p && near[g] == u) || (near[g] == p && far[g] == u)
      requires IsRed(u)
      ensures Recolorable(elm, p, g, u) && g in pos && BalancedAt(g, elm, NULL, true)
      ensures IsRed(root) ==> root == elm
    {
      Surround(elm);
      Surround(p);
      Surround(g);
      assert BalancedAt(g, elm, NULL, true);
    }

    lemma RecolorBalanced(elm: Ptr, p: Ptr, g: Ptr, u: Ptr)
      requires Inserting(elm)
      requires p == parent[elm] && IsRed(p) && Has(p) && g == parent[p] && Has(g)
      requires (far[g] == p && near[g] == u) || (near[g] == p && far[g] == u)
      requires IsRed(u)
      ensures Has(u) && Recolored(u, p, g).Inserting(g)
    {
      RecolorFacts(elm, p, g, u);
      var s := Recolored(u, p, g);
      forall n | n in pos ensures s.BalancedAt(n, g, NULL, true) {
        Surround(n);
        assert BalancedAt(n, elm, NULL, true);
        RecolorNodeBalanced(elm, p, g, u, n);
      }
      RepaintLinked(s.color, s.bh);
      assert s.LinkedAt(g);
      assert IsRed(root) ==> root == elm;
    }

    /** The two rotated nodes afterwards. */
    ghost predicate RotatedHere(elm: Ptr, s: Links) {
      && Has(elm) && Has(far[elm])
      && var t := far[elm];
      && s.Has(elm) && s.Has(t) && t != elm && elm != NULL && t != NULL
      && s.near[elm] == near[elm] && s.far[elm] == near[t] && s.near[t] == elm && s.far[t] == far[t]
      && s.bh == bh[elm := bh[t]][t := bh[elm]]
      && s.parent[elm] == t && s.parent[t] == parent[elm]
      && near[elm] != elm && near[elm] != t && near[t] != elm && near[t] != t && far[t] != elm && far[t] != t
    }

    lemma RotateHere(elm: Ptr)
      requires Rotatable(elm)
      requires near[elm] != NULL ==> LinkedAt(near[elm])
      requires far[far[elm]] != NULL ==> LinkedAt(far[far[elm]])
      ensures RotatedHere(elm, Rotate(elm))
    {
    }

    /** elm and its parent p lean the same way: p rises over the grandparent g. */
    lemma InsertOuter(elm: Ptr, p: Ptr, g: Ptr, c: map<Ptr, Color>)
      requires Inserting(elm)
      requires p == parent[elm] && IsRed(p) && Has(p) && g == parent[p] && Has(g)
      requires far[g] == p && far[p] == elm && !IsRed(near[g])
      requires Swapped(color, c, g, p)
      ensures Rotatable(g)
      ensures Rotate(g).(color := c).Inserting(elm)
      ensures c[p] == Black && Rotate(g).parent[elm] == p
    {
      InsertOuterFacts(elm, p, g);
      InsertOuterThree(elm, p, g, c);
      InsertOuterBalanced(elm, p, g, c);
      RotateRecolorLinked(g, c);
      RotateHere(g);
      assert Rotate(g).(color := c).LinkedAt(elm);
      assert Rotate(g).(color := c).LinkedAt(p);
    }

    /** The three nodes concerned, after the rotation. */
    lemma InsertOuterThree(elm: Ptr, p: Ptr, g: Ptr, c: map<Ptr, Color>)
      requires Rotatable(g) && Around(elm) && Around(p) && Around(g) && elm != p && elm != g
      requires p == parent[elm] && IsRed(p) && g == parent[p] && far[g] == p && far[p] == elm && !IsRed(near[g])
      requires color[g] == Black && IsRed(elm) && !IsRed(near[elm]) && !IsRed(far[elm])
      requires BalancedAt(g, elm, NULL, true) && BalancedAt(p, elm, NULL, true) && BalancedAt(elm, elm, NULL, true)
      requires Swapped(color, c, g, p)
      ensures var s := Rotate(g).(color := c);
        && s.BalancedAt(g, elm, NULL, true) && s.BalancedAt(p, elm, NULL, true) && s.BalancedAt(elm, elm, NULL, true)
        && s.IsRed(elm) && !s.IsRed(s.near[elm]) && !s.IsRed(s.far[elm])
    {
      InsertOuterTurned(elm, p, g, c);
      InsertOuterHere(elm, p, g, Rotate(g).(color := c));
    }

    lemma InsertOuterTurned(elm: Ptr, p: Ptr, g: Ptr, c: map<Ptr, Color>)
      requires Rotatable(g) && Around(elm) && Around(p) && Around(g) && elm != p && elm != g
      requires p == parent[elm] && g == parent[p] && far[g] == p && far[p] == elm && Swapped(color, c, g, p)
      ensures var s := Rotate(g).(color := c);
        && RotatedHere(g, s) && s.color == c && s.Has(elm) && s.near[elm] == near[elm] && s.far[elm] == far[elm]
        && near[elm] != p && far[elm] != p && near[elm] != g && far[elm] != g
    {
      RotateHere(g);
      InsertOuterKids(elm, p, g);
    }

    lemma InsertOuterKids(elm: Ptr, p: Ptr, g: Ptr)
      requires Rotatable(g) && Around(elm) && Around(p) && Around(g) && elm != p && elm != g
      requires p == parent[elm] && g == parent[p] && far[g] == p && far[p] == elm
      ensures Rotate(g).Has(elm) && Rotate(g).near[elm] == near[elm] && Rotate(g).far[elm] == far[elm]
      ensures near[elm] != p && far[elm] != p && near[elm] != g && far[elm] != g
    {
      RotateOtherKids(g, elm);
    }

    lemma InsertOuterBalanced(elm: Ptr, p: Ptr, g: Ptr, c: map<Ptr, Color>)
      requires Inserting(elm) && Rotatable(g) && p == far[g] && parent[elm] == p && Swapped(color, c, g, p)
      requires var s := Rotate(g).(color := c);
        s.BalancedAt(g, elm, NULL, true) && s.BalancedAt(p, elm, NULL, true) && s.BalancedAt(elm, elm, NULL, true)
      ensures Rotate(g).(color := c).Balanced(elm, NULL, true)
    {
      forall n | n in pos ensures Rotate(g).(color := c).BalancedAt(n, elm, NULL, true) {
        if n != elm && n != p && n != g {
          assert BalancedAt(n, elm, NULL, true);
          InsertOuterOther(elm, p, g, c, n);
        }
      }
    }

    lemma InsertOuterOther(elm: Ptr, p: Ptr, g: Ptr, c: map<Ptr, Color>, n: Ptr)
      requires Linked() && Rotatable(g) && n in pos && n != elm && n != p && n != g
      requires p == far[g] && LinkedAt(elm) && parent[elm] == p
      requires BalancedAt(n, elm, NULL, true) && Swapped(color, c, g, p)
      ensures Rotate(g).(color := c).BalancedAt(n, elm, NULL, true)
    {
      Surround(n);
      RotateNodeBalanced(g, c, n, NULL, true);
    }

    lemma RotateRecolorLinked(elm: Ptr, c: map<Ptr, Color>)
      requires Linked() && Rotatable(elm) && Swapped(color, c, elm, far[elm])
      ensures Rotate(elm).(color := c).Linked()
    {
      RotateLinked(elm);
      Rotate(elm).RepaintLinked(c, Rotate(elm).bh);
    }

    lemma InsertOuterFacts(elm: Ptr, p: Ptr, g: Ptr)
      requires Inserting(elm)
      requires p == parent[elm] && IsRed(p) && Has(p) && g == parent[p] && Has(g)
      requires far[g] == p
      ensures Rotatable(g) && Around(elm) && Around(p) && Around(g)
      ensures elm != p && elm != g
      ensures BalancedAt(g, elm, NULL, true) && BalancedAt(p, elm, NULL, true) && BalancedAt(elm, elm, NULL, true)
      ensures color[g] == Black && !IsRed(root) && LinkedAt(root) && parent[root] == NULL
    {
      assert LinkedAt(root);
      Surround(elm);
      Surround(p);
      Surround(g);
      CanRotate(g);
      assert BalancedAt(g, elm, NULL, true);
      assert BalancedAt(p, elm, NULL, true);
      assert BalancedAt(elm, elm, NULL, true);
    }

    lemma InsertOuterHere(elm: Ptr, p: Ptr, g: Ptr, s: Links)
      requires Has(g) && Has(p) && Has(elm) && p == far[g] && far[p] == elm && p != elm && g != elm
      requires RotatedHere(g, s) && Swapped(color, s.color, g, p)
      requires IsRed(p) && color[g] == Black && !IsRed(near[g]) && IsRed(elm) && !IsRed(near[elm]) && !IsRed(far[elm])
      requires s.Has(elm) && s.near[elm] == near[elm] && s.far[elm] == far[elm]
      requires near[elm] != p && far[elm] != p && near[elm] != g && far[elm] != g
      requires BalancedAt(g, elm, NULL, true) && BalancedAt(p, elm, NULL, true) && BalancedAt(elm, elm, NULL, true)
      ensures s.BalancedAt(g, elm, NULL, true) && s.BalancedAt(p, elm, NULL, true) && s.BalancedAt(elm, elm, NULL, true)
      ensures s.IsRed(elm) && !s.IsRed(s.near[elm]) && !s.IsRed(s.far[elm])
    {
    }

    /** elm and its parent p lean apart: elm rises over p, which becomes the new elm. */
    lemma InsertInner(elm: Ptr, p: Ptr, g: Ptr)
      requires Inserting(elm)
      requires p == parent[elm] && IsRed(p) && Has(p) && g == parent[p] && Has(g)
      requires near[g] == p && far[p] == elm
      ensures Rotatable(p) && Rotate(p).Inserting(p)
      ensures var s := Rotate(p);
        s.parent[p] == elm && s.parent[elm] == g && s.near[g] == elm && s.near[elm] == p && s.far[g] == far[g]
    {
      var s := Rotate(p);
      InsertInnerFacts(elm, p, g);
      RotateHere(p);
      RotateOtherKids(p, g);
      InsertInnerHere(elm, p, g, s);
      forall n | n in pos ensures s.BalancedAt(n, p, NULL, true) {
        if n != elm && n != p && n != g {
          assert BalancedAt(n, elm, NULL, true);
          InsertInnerOther(elm, p, n);
        }
      }
      RotateLinked(p);
      assert s.LinkedAt(p);
    }

    lemma InsertInnerFacts(elm: Ptr, p: Ptr, g: Ptr)
      requires Inserting(elm)
      requires p == parent[elm] && IsRed(p) && Has(p) && g == parent[p] && Has(g)
      requires far[p] == elm
      ensures Rotatable(p) && Around(elm) && Around(p) && Around(g)
      ensures elm != p && elm != g && g != NULL
      ensures BalancedAt(g, elm, NULL, true) && BalancedAt(p, elm, NULL, true) && BalancedAt(elm, elm, NULL, true)
      ensures color[g] == Black && !IsRed(root) && LinkedAt(root) && parent[root] == NULL
    {
      assert LinkedAt(root);
      Surround(elm);
      Surround(p);
      Surround(g);
      CanRotate(p);
      assert BalancedAt(g, elm, NULL, true);
      assert BalancedAt(p, elm, NULL, true);
      assert BalancedAt(elm, elm, NULL, true);
    }

    lemma InsertInnerHere(elm: Ptr, p: Ptr, g: Ptr, s: Links)
      requires Has(g) && Has(p) && Has(elm) && p == near[g] && far[p] == elm && p != elm && g != elm && g != p
      requires RotatedHere(p, s) && s.color == color && elm != NULL
      requires IsRed(p) && color[g] == Black && IsRed(elm) && !IsRed(near[elm]) && !IsRed(far[elm])
      requires s.Has(g) && s.near[g] == elm && s.far[g] == far[g] && far[g] != p && far[g] != elm
      requires BalancedAt(g, elm, NULL, true) && BalancedAt(p, elm, NULL, true) && BalancedAt(elm, elm, NULL, true)
      ensures s.BalancedAt(g, p, NULL, true) && s.BalancedAt(p, p, NULL, true) && s.BalancedAt(elm, p, NULL, true)
      ensures s.IsRed(p) && !s.IsRed(s.near[p]) && !s.IsRed(s.far[p])
    {
    }

    lemma InsertInnerOther(elm: Ptr, p: Ptr, n: Ptr)
      requires Linked() && Rotatable(p) && n in pos && n != elm && n != p
      requires elm == far[p] && LinkedAt(elm) && parent[elm] == p && IsRed(p) && IsRed(elm)
      requires BalancedAt(n, elm, NULL, true)
      ensures Rotate(p).BalancedAt(n, p, NULL, true)
    {
      Surround(n);
      RotateNodeBalanced(p, color, n, NULL, true);
    }

    /** The end of the insertion: no red parent is left and the root turns black. */
    ghost function Blackened(x: Ptr): Links
      requires x in bh && x in color
    {
      this.(color := color[x := Black], bh := bh[x := bh[x] + (if color[x] == Red then 1 else 0)])
    }

    lemma InsertDone(elm: Ptr)
      requires Inserting(elm)
      requires parent[elm] == NULL || !IsRed(parent[elm])
      ensures Has(root) && Blackened(root).Valid()
    {
      assert elm == order[pos[elm]];
      assert LinkedAt(root);
      var s := Blackened(root);
      RepaintLinked(s.color, s.bh);
      forall n | n in pos ensures s.BalancedAt(n, NULL, NULL, true) {
        Surround(n);
        assert BalancedAt(n, elm, NULL, true);
        InsertDoneAt(elm, n);
      }
    }

    lemma InsertDoneAt(elm: Ptr, n: Ptr)
      requires Has(root) && root != NULL && parent[root] == NULL && Around(n)
      requires BalancedAt(n, elm, NULL, true) && (IsRed(root) ==> root == elm)
      requires Has(elm) && (parent[elm] == NULL || !IsRed(parent[elm]))
      requires n == elm ==> !IsRed(near[n]) && !IsRed(far[n])
      ensures Blackened(root).BalancedAt(n, NULL, NULL, true)
    {
    }

    /** A new leaf leaves only the colour of its parent to be checked. */
    lemma AttachInserting(p: Ptr, elm: Ptr)
      requires Valid() && Attachable(p, elm)
      ensures Attach(p, elm).Inserting(elm)
    {
      var s := Attach(p, elm);
      AttachLinked(p, elm);
      assert s.LinkedAt(elm);
      forall n | n in s.pos ensures s.BalancedAt(n, elm, NULL, true) {
        if n != elm {
          Surround(n);
          assert BalancedAt(n, NULL, NULL, true);
          AttachNodeBalanced(p, elm, n);
        }
      }
      assert LinkedAt(root);
    }

    lemma AttachNodeBalanced(p: Ptr, elm: Ptr, n: Ptr)
      requires Attachable(p, elm) && Around(n) && BalancedAt(n, NULL, NULL, true)
      ensures Attach(p, elm).BalancedAt(n, elm, NULL, true)
    {
    }

    /** The first node of a tree. */
    ghost function Plant(elm: Ptr): Links {
      Links(elm, near[elm := NULL], far[elm := NULL], parent[elm := NULL], color[elm := Red],
            [elm], map[elm := -step], map[elm := 0], map[elm := step], bh[elm := 0], step)
    }

    lemma PlantInserting(elm: Ptr)
      requires (step == 1 || step == -1) && elm != NULL
      ensures Plant(elm).Inserting(elm)
    {
      var s := Plant(elm);
      assert s.LinkedAt(elm);
      assert s.BalancedAt(elm, elm, NULL, true);
    }

    // ---- mirror images ----

    lemma MirrorBalanced(x: Ptr, q: Ptr, qNear: bool)
      requires Linked() && Balanced(x, q, qNear)
      ensures Mirror().Balanced(x, q, !qNear)
      ensures q == NULL ==> Mirror().Balanced(x, q, qNear)
    {
      forall n | n in pos ensures Mirror().BalancedAt(n, x, q, !qNear) {
        assert BalancedAt(n, x, q, qNear);
      }
      if q == NULL {
        forall n | n in pos ensures Mirror().BalancedAt(n, x, q, qNear) {
          assert LinkedAt(n);
          assert BalancedAt(n, x, q, qNear);
        }
      }
    }

    lemma MirrorInserting(elm: Ptr)
      requires Inserting(elm)
      ensures Mirror().Inserting(elm)
    {
      MirrorLinked();
      MirrorBalanced(elm, NULL, true);
      assert Mirror().LinkedAt(elm);
    }

    lemma MirrorValid()
      requires Valid()
      ensures Mirror().Valid()
    {
      MirrorLinked();
      MirrorBalanced(NULL, NULL, true);
    }

    // ---- the removal fix-up ----

    /** One side of q, with the subtree of x, is short of a black node; x itself may be red
        below a red parent. At the root (q is NULL) nothing is short. */
    ghost predicate Removing(x: Ptr, q: Ptr, qNear: bool) {
      && Linked()
      && Balanced(x, q, qNear)
      && (if q == NULL then x == root else q in pos && Has(q) && x == if qNear then near[q] else far[q])
      && (IsRed(root) ==> root == x)
    }

    /** With a black x there is no colour exception. */
    lemma RemovingBlack(x: Ptr, q: Ptr, qNear: bool)
      requires Removing(x, q, qNear) && !IsRed(x)
      ensures Removing(NULL, q, qNear) || q == NULL || x != NULL
      ensures Balanced(NULL, q, qNear) && !IsRed(root)
    {
      forall n | n in pos ensures BalancedAt(n, NULL, q, qNear) {
        assert BalancedAt(n, x, q, qNear);
      }
    }

    /** What the fix-up knows at q when the near side is short and x is black. */
    ghost predicate Short(x: Ptr, q: Ptr) {
      && Around(q) && x == near[q] && !IsRed(x) && far[q] != NULL
      && Around(far[q]) && far[q] != q && x != far[q] && Height(x) >= 0
      && BalancedAt(q, NULL, q, true) && BalancedAt(far[q], NULL, q, true)
      && LinkedAt(root) && parent[root] == NULL && !IsRed(root)
      && Balanced(NULL, q, true)
    }

    lemma RemovingShort(x: Ptr, q: Ptr)
      requires Removing(x, q, true) && q != NULL && !IsRed(x)
      ensures Short(x, q)
    {
      RemovingBlack(x, q, true);
      Surround(q);
      assert BalancedAt(q, NULL, q, true);
      if near[q] != NULL { assert BalancedAt(near[q], NULL, q, true); }
      assert Height(near[q]) >= 0;
      assert far[q] != NULL;
      Surround(far[q]);
      assert BalancedAt(far[q], NULL, q, true);
      assert q == order[pos[q]];
      assert LinkedAt(root);
    }

    /** A red sibling rises over q; the short side stays with q, whose new sibling is black. */
    lemma RemoveRedSibling(x: Ptr, q: Ptr, c: map<Ptr, Color>)
      requires Removing(x, q, true) && q != NULL && !IsRed(x) && Has(q)
      requires IsRed(far[q]) && Has(far[q]) && Swapped(color, c, q, far[q])
      ensures Rotatable(q)
      ensures Rotate(q).(color := c).Removing(x, q, true)
      ensures c[q] == Red && Rotate(q).far[q] == near[far[q]] && Rotate(q).near[q] == x
      ensures var s := Rotate(q).(color := c); !s.IsRed(x) && !s.IsRed(near[far[q]])
    {
      var s := Rotate(q).(color := c);
      RemovingShort(x, q);
      CanRotate(q);
      RotateHere(q);
      RedSiblingHere(x, q, s);
      forall n | n in pos ensures s.BalancedAt(n, x, q, true) {
        if n != q && n != far[q] {
          assert BalancedAt(n, NULL, q, true);
          Surround(n);
          RotateNodeBalanced(q, c, n, q, true);
        }
      }
      RotateRecolorLinked(q, c);
      assert !s.IsRed(s.root);
    }

    lemma RedSiblingHere(x: Ptr, q: Ptr, s: Links)
      requires Short(x, q) && IsRed(far[q]) && RotatedHere(q, s) && Swapped(color, s.color, q, far[q])
      ensures color[q] == Black
      ensures s.BalancedAt(q, x, q, true) && s.BalancedAt(far[q], x, q, true)
      ensures !s.IsRed(x) && !s.IsRed(near[far[q]])
    {
    }

    lemma RedSiblingColors(x: Ptr, q: Ptr)
      requires Removing(x, q, true) && q != NULL && !IsRed(x)
      ensures Has(q) && (IsRed(far[q]) ==> color[q] == Black && q != far[q] && Has(far[q]))
    {
      RemovingShort(x, q);
    }

    /** A black sibling with black children turns red: both sides of q are now short. */
    ghost function Lowered(q: Ptr, t: Ptr): Links
      requires q in bh && t in bh
    {
      this.(color := color[t := Red], bh := bh[t := bh[t] - 1][q := bh[q] - 1])
    }

    lemma RemoveBlackSibling(x: Ptr, q: Ptr)
      requires Removing(x, q, true) && q != NULL && !IsRed(x) && Has(q)
      requires !IsRed(far[q]) && Has(far[q]) && !IsRed(near[far[q]]) && !IsRed(far[far[q]])
      ensures var p := parent[q];
        Lowered(q, far[q]).Removing(q, p, p in near && near[p] == q)
    {
      var s, p := Lowered(q, far[q]), parent[q];
      RemovingShort(x, q);
      forall n | n in pos ensures s.BalancedAt(n, q, p, p in near && near[p] == q) {
        Surround(n);
        assert BalancedAt(n, NULL, q, true);
        LoweredNodeBalanced(x, q, n);
      }
      RepaintLinked(s.color, s.bh);
    }

    lemma LoweredNodeBalanced(x: Ptr, q: Ptr, n: Ptr)
      requires Around(q) && x == near[q] && far[q] != NULL && LinkedAt(far[q]) && x != far[q] && far[q] != q
      requires BalancedAt(q, NULL, q, true) && BalancedAt(far[q], NULL, q, true)
      requires !IsRed(far[q]) && !IsRed(near[far[q]]) && !IsRed(far[far[q]])
      requires x != NULL ==> Has(x) && bh[x] >= 0
      requires Around(n) && BalancedAt(n, NULL, q, true)
      ensures var p := parent[q]; Lowered(q, far[q]).BalancedAt(n, q, p, p in near && near[p] == q)
    {
      LoweredNodeRed(q, n);
      LoweredNodeHeight(x, q, n);
    }

    lemma LoweredNodeHeight(x: Ptr, q: Ptr, n: Ptr)
      requires Around(q) && x == near[q] && far[q] != NULL && LinkedAt(far[q]) && x != far[q] && far[q] != q
      requires HeightAt(q, q, true) && HeightAt(far[q], q, true) && !IsRed(far[q])
      requires x != NULL ==> Has(x) && bh[x] >= 0
      requires Around(n) && HeightAt(n, q, true)
      ensures var p := parent[q]; Lowered(q, far[q]).HeightAt(n, p, p in near && near[p] == q)
    {
      if n == q || n == far[q] { LoweredHere(x, q, n); } else { LoweredElsewhere(q, n); }
    }

    lemma LoweredHere(x: Ptr, q: Ptr, n: Ptr)
      requires Around(q) && x == near[q] && far[q] != NULL && LinkedAt(far[q]) && x != far[q] && far[q] != q
      requires HeightAt(q, q, true) && HeightAt(far[q], q, true) && !IsRed(far[q])
      requires x != NULL ==> Has(x) && bh[x] >= 0
      requires n == q || n == far[q]
      ensures Lowered(q, far[q]).HeightAt(n, parent[q], parent[q] in near && near[parent[q]] == q)
    {
    }

    lemma LoweredElsewhere(q: Ptr, n: Ptr)
      requires Around(q) && far[q] != NULL && LinkedAt(far[q]) && far[q] != q && Has(far[q])
      requires n != q && n != far[q] && Around(n) && HeightAt(n, q, true)
      ensures Lowered(q, far[q]).HeightAt(n, parent[q], parent[q] in near && near[parent[q]] == q)
    {
      assert near[n] != far[q] && far[n] != far[q];
    }

    lemma LoweredNodeRed(q: Ptr, n: Ptr)
      requires Around(q) && far[q] != NULL && LinkedAt(far[q]) && far[q] != q
      requires !IsRed(far[q]) && !IsRed(near[far[q]]) && !IsRed(far[far[q]])
      requires Around(n) && RedAt(n, NULL)
      ensures Lowered(q, far[q]).RedAt(n, q)
    {
    }

    /** An inner red nephew (near child of the sibling, in the tree whose far side is
        short) rises over the sibling and becomes the sibling, with a red far child. */
    lemma RemoveInnerNephew(x: Ptr, q: Ptr, t: Ptr, c: map<Ptr, Color>)
      requires Removing(x, q, false) && q != NULL && !IsRed(x) && Has(q)
      requires t == near[q] && Has(t) && !IsRed(t) && IsRed(far[t]) && Has(far[t]) && !IsRed(near[t])
      requires Swapped(color, c, t, far[t])
      ensures Rotatable(t)
      ensures var s := Rotate(t).(color := c);
        && s.Removing(x, q, false) && s.far[q] == x
        && s.near[q] == far[t] && !s.IsRed(far[t]) && s.near[far[t]] == t && s.IsRed(t) && !s.IsRed(x)
    {
      var s := Rotate(t).(color := c);
      InnerNephewFacts(x, q, t);
      RotateHere(t);
      RotateOtherKids(t, q);
      InnerNephewHere(q, t, s);
      forall n | n in pos ensures s.BalancedAt(n, x, q, false) {
        if n != t && n != far[t] {
          assert BalancedAt(n, NULL, q, false);
          Surround(n);
          RotateNodeBalanced(t, c, n, q, false);
        }
      }
      RotateRecolorLinked(t, c);
      assert !s.IsRed(s.root);
    }

    lemma InnerNephewFacts(x: Ptr, q: Ptr, t: Ptr)
      requires Removing(x, q, false) && q != NULL && !IsRed(x) && Has(q)
      requires t == near[q] && Has(t) && IsRed(far[t])
      ensures Around(q) && Around(t) && Around(far[t]) && Rotatable(t) && q != t && q != far[t] && t != NULL
      ensures x != t && x != far[t]
      ensures BalancedAt(t, NULL, q, false) && BalancedAt(far[t], NULL, q, false)
      ensures LinkedAt(root) && parent[root] == NULL && !IsRed(root) && Balanced(NULL, q, false)
    {
      RemovingBlack(x, q, false);
      Surround(q);
      assert q == order[pos[q]];
      assert LinkedAt(root);
      if x != NULL { Surround(x); assert BalancedAt(x, NULL, q, false); }
      assert BalancedAt(q, NULL, q, false);
      Surround(t);
      Surround(far[t]);
      CanRotate(t);
      assert BalancedAt(t, NULL, q, false);
      assert BalancedAt(far[t], NULL, q, false);
    }

    lemma InnerNephewHere(q: Ptr, t: Ptr, s: Links)
      requires Has(t) && RotatedHere(t, s) && Swapped(color, s.color, t, far[t])
      requires q != t && q != far[t] && !IsRed(t) && IsRed(far[t]) && !IsRed(near[t])
      requires BalancedAt(t, NULL, q, false) && BalancedAt(far[t], NULL, q, false)
      ensures s.BalancedAt(t, NULL, q, false) && s.BalancedAt(far[t], NULL, q, false)
      ensures !s.IsRed(far[t]) && s.IsRed(t)
    {
    }

    /** An outer red nephew r: the sibling rises over q with q's colour, q and r turn black
        and no side is short any more. */
    ghost function Settled(q: Ptr, c: map<Ptr, Color>, r: Ptr): Links
      requires Has(q) && Has(far[q]) && r in Rotate(q).bh
    {
      Rotate(q).(color := c[r := Black], bh := Rotate(q).bh[r := Rotate(q).bh[r] + 1])
    }

    lemma RemoveOuterNephew(x: Ptr, q: Ptr, t: Ptr, r: Ptr, c: map<Ptr, Color>)
      requires Removing(x, q, true) && q != NULL && !IsRed(x) && Has(q)
      requires t == far[q] && Has(t) && !IsRed(t) && IsRed(far[t]) && r == far[t] && Has(r)
      requires Swapped(color, c, q, t)
      ensures Turnable(q) && r in Rotate(q).bh && Settled(q, c, r).Valid()
    {
      OuterNephewFacts(x, q, t, r);
      RotatableTurnable(q);
      OuterNephewLinked(q, t, r, c);
      OuterNephewBalanced(x, q, t, r, c);
    }

    lemma OuterNephewLinked(q: Ptr, t: Ptr, r: Ptr, c: map<Ptr, Color>)
      requires Linked() && Rotatable(q) && t == far[q] && r == far[t] && LinkedAt(r) && r != q && r != t
      requires LinkedAt(root) && parent[root] == NULL && !IsRed(root) && Swapped(color, c, q, t)
      ensures r in Rotate(q).bh && Settled(q, c, r).Linked() && !Settled(q, c, r).IsRed(Settled(q, c, r).root)
    {
      RotateLinked(q);
      var s := Settled(q, c, r);
      Rotate(q).RepaintLinked(s.color, s.bh);
    }

    lemma OuterNephewBalanced(x: Ptr, q: Ptr, t: Ptr, r: Ptr, c: map<Ptr, Color>)
      requires Removing(x, q, true) && q != NULL && !IsRed(x) && Has(q)
      requires t == far[q] && Has(t) && !IsRed(t) && IsRed(far[t]) && r == far[t] && Has(r)
      requires Swapped(color, c, q, t)
      ensures Rotatable(q) && r in Rotate(q).bh && Settled(q, c, r).Balanced(NULL, NULL, true)
    {
      var s := Settled(q, c, r);
      OuterNephewReady(x, q, t, r);
      OuterNephewHere(x, q, t, r, s);
      forall n | n in pos ensures s.BalancedAt(n, NULL, NULL, true) {
        if n != q && n != t && n != r { OuterNephewRest(x, q, t, r, c, n); }
      }
    }

    lemma OuterNephewReady(x: Ptr, q: Ptr, t: Ptr, r: Ptr)
      requires Removing(x, q, true) && q != NULL && !IsRed(x) && Has(q)
      requires t == far[q] && Has(t) && !IsRed(t) && IsRed(far[t]) && r == far[t] && Has(r)
      ensures OuterNephewAt(x, q, t, r) && LinkedAt(t) && LinkedAt(r) && parent[r] == t && Rotate(q).Has(r)
    {
      OuterNephewFacts(x, q, t, r);
      RotateHere(q);
      RotateOtherKids(q, r);
    }

    lemma OuterNephewRest(x: Ptr, q: Ptr, t: Ptr, r: Ptr, c: map<Ptr, Color>, n: Ptr)
      requires Removing(x, q, true) && q != NULL && !IsRed(x) && Short(x, q) && Rotatable(q) && Rotate(q).Has(r)
      requires t == far[q] && LinkedAt(t) && r == far[t] && LinkedAt(r) && parent[r] == t && r != NULL
      requires Swapped(color, c, q, t) && n in pos && n != q && n != t && n != r
      ensures Settled(q, c, r).BalancedAt(n, NULL, NULL, true)
    {
      RemovingShort(x, q);
      assert BalancedAt(n, NULL, q, true);
      OuterNephewOther(q, t, r, c, n);
    }

    lemma OuterNephewFacts(x: Ptr, q: Ptr, t: Ptr, r: Ptr)
      requires Removing(x, q, true) && q != NULL && !IsRed(x) && Has(q)
      requires t == far[q] && Has(t) && r == far[t] && Has(r) && r != NULL
      ensures Short(x, q) && Rotatable(q) && Around(q) && Around(t) && Around(r)
      ensures r != q && r != t && r != x && parent[r] == t
      ensures near[r] != q && near[r] != t && far[r] != q && far[r] != t && near[r] != r && far[r] != r
      ensures near[q] != r && near[t] != r
      ensures BalancedAt(r, NULL, q, true)
      ensures LinkedAt(root) && parent[root] == NULL && !IsRed(root)
    {
      RemovingShort(x, q);
      CanRotate(q);
      Surround(r);
      NephewApart(q, t, r);
      assert BalancedAt(r, NULL, q, true);
    }

    /** A node, its far child and that one's far child are three nodes with other children. */
    lemma NephewApart(q: Ptr, t: Ptr, r: Ptr)
      requires Linked() && q != NULL && Has(q) && q in pos && t == far[q] && t in pos && Has(t)
      requires r == far[t] && r in pos && r != NULL && t != NULL
      ensures Has(r) && r != q && r != t && parent[r] == t && near[q] != r && near[t] != r
      ensures near[r] != q && near[r] != t && far[r] != q && far[r] != t && near[r] != r && far[r] != r
    {
      Surround(q);
      Surround(t);
      Surround(r);
      if near[q] != NULL { Surround(near[q]); }
      if near[r] != NULL { Surround(near[r]); }
      if far[r] != NULL { Surround(far[r]); }
    }

    lemma OuterNephewHere(x: Ptr, q: Ptr, t: Ptr, r: Ptr, s: Links)
      requires OuterNephewAt(x, q, t, r)
      requires exists c {:trigger Settled(q, c, r)} :: Swapped(color, c, q, t) && s == Settled(q, c, r)
      ensures s.BalancedAt(q, NULL, NULL, true) && s.BalancedAt(t, NULL, NULL, true) &&
        s.BalancedAt(r, NULL, NULL, true)
    {
      var c :| Swapped(color, c, q, t) && s == Settled(q, c, r);
      OuterNephewRed(x, q, t, r, c);
      OuterNephewHeight(x, q, t, r, c);
    }

    /** The nephew r is a red node apart from q and t, and the rotation is done. */
    ghost predicate OuterNephewAt(x: Ptr, q: Ptr, t: Ptr, r: Ptr) {
      && Short(x, q) && t == far[q] && r == far[t] && Rotatable(q) && Has(r) && r != NULL
      && r != q && r != t && r != x && near[q] != r && near[t] != r
      && near[r] != q && near[r] != t && far[r] != q && far[r] != t && near[r] != r && far[r] != r
      && !IsRed(t) && IsRed(r) && BalancedAt(r, NULL, q, true)
      && RotatedHere(q, Rotate(q)) && Rotate(q).near[r] == near[r] && Rotate(q).far[r] == far[r]
    }

    lemma OuterNephewRed(x: Ptr, q: Ptr, t: Ptr, r: Ptr, c: map<Ptr, Color>)
      requires OuterNephewAt(x, q, t, r) && Swapped(color, c, q, t)
      ensures var s := Settled(q, c, r);
        && s.Has(q) && s.Has(t) && s.Has(r) && s.RedAt(q, NULL) && s.RedAt(t, NULL) && s.RedAt(r, NULL)
    {
    }

    lemma OuterNephewHeight(x: Ptr, q: Ptr, t: Ptr, r: Ptr, c: map<Ptr, Color>)
      requires OuterNephewAt(x, q, t, r) && Swapped(color, c, q, t)
      ensures var s := Settled(q, c, r);
        && s.Has(q) && s.Has(t) && s.Has(r)
        && s.HeightAt(q, NULL, true) && s.HeightAt(t, NULL, true) && s.HeightAt(r, NULL, true)
    {
    }

    lemma OuterNephewOther(q: Ptr, t: Ptr, r: Ptr, c: map<Ptr, Color>, n: Ptr)
      requires Linked() && Rotatable(q) && n in pos && n != q && n != t && n != r
      requires t == far[q] && LinkedAt(t) && r == far[t] && LinkedAt(r) && parent[r] == t && r != NULL &&
        Rotate(q).Has(r)
      requires Swapped(color, c, q, t) && BalancedAt(n, NULL, q, true)
      ensures Settled(q, c, r).BalancedAt(n, NULL, NULL, true)
    {
      RotateNodeBalanced(q, c, n, q, true);
      OuterNephewKids(q, t, r, n);
      Rotate(q).(color := c).BlackenOther(r, n, q);
    }

    lemma OuterNephewKids(q: Ptr, t: Ptr, r: Ptr, n: Ptr)
      requires Linked() && Rotatable(q) && n in pos && n != q && n != t && n != r
      requires t == far[q] && LinkedAt(t) && r == far[t] && LinkedAt(r) && parent[r] == t && r != NULL
      ensures Rotate(q).Has(n) && Rotate(q).near[n] != r && Rotate(q).far[n] != r && n != NULL
    {
      Surround(n);
      RotateOtherKids(q, n);
    }

    /** Painting r black does not concern a node that is neither r nor its parent. */
    lemma BlackenOther(r: Ptr, n: Ptr, q: Ptr)
      requires Has(r) && n != NULL && n != r && n != q && BalancedAt(n, NULL, q, true) && near[n] != r && far[n] != r
      ensures this.(color := color[r := Black], bh := bh[r := bh[r] + 1]).BalancedAt(n, NULL, NULL, true)
    {
    }

    /** The end of the removal: the last exception turns black. */
    lemma RemoveDone(x: Ptr, q: Ptr, qNear: bool)
      requires Removing(x, q, qNear) && (IsRed(x) || q == NULL)
      ensures x == NULL ==> Valid()
      ensures x != NULL ==> Has(x) && Blackened(x).Valid()
    {
      if x == NULL {
        forall n | n in pos ensures false {
          Surround(n);
        }
      } else {
        RemoveDonePlace(x, q, qNear);
        var s := Blackened(x);
        RepaintLinked(s.color, s.bh);
        forall n | n in pos ensures s.BalancedAt(n, NULL, NULL, true) {
          Surround(n);
          assert BalancedAt(n, x, q, qNear);
          RemoveDoneAt(x, q, qNear, n);
        }
      }
    }

    lemma RemoveDonePlace(x: Ptr, q: Ptr, qNear: bool)
      requires Removing(x, q, qNear) && x != NULL
      ensures x in pos && LinkedAt(x) && parent[x] == q && (q != NULL ==> LinkedAt(q))
      ensures LinkedAt(root) && parent[root] == NULL && (IsRed(root) ==> root == x)
    {
      if q != NULL { Surround(q); }
      assert x in pos;
      Surround(x);
      assert x == order[pos[x]];
      assert LinkedAt(root);
    }

    lemma RemoveDoneAt(x: Ptr, q: Ptr, qNear: bool, n: Ptr)
      requires x != NULL && LinkedAt(x) && (IsRed(x) || parent[x] == NULL) && parent[x] == q
      requires q != NULL ==> LinkedAt(q) && x == if qNear then near[q] else far[q]
      requires Around(n) && BalancedAt(n, x, q, qNear)
      requires q == NULL || IsRed(x)
      ensures Blackened(x).BalancedAt(n, NULL, NULL, true)
    {
    }

    // ---- the two ways out of a tree, and colours ----

    /** Taking z out leaves the place of a black z short of a black node. */
    lemma UnlinkRemoving(z: Ptr)
      requires Valid() && Unlinkable(z)
      ensures var s, p := Unlink(z), parent[z];
        if color[z] == Red then s.Valid()
        else s.Removing(far[z], p, p in near && near[p] == z)
    {
      var s, p := Unlink(z), parent[z];
      UnlinkLinked(z);
      UnlinkBalanced(z);
      assert LinkedAt(root);
      assert BalancedAt(z, NULL, NULL, true);
      if color[z] == Red {
        forall n | n in s.pos ensures s.BalancedAt(n, NULL, NULL, true) {
          assert LinkedAt(n);
          assert s.BalancedAt(n, NULL, NULL, p in near && near[p] == z);
        }
      }
    }

    lemma UnlinkBalanced(z: Ptr)
      requires Valid() && Unlinkable(z)
      ensures var p := parent[z];
        Unlink(z).Balanced(far[z], if color[z] == Red then NULL else p, p in near && near[p] == z)
      ensures color[z] == Red ==> far[z] == NULL
    {
      var s, p := Unlink(z), parent[z];
      assert BalancedAt(z, NULL, NULL, true);
      if far[z] != NULL { assert BalancedAt(far[z], NULL, NULL, true); }
      var q := if color[z] == Red then NULL else p;
      forall n | n in s.pos ensures s.BalancedAt(n, far[z], q, p in near && near[p] == z) {
        Surround(n);
        assert BalancedAt(n, NULL, NULL, true);
        UnlinkNodeBalanced(z, n);
      }
    }

    lemma UnlinkNodeBalanced(z: Ptr, n: Ptr)
      requires Unlinkable(z) && BalancedAt(z, NULL, NULL, true)
      requires far[z] != NULL ==> BalancedAt(far[z], NULL, NULL, true)
      requires Around(n) && BalancedAt(n, NULL, NULL, true) && n != z
      ensures var p := parent[z];
        Unlink(z).BalancedAt(n, far[z], if color[z] == Red then NULL else p, p in near && near[p] == z)
    {
      UnlinkNodeRed(z, n);
      UnlinkNodeHeight(z, n);
    }

    lemma UnlinkNodeHeight(z: Ptr, n: Ptr)
      requires Unlinkable(z) && HeightAt(z, NULL, true) && (color[z] == Red ==> !IsRed(far[z]))
      requires far[z] != NULL ==> Has(far[z]) && HeightAt(far[z], NULL, true)
      requires Around(n) && HeightAt(n, NULL, true) && n != z
      ensures var p := parent[z];
        Unlink(z).Has(n) && Unlink(z).HeightAt(n, if color[z] == Red then NULL else p, p in near && near[p] == z)
    {
      var p := parent[z];
      if n != p { UnlinkOtherHeight(z, n, if color[z] == Red then NULL else p, p in near && near[p] == z); }
    }

    lemma UnlinkOtherHeight(z: Ptr, n: Ptr, q: Ptr, qNear: bool)
      requires Unlinkable(z) && Around(n) && HeightAt(n, NULL, true) && n != z && n != parent[z] && n != q
      ensures Unlink(z).Has(n) && Unlink(z).HeightAt(n, q, qNear)
    {
      assert near[n] != z && far[n] != z;
    }

    lemma UnlinkNodeRed(z: Ptr, n: Ptr)
      requires Unlinkable(z) && BalancedAt(z, NULL, NULL, true)
      requires Around(n) && BalancedAt(n, NULL, NULL, true) && n != z
      ensures Unlink(z).Has(n) && Unlink(z).RedAt(n, far[z])
    {
    }

    /** The node that takes the place of another takes over its colour and what it is short of. */
    lemma ReplaceBalanced(gone: Ptr, elm: Ptr, x: Ptr, q: Ptr, qNear: bool)
      requires Linked() && Replaceable(gone, elm) && Balanced(x, q, qNear) && x != gone && x != elm && q != elm
      ensures Replace(gone, elm).Balanced(x, if q == gone then elm else q, qNear)
    {
      var s := Replace(gone, elm);
      assert BalancedAt(gone, x, q, qNear);
      forall n | n in s.pos ensures s.BalancedAt(n, x, if q == gone then elm else q, qNear) {
        if n != elm { ReplaceAnyBalanced(gone, elm, n, x, q, qNear); }
      }
    }

    lemma ReplaceAnyBalanced(gone: Ptr, elm: Ptr, n: Ptr, x: Ptr, q: Ptr, qNear: bool)
      requires Linked() && Replaceable(gone, elm) && Balanced(x, q, qNear) && x != gone && x != elm && q != elm
      requires n in pos && n != gone
      ensures Replace(gone, elm).BalancedAt(n, x, if q == gone then elm else q, qNear)
    {
      Surround(n);
      assert BalancedAt(n, x, q, qNear);
      ReplaceNodeBalanced(gone, elm, n, x, q, qNear);
    }

    lemma ReplaceNodeBalanced(gone: Ptr, elm: Ptr, n: Ptr, x: Ptr, q: Ptr, qNear: bool)
      requires Replaceable(gone, elm) && Around(n) && n != gone && x != gone && x != elm && q != elm
      requires BalancedAt(n, x, q, qNear)
      ensures Replace(gone, elm).BalancedAt(n, x, if q == gone then elm else q, qNear)
    {
      ReplaceNodeRed(gone, elm, n, x);
      ReplaceNodeHeight(gone, elm, n, q, qNear);
    }

    lemma ReplaceNodeHeight(gone: Ptr, elm: Ptr, n: Ptr, q: Ptr, qNear: bool)
      requires Replaceable(gone, elm) && Around(n) && n != gone && q != elm
      requires HeightAt(n, q, qNear)
      ensures Replace(gone, elm).Has(n) && Replace(gone, elm).HeightAt(n, if q == gone then elm else q, qNear)
    {
      ReplaceNearHeight(gone, elm, n);
      ReplaceFarHeight(gone, elm, n);
    }

    lemma ReplaceNearHeight(gone: Ptr, elm: Ptr, n: Ptr)
      requires Replaceable(gone, elm) && Around(n) && n != gone
      ensures var s := Replace(gone, elm);
        s.Has(n) && s.Height(s.near[n]) == Height(near[n]) && s.bh[n] == bh[n] && s.color[n] == color[n]
    {
    }

    lemma ReplaceFarHeight(gone: Ptr, elm: Ptr, n: Ptr)
      requires Replaceable(gone, elm) && Around(n) && n != gone
      ensures var s := Replace(gone, elm); s.Has(n) && s.Height(s.far[n]) == Height(far[n])
    {
    }

    lemma ReplaceNodeRed(gone: Ptr, elm: Ptr, n: Ptr, x: Ptr)
      requires Replaceable(gone, elm) && Around(n) && n != gone && x != gone && x != elm
      requires RedAt(n, x)
      ensures Replace(gone, elm).Has(n) && Replace(gone, elm).RedAt(n, x)
    {
    }

    lemma ReplaceRemoving(gone: Ptr, elm: Ptr, x: Ptr, q: Ptr, qNear: bool)
      requires Removing(x, q, qNear) && Replaceable(gone, elm) && x != gone && x != elm && q != NULL && q != elm
      ensures Replace(gone, elm).Removing(x, if q == gone then elm else q, qNear)
    {
      ReplaceLinked(gone, elm);
      ReplaceBalanced(gone, elm, x, q, qNear);
      ReplaceShort(gone, elm, x, q, qNear);
    }

    lemma ReplaceShort(gone: Ptr, elm: Ptr, x: Ptr, q: Ptr, qNear: bool)
      requires Removing(x, q, qNear) && Replaceable(gone, elm) && x != gone && x != elm && q != NULL && q != elm
      ensures var s, p := Replace(gone, elm), if q == gone then elm else q;
        && p != NULL && p in s.pos && s.Has(p) && x == (if qNear then s.near[p] else s.far[p])
        && (s.IsRed(s.root) ==> s.root == x)
    {
      assert LinkedAt(root);
      Surround(q);
    }

    lemma ReplaceValid(gone: Ptr, elm: Ptr)
      requires Valid() && Replaceable(gone, elm)
      ensures Replace(gone, elm).Valid()
    {
      assert LinkedAt(root);
      ReplaceLinked(gone, elm);
      ReplaceBalanced(gone, elm, NULL, NULL, true);
    }

    lemma MirrorRemoving(x: Ptr, q: Ptr, qNear: bool)
      requires Removing(x, q, qNear)
      ensures Mirror().Removing(x, q, !qNear)
    {
      MirrorLinked();
      MirrorBalanced(x, q, qNear);
    }

    // ---- the steps of the fix-ups on the other side ----

    lemma InsertOuterFactsNear(elm: Ptr, p: Ptr, g: Ptr)
      requires Inserting(elm)
      requires p == parent[elm] && IsRed(p) && Has(p) && g == parent[p] && Has(g)
      ensures color[g] == Black && p != g
    {
      Surround(p);
      assert BalancedAt(g, elm, NULL, true);
      assert BalancedAt(p, elm, NULL, true);
      Surround(elm);
      assert LinkedAt(root);
      Surround(g);
    }

    lemma InsertOuterMirrored(elm: Ptr, p: Ptr, g: Ptr, c: map<Ptr, Color>)
      requires Inserting(elm)
      requires p == parent[elm] && IsRed(p) && Has(p) && g == parent[p] && Has(g)
      requires near[g] == p && near[p] == elm && !IsRed(far[g])
      requires Swapped(color, c, g, p)
      ensures var m := Mirror();
        && m.Turnable(g)
        && m.Rotate(g).(color := c).Mirror().Inserting(elm)
        && c[p] == Black && m.Rotate(g).parent[elm] == p
    {
      var m := Mirror();
      MirrorInserting(elm);
      m.InsertOuter(elm, p, g, c);
      m.RotatableTurnable(g);
      m.Rotate(g).(color := c).MirrorInserting(elm);
    }

    lemma RemoveRedSiblingMirrored(x: Ptr, q: Ptr, c: map<Ptr, Color>)
      requires Removing(x, q, false) && q != NULL && !IsRed(x) && Has(q)
      requires IsRed(near[q]) && Has(near[q]) && Swapped(color, c, q, near[q])
      ensures Mirror().Turnable(q)
      ensures var s := Mirror().Rotate(q).(color := c).Mirror();
        && s.Removing(x, q, false) && c[q] == Red && s.near[q] == far[near[q]] && s.far[q] == x
        && !s.IsRed(x) && !s.IsRed(far[near[q]])
    {
      MirrorRemoving(x, q, false);
      var m := Mirror();
      m.RemoveRedSibling(x, q, c);
      m.RotatableTurnable(q);
      m.Rotate(q).(color := c).MirrorRemoving(x, q, true);
    }

    lemma RemoveBlackSiblingMirrored(x: Ptr, q: Ptr)
      requires Removing(x, q, false) && q != NULL && !IsRed(x) && Has(q)
      requires !IsRed(near[q]) && Has(near[q]) && !IsRed(near[near[q]]) && !IsRed(far[near[q]])
      ensures var p := parent[q];
        Lowered(q, near[q]).Removing(q, p, p in near && near[p] == q)
    {
      MirrorRemoving(x, q, false);
      var m, p := Mirror(), parent[q];
      m.RemoveBlackSibling(x, q);
      m.Lowered(q, near[q]).MirrorRemoving(q, p, p in far && far[p] == q);
      assert m.Lowered(q, near[q]).Mirror() == Lowered(q, near[q]);
      Surround(q);
      if p == NULL {
        Lowered(q, near[q]).RemovingAtRoot(q, !(p in far && far[p] == q), p in near && near[p] == q);
      }
    }

    lemma RemovingAtRoot(x: Ptr, a: bool, b: bool)
      requires Removing(x, NULL, a)
      ensures Removing(x, NULL, b)
    {
      forall n | n in pos ensures BalancedAt(n, x, NULL, b) {
        assert LinkedAt(n);
        assert BalancedAt(n, x, NULL, a);
      }
    }

    lemma RemoveInnerNephewMirrored(x: Ptr, q: Ptr, t: Ptr, c: map<Ptr, Color>)
      requires Removing(x, q, true) && q != NULL && !IsRed(x) && Has(q)
      requires t == far[q] && Has(t) && !IsRed(t) && IsRed(near[t]) && Has(near[t]) && !IsRed(far[t])
      requires Swapped(color, c, t, near[t])
      ensures Mirror().Turnable(t)
      ensures var s := Mirror().Rotate(t).(color := c).Mirror();
        && s.Removing(x, q, true) && s.near[q] == x
        && s.far[q] == near[t] && !s.IsRed(near[t]) && s.far[near[t]] == t && s.IsRed(t) && !s.IsRed(x)
    {
      MirrorRemoving(x, q, true);
      var m := Mirror();
      m.RemoveInnerNephew(x, q, t, c);
      m.RotatableTurnable(t);
      m.Rotate(t).(color := c).MirrorRemoving(x, q, false);
    }

    lemma RemoveOuterNephewMirrored(x: Ptr, q: Ptr, t: Ptr, r: Ptr, c: map<Ptr, Color>)
      requires Removing(x, q, false) && q != NULL && !IsRed(x) && Has(q)
      requires t == near[q] && Has(t) && !IsRed(t) && IsRed(near[t]) && r == near[t] && Has(r)
      requires Swapped(color, c, q, t)
      ensures Mirror().Turnable(q) && r in Mirror().Rotate(q).bh && Mirror().Settled(q, c, r).Mirror().Valid()
    {
      MirrorRemoving(x, q, false);
      var m := Mirror();
      m.RemoveOuterNephew(x, q, t, r, c);
      m.Settled(q, c, r).MirrorValid();
    }

    /** The near and the far side of q cannot be confused. */
    lemma ValidRemoving()
      requires Valid()
      ensures Removing(root, NULL, true)
    {
      forall n | n in pos ensures BalancedAt(n, root, NULL, true) {
        assert LinkedAt(n);
        assert BalancedAt(n, NULL, NULL, true);
      }
    }

    /** The short side ends at the root exactly when there is no parent left. */
    lemma RemovingPlace(x: Ptr, q: Ptr, qNear: bool)
      requires Removing(x, q, qNear)
      ensures q != NULL <==> x != root
      ensures (q != NULL ==> Has(q)) && (x != NULL ==> Has(x))
    {
      if q != NULL {
        Surround(q);
        assert q == order[pos[q]];
        assert LinkedAt(root);
      }
    }

    // ---- removal of a node with two children ----

    /** elm is the successor of gone, at the near end of its far subtree. */
    ghost predicate Successor(gone: Ptr, elm: Ptr) {
      && step == 1 && gone in pos && elm in pos && Around(gone) && Around(elm)
      && near[gone] != NULL && near[elm] == NULL && pos[elm] == pos[gone] + 1
    }

    /** After the successor has left its own place, it can take over the place of gone. */
    lemma SpliceFacts(gone: Ptr, elm: Ptr)
      requires Linked() && Successor(gone, elm)
      ensures elm != gone && parent[elm] != NULL && far[elm] != gone && far[elm] != elm && parent[elm] != elm &&
        parent[gone] != elm
      ensures var s := Unlink(elm);
        && s.Linked() && s.Replaceable(gone, elm) && s.Detachable(gone)
        && s.near[gone] != NULL && s.parent[gone] == parent[gone]
    {
      UnlinkLinked(elm);
      SpliceApart(gone, elm);
      var s := Unlink(elm);
      assert s.pos[gone] == pos[gone];
      s.Surround(gone);
      s.AroundDetachable(gone);
    }

    lemma SpliceApart(gone: Ptr, elm: Ptr)
      requires Linked() && Successor(gone, elm)
      ensures elm != gone && parent[elm] != NULL && far[elm] != gone && far[elm] != elm && parent[elm] != elm &&
        parent[gone] != elm
      ensures var s := Unlink(elm);
        gone in s.pos && s.near[gone] == near[gone] && s.parent[gone] == parent[gone] && elm !in s.pos
    {
      assert far[elm] != NULL ==> LinkedAt(far[elm]);
    }

    lemma SpliceRemoving(gone: Ptr, elm: Ptr)
      requires Valid() && Successor(gone, elm)
      ensures var s := Unlink(elm);
        && s.Has(gone) && 0 <= s.pos[gone] < |s.order|
        && var t, p := s.Replace(gone, elm), parent[elm];
        if color[elm] == Red then t.Valid()
        else t.Removing(far[elm], if p == gone then elm else p, p in near && near[p] == elm)
    {
      SpliceFacts(gone, elm);
      UnlinkRemoving(elm);
      var s, p := Unlink(elm), parent[elm];
      if color[elm] == Red {
        s.ReplaceValid(gone, elm);
      } else {
        s.ReplaceRemoving(gone, elm, far[elm], p, p in near && near[p] == elm);
      }
    }

    lemma SpliceOrder(gone: Ptr, elm: Ptr)
      requires Linked() && Successor(gone, elm)
      ensures var k := pos[gone];
        && 0 <= k < |Unlink(elm).order| && Unlink(elm).order[k := elm] == Without(order, gone)
    {
      OrderWithout(gone);
      SkipOne(order, pos[gone]);
    }

    lemma SkipOne(s: seq<Ptr>, k: int)
      requires 0 <= k && k + 1 < |s|
      ensures (s[..k + 1] + s[k + 2..])[k := s[k + 1]] == s[..k] + s[k + 1..]
    {
    }

    /** Different positions hold different nodes. */
    lemma AtPosition(i: int)
      requires Linked() && 0 <= i < |order|
      ensures order[i] in pos && pos[order[i]] == i && LinkedAt(order[i])
    {
    }

    lemma OrderWithout(n: Ptr)
      requires Linked() && n in pos && Has(n)
      ensures 0 <= pos[n] < |order| && order[..pos[n]] + order[pos[n] + 1..] == Without(order, n)
    {
      assert LinkedAt(n);
      WithoutAt(order, pos[n]);
    }

    /** The two steps can be taken: elm leaves its place, then takes over that of gone. */
    ghost predicate Spliceable(gone: Ptr, elm: Ptr) {
      && Detachable(elm) && near[elm] == NULL && elm != gone
      && var s := Unlink(elm); s.Detachable(gone) && s.near[gone] != NULL && s.parent[gone] != elm
    }

    ghost function Spliced(gone: Ptr, elm: Ptr): Links
      requires Spliceable(gone, elm)
    {
      Unlink(elm).Replace(gone, elm)
    }

    /** The whole of RB_REMOVE before the colours, for a node with two children. */
    lemma SplicePlan(gone: Ptr, elm: Ptr)
      requires Valid() && Successor(gone, elm)
      ensures Spliceable(gone, elm) && Spliced(gone, elm).order == Without(order, gone)
      ensures var t, p := Spliced(gone, elm), parent[elm];
        if color[elm] == Red then t.Valid()
        else t.Removing(far[elm], if p == gone then elm else p, p in near && near[p] == elm)
    {
      AroundDetachable(elm);
      SpliceFacts(gone, elm);
      SpliceRemoving(gone, elm);
      SpliceOrder(gone, elm);
    }

    lemma UnlinkRemovingMirrored(z: Ptr)
      requires Valid() && (step == 1 || step == -1) && Around(z) && far[z] == NULL
      ensures Mirror().Detachable(z)
      ensures var s, p := Mirror().Unlink(z).Mirror(), parent[z];
        if color[z] == Red then s.Valid()
        else s.Removing(near[z], p, !(p in far && far[p] == z))
    {
      var m, p := Mirror(), parent[z];
      MirrorValid();
      AroundDetachable(z);
      m.Surround(z);
      m.UnlinkRemoving(z);
      if color[z] == Red {
        m.Unlink(z).MirrorValid();
      } else {
        m.Unlink(z).MirrorRemoving(near[z], p, p in far && far[p] == z);
      }
    }

    lemma AttachInsertingMirrored(p: Ptr, elm: Ptr)
      requires Valid() && p in pos && Has(p) && far[p] == NULL && elm != NULL && elm !in pos
      ensures 0 <= pos[p] < |order| && elm != p && Mirror().Attach(p, elm).Mirror().Inserting(elm)
    {
      assert LinkedAt(p);
      MirrorValid();
      Mirror().Surround(p);
      Mirror().AttachInserting(p, elm);
      Mirror().Attach(p, elm).MirrorInserting(elm);
    }
  }
}

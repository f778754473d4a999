/** The timer tree: net/evsys/tree.h as instantiated at net/event.c:122-124. */
module EventTree {
  import opened EventTypes
  import opened RedBlack
  import opened RedBlackShape

  class EventTree {
    var root: Ptr
    // the RB_ENTRY of every event: rbe_left, rbe_right, rbe_parent, rbe_color
    var left: map<Ptr, Ptr>
    var right: map<Ptr, Ptr>
    var parent: map<Ptr, Ptr>
    var color: map<Ptr, Color>
    // the ev_timeout of every event
    var key: map<Ptr, Timeval>

    // the nodes in order, the position of every node, the positions around its subtree and
    // its black height
    ghost var order: seq<Ptr>
    ghost var lo: map<Ptr, int>
    ghost var pos: map<Ptr, int>
    ghost var hi: map<Ptr, int>
    ghost var bh: map<Ptr, int>

    ghost function S(): Links
      reads this
    {
      Links(root, left, right, parent, color, order, lo, pos, hi, bh, 1)
    }

    constructor ()
      ensures Valid() && order == [] && key == map[]
    {
      root := NULL;
      left, right, parent, color, key := map[], map[], map[], map[], map[];
      order, lo, pos, hi, bh := [], map[], map[], map[], map[];
    }

    // ---- RB_ROTATE_LEFT, RB_ROTATE_RIGHT ----

    /** The link that leads to elm, from its parent or from the head, leads to tmp. */
    method Redirect(elm: Ptr, tmp: Ptr)
      requires elm in parent && (parent[elm] != NULL ==> parent[elm] in left && parent[elm] in right)
      modifies `root, `left, `right
      ensures var p := parent[elm];
        && root == (if p == NULL then tmp else old(root))
        && left == (if p != NULL && old(left[p]) == elm then old(left)[p := tmp] else old(left))
        && right == (if p != NULL && old(left[p]) != elm then old(right)[p := tmp] else old(right))
    {
      if parent[elm] != NULL {
        if left[parent[elm]] == elm {
          left := left[parent[elm] := tmp];
        } else {
          right := right[parent[elm] := tmp];
        }
      } else {
        root := tmp;
      }
    }

    method RotateLinksLeft(elm: Ptr)
      requires S().Turnable(elm)
      modifies `root, `left, `right, `parent
      ensures var s := old(S().Rotate(elm));
        root == s.root && left == s.near && right == s.far && parent == s.parent
    {
      ghost var p := parent[elm];
      var tmp := right[elm];
      right := right[elm := left[tmp]];
      if left[tmp] != NULL {
        parent := parent[left[tmp] := elm];
      }
      parent := parent[tmp := parent[elm]];
      assert parent[elm] == p;
      Redirect(elm, tmp);
      left := left[tmp := elm];
      parent := parent[elm := tmp];
    }

    method RotateLeft(elm: Ptr)
      requires S().Turnable(elm)
      modifies `root, `left, `right, `parent, `lo, `hi, `bh
      ensures S() == old(S().Rotate(elm))
    {
      ghost var tmp := right[elm];
      lo, hi := lo[tmp := lo[elm]], hi[elm := pos[tmp]];
      bh := bh[elm := bh[tmp]][tmp := bh[elm]];
      RotateLinksLeft(elm);
    }

    method RotateLinksRight(elm: Ptr)
      requires S().Mirror().Turnable(elm)
      modifies `root, `left, `right, `parent
      ensures var s := old(S().Mirror().Rotate(elm));
        root == s.root && left == s.far && right == s.near && parent == s.parent
    {
      ghost var p := parent[elm];
      var tmp := left[elm];
      left := left[elm := right[tmp]];
      if right[tmp] != NULL {
        parent := parent[right[tmp] := elm];
      }
      parent := parent[tmp := parent[elm]];
      assert parent[elm] == p;
      Redirect(elm, tmp);
      right := right[tmp := elm];
      parent := parent[elm := tmp];
    }

    method RotateRight(elm: Ptr)
      requires S().Mirror().Turnable(elm)
      modifies `root, `left, `right, `parent, `lo, `hi, `bh
      ensures S() == old(S().Mirror().Rotate(elm).Mirror())
    {
      ghost var tmp := left[elm];
      hi, lo := hi[tmp := hi[elm]], lo[elm := pos[tmp]];
      bh := bh[elm := bh[tmp]][tmp := bh[elm]];
      RotateLinksRight(elm);
    }

    // ---- RB_INSERT_COLOR ----

    ghost function Clamp(v: int): int
      reads this
    {
      if v < 0 then -1 else if v > |order| then |order| else v
    }

    /** The size of the interval of a node's subtree: it grows towards the root. */
    ghost function Width(n: Ptr): int
      reads this
    {
      if n in lo && n in hi then Clamp(hi[n]) - Clamp(lo[n]) else 0
    }

    ghost predicate RedParent(elm: Ptr)
      reads this
    {
      elm in parent && S().IsRed(parent[elm])
    }

    ghost function InsertMeasure(elm: Ptr): int
      reads this
    {
      if RedParent(elm) then |order| + 2 - Width(elm) else 0
    }

    lemma WidthBounds(n: Ptr)
      requires S().Linked() && n in pos
      ensures S().Has(n) && 0 < Width(n) <= |order| + 1
      ensures parent[n] != NULL ==> parent[n] in pos && Width(n) < Width(parent[n])
    {
      S().Surround(n);
    }

    /** RB_SET_BLACKRED on two nodes of opposite colours exchanges them. */
    method SetBlackRed(black: Ptr, red: Ptr)
      requires black in color && red in color && black != red
      modifies `color
      ensures color == old(color)[black := Black][red := Red]
      ensures old(color[black]) == Red && old(color[red]) == Black ==> S().Swapped(old(color), color, red, black)
    {
      color := color[black := Black];
      color := color[red := Red];
    }

    /** Red uncle: parent and uncle turn black, the grandparent red. */
    method RecolorUncle(elm: Ptr, p: Ptr, g: Ptr, u: Ptr)
      requires S().Inserting(elm)
      requires S().Has(elm) && p == parent[elm] && S().IsRed(p) && S().Has(p) && g == parent[p] && S().Has(g)
      requires (left[g] == p && right[g] == u) || (right[g] == p && left[g] == u)
      requires S().IsRed(u)
      modifies `color, `bh
      ensures S().Inserting(g)
    {
      S().RecolorBalanced(elm, p, g, u);
      color := color[u := Black];
      color := color[p := Black];
      color := color[g := Red];
      bh := bh[u := bh[u] + 1][p := bh[p] + 1];
    }

    /** elm is an inner grandchild on the left: it rises over its parent p. */
    method TurnLeft(elm: Ptr, p: Ptr, g: Ptr)
      requires S().Inserting(elm)
      requires S().Has(elm) && p == parent[elm] && S().IsRed(p) && S().Has(p) && g == parent[p] && S().Has(g)
      requires left[g] == p && right[p] == elm
      modifies `root, `left, `right, `parent, `lo, `hi, `bh
      ensures S().Inserting(p)
      ensures S().Has(p) && S().Has(elm) && S().Has(g) && parent[p] == elm && parent[elm] == g
      ensures left[g] == elm && left[elm] == p && right[g] == old(right[g])
    {
      S().InsertInner(elm, p, g);
      S().RotatableTurnable(p);
      RotateLeft(p);
      assert S().LinkedAt(p) && S().LinkedAt(elm) && S().LinkedAt(g);
    }

    method TurnRight(elm: Ptr, p: Ptr, g: Ptr)
      requires S().Inserting(elm)
      requires S().Has(elm) && p == parent[elm] && S().IsRed(p) && S().Has(p) && g == parent[p] && S().Has(g)
      requires right[g] == p && left[p] == elm
      modifies `root, `left, `right, `parent, `lo, `hi, `bh
      ensures S().Inserting(p)
      ensures S().Has(p) && S().Has(elm) && S().Has(g) && parent[p] == elm && parent[elm] == g
      ensures right[g] == elm && right[elm] == p && left[g] == old(left[g])
    {
      S().MirrorInserting(elm);
      S().Mirror().InsertInner(elm, p, g);
      S().Mirror().RotatableTurnable(p);
      ghost var m := S().Mirror().Rotate(p);
      RotateRight(p);
      assert S() == m.Mirror();
      m.MirrorInserting(p);
      assert S().LinkedAt(p) && S().LinkedAt(elm) && S().LinkedAt(g);
    }

    /** elm is an outer grandchild on the left: its parent p rises over the grandparent. */
    method RaiseLeft(elm: Ptr, p: Ptr, g: Ptr)
      requires S().Inserting(elm)
      requires S().Has(elm) && p == parent[elm] && S().IsRed(p) && S().Has(p) && g == parent[p] && S().Has(g)
      requires left[g] == p && left[p] == elm && !S().IsRed(right[g])
      modifies `root, `left, `right, `parent, `color, `lo, `hi, `bh
      ensures S().Inserting(elm) && !RedParent(elm)
    {
      ghost var m := S();
      m.InsertOuterFactsNear(elm, p, g);
      SetBlackRed(p, g);
      m.InsertOuterMirrored(elm, p, g, color);
      ghost var c := color;
      RotateRight(g);
      assert S() == m.Mirror().Rotate(g).(color := c).Mirror();
    }

    method RaiseRight(elm: Ptr, p: Ptr, g: Ptr)
      requires S().Inserting(elm)
      requires S().Has(elm) && p == parent[elm] && S().IsRed(p) && S().Has(p) && g == parent[p] && S().Has(g)
      requires right[g] == p && right[p] == elm && !S().IsRed(left[g])
      modifies `root, `left, `right, `parent, `color, `lo, `hi, `bh
      ensures S().Inserting(elm) && !RedParent(elm)
    {
      ghost var m := S();
      m.InsertOuterFacts(elm, p, g);
      SetBlackRed(p, g);
      m.InsertOuter(elm, p, g, color);
      m.RotatableTurnable(g);
      ghost var c := color;
      RotateLeft(g);
      assert S() == m.Rotate(g).(color := c);
    }

    /** One pass of the loop when the parent p of elm is a left child. */
    method InsertStepLeft(elm: Ptr, p: Ptr, g: Ptr) returns (next: Ptr)
      requires S().Inserting(elm) && RedParent(elm) && S().Has(elm) && p == parent[elm] && S().Has(p)
      requires g == parent[p] && S().Has(g) && left[g] == p
      modifies `root, `left, `right, `parent, `color, `lo, `hi, `bh
      ensures S().Inserting(next) && InsertMeasure(next) < old(InsertMeasure(elm))
    {
      InsertStepFacts(elm);
      var tmp := right[g];
      if tmp != NULL && color[tmp] == Red {
        RecolorUncle(elm, p, g, tmp);
        next := g;
      } else if right[p] == elm {
        TurnLeft(elm, p, g);
        RaiseLeft(p, elm, g);
        next := p;
      } else {
        RaiseLeft(elm, p, g);
        next := elm;
      }
    }

    /** One pass of the loop when the parent p of elm is a right child. */
    method InsertStepRight(elm: Ptr, p: Ptr, g: Ptr) returns (next: Ptr)
      requires S().Inserting(elm) && RedParent(elm) && S().Has(elm) && p == parent[elm] && S().Has(p)
      requires g == parent[p] && S().Has(g) && right[g] == p
      modifies `root, `left, `right, `parent, `color, `lo, `hi, `bh
      ensures S().Inserting(next) && InsertMeasure(next) < old(InsertMeasure(elm))
    {
      InsertStepFacts(elm);
      var tmp := left[g];
      if tmp != NULL && color[tmp] == Red {
        RecolorUncle(elm, p, g, tmp);
        next := g;
      } else if left[p] == elm {
        TurnRight(elm, p, g);
        RaiseRight(p, elm, g);
        next := p;
      } else {
        RaiseRight(elm, p, g);
        next := elm;
      }
    }

    method InsertColor(elm0: Ptr)
      requires S().Inserting(elm0)
      modifies `root, `left, `right, `parent, `color, `lo, `hi, `bh
      ensures S().Valid()
    {
      var elm := elm0;
      while parent[elm] != NULL && color[parent[elm]] == Red
        invariant S().Inserting(elm)
        decreases InsertMeasure(elm)
      {
        InsertStepFacts(elm);
        var p := parent[elm];
        var g := parent[p];
        if p == left[g] {
          elm := InsertStepLeft(elm, p, g);
        } else {
          elm := InsertStepRight(elm, p, g);
        }
      }
      BlackenRoot(elm);
    }

    method BlackenRoot(elm: Ptr)
      requires S().Inserting(elm) && !RedParent(elm)
      modifies `color, `bh
      ensures S().Valid()
    {
      S().InsertDone(elm);
      bh := bh[root := bh[root] + (if color[root] == Red then 1 else 0)];
      color := color[root := Black];
    }

    lemma InsertStepFacts(elm: Ptr)
      requires S().Inserting(elm) && RedParent(elm)
      ensures S().Has(elm)
      ensures var p := parent[elm]; S().Has(p) && var g := parent[p];
        && S().Has(g) && (left[g] == p || right[g] == p) && (left[p] == elm || right[p] == elm)
        && (left[g] != NULL ==> left[g] in color) && (right[g] != NULL ==> right[g] in color)
        && Width(elm) < Width(g) <= |order| + 1
    {
      var p := parent[elm];
      var g := parent[p];
      S().Surround(elm);
      S().Surround(p);
      assert S().LinkedAt(root);
      assert g != NULL;
      S().Surround(g);
      WidthBounds(elm);
      WidthBounds(p);
      WidthBounds(g);
    }

    // ---- RB_REMOVE_COLOR ----

    /** The loop of RB_REMOVE_COLOR goes on. */
    ghost predicate Goes(x: Ptr)
      reads this
    {
      !S().IsRed(x) && x != root
    }

    ghost function RemoveMeasure(x: Ptr, q: Ptr): int
      reads this
    {
      if Goes(x) then |order| + 2 - Width(q) else 0
    }

    /** What a pass over q finds on its short side and beside it. */
    lemma ShortFacts(x: Ptr, q: Ptr, short: bool)
      requires S().Removing(x, q, short) && Goes(x)
      ensures q != NULL && S().Has(q) && S().Has(if short then right[q] else left[q])
      ensures short <==> left[q] == x
      ensures var t := if short then right[q] else left[q];
        && t != NULL && t != q && (S().IsRed(t) ==> color[q] == Black)
        && (left[t] != NULL ==> S().Has(left[t])) && (right[t] != NULL ==> S().Has(right[t])) && left[t] != t &&
           right[t] != t
      ensures 0 < Width(q) <= |order| + 1
      ensures parent[q] != NULL ==> Width(q) < Width(parent[q])
    {
      S().RemovingPlace(x, q, short);
      if short {
        S().RemovingShort(x, q);
        S().RedSiblingColors(x, q);
      } else {
        S().MirrorRemoving(x, q, false);
        S().Mirror().RemovingShort(x, q);
        S().Mirror().RedSiblingColors(x, q);
      }
      WidthBounds(q);
    }

    /** Red sibling on the right: it rises over q. */
    method RaiseSiblingLeft(x: Ptr, q: Ptr)
      requires S().Removing(x, q, true) && Goes(x)
      requires S().Has(q) && S().IsRed(right[q])
      modifies `root, `left, `right, `parent, `color, `lo, `hi, `bh
      ensures S().Removing(x, q, true) && Goes(x) && S().IsRed(q)
      ensures S().Has(q) && !S().IsRed(right[q])
    {
      ShortFacts(x, q, true);
      ghost var m := S();
      SetBlackRed(right[q], q);
      ghost var c := color;
      m.RemoveRedSibling(x, q, c);
      m.RotatableTurnable(q);
      RotateLeft(q);
      assert S() == m.Rotate(q).(color := c);
      S().RemovingPlace(x, q, true);
    }

    method RaiseSiblingRight(x: Ptr, q: Ptr)
      requires S().Removing(x, q, false) && Goes(x)
      requires S().Has(q) && S().IsRed(left[q])
      modifies `root, `left, `right, `parent, `color, `lo, `hi, `bh
      ensures S().Removing(x, q, false) && Goes(x) && S().IsRed(q)
      ensures S().Has(q) && !S().IsRed(left[q])
    {
      ShortFacts(x, q, false);
      ghost var m := S();
      SetBlackRed(left[q], q);
      ghost var c := color;
      m.RemoveRedSiblingMirrored(x, q, c);
      RotateRight(q);
      assert S() == m.Mirror().Rotate(q).(color := c).Mirror();
      S().RemovingPlace(x, q, false);
    }

    /** The sibling t of the short side is black with black children: it turns red. */
    method LowerSibling(x: Ptr, q: Ptr, t: Ptr, ghost short: bool)
      requires S().Removing(x, q, short) && Goes(x)
      requires S().Has(q) && t == (if short then right[q] else left[q])
      requires S().Has(t) && !S().IsRed(t) && !S().IsRed(left[t]) && !S().IsRed(right[t])
      modifies `color, `bh
      ensures S().Has(q) && S().Removing(q, parent[q], parent[q] in left && left[parent[q]] == q)
      ensures S().IsRed(q) <==> old(S().IsRed(q))
    {
      ShortFacts(x, q, short);
      if short {
        S().RemoveBlackSibling(x, q);
      } else {
        S().RemoveBlackSiblingMirrored(x, q);
      }
      color := color[t := Red];
      bh := bh[t := bh[t] - 1][q := bh[q] - 1];
    }

    /** The inner nephew on the right is red and the outer one is not: it rises over tmp. */
    method TurnNephewLeft(x: Ptr, q: Ptr, tmp: Ptr)
      requires S().Removing(x, q, true) && Goes(x)
      requires S().Has(q) && tmp == right[q] && S().Has(tmp) && !S().IsRed(tmp)
      requires !S().IsRed(right[tmp]) && S().IsRed(left[tmp])
      modifies `root, `left, `right, `parent, `color, `lo, `hi, `bh
      ensures S().Removing(x, q, true) && Goes(x)
      ensures S().Has(q) && S().Has(right[q]) && !S().IsRed(right[q]) && S().IsRed(right[right[q]])
    {
      ShortFacts(x, q, true);
      ghost var m := S();
      SetBlackRed(left[tmp], tmp);
      ghost var c := color;
      m.RemoveInnerNephewMirrored(x, q, tmp, c);
      RotateRight(tmp);
      assert S() == m.Mirror().Rotate(tmp).(color := c).Mirror();
      ShortFacts(x, q, true);
    }

    method TurnNephewRight(x: Ptr, q: Ptr, tmp: Ptr)
      requires S().Removing(x, q, false) && Goes(x)
      requires S().Has(q) && tmp == left[q] && S().Has(tmp) && !S().IsRed(tmp)
      requires !S().IsRed(left[tmp]) && S().IsRed(right[tmp])
      modifies `root, `left, `right, `parent, `color, `lo, `hi, `bh
      ensures S().Removing(x, q, false) && Goes(x)
      ensures S().Has(q) && S().Has(left[q]) && !S().IsRed(left[q]) && S().IsRed(left[left[q]])
    {
      ShortFacts(x, q, false);
      ghost var m := S();
      SetBlackRed(right[tmp], tmp);
      ghost var c := color;
      m.MirrorRemoving(x, q, false);
      m.Mirror().MirrorRemoving(x, q, true);
      m.RemoveInnerNephew(x, q, tmp, c);
      m.RotatableTurnable(tmp);
      RotateLeft(tmp);
      assert S() == m.Rotate(tmp).(color := c);
      S().RemovingPlace(x, q, false);
      ShortFacts(x, q, false);
    }

    /** The outer nephew on the right is red: the sibling rises over q and all is settled. */
    method SettleLeft(x: Ptr, q: Ptr, tmp: Ptr)
      requires S().Removing(x, q, true) && Goes(x)
      requires S().Has(q) && tmp == right[q] && S().Has(tmp) && !S().IsRed(tmp) && S().IsRed(right[tmp])
      modifies `root, `left, `right, `parent, `color, `lo, `hi, `bh
      ensures S().Valid()
    {
      ShortFacts(x, q, true);
      ghost var m, c, r := S(), color[tmp := color[q]][q := Black], right[tmp];
      m.RemoveOuterNephew(x, q, tmp, r, c);
      color := color[tmp := color[q]];
      color := color[q := Black];
      if right[tmp] != NULL {
        color := color[right[tmp] := Black];
      }
      RotateLeft(q);
      bh := bh[r := bh[r] + 1];
      assert S() == m.Settled(q, c, r);
    }

    method SettleRight(x: Ptr, q: Ptr, tmp: Ptr)
      requires S().Removing(x, q, false) && Goes(x)
      requires S().Has(q) && tmp == left[q] && S().Has(tmp) && !S().IsRed(tmp) && S().IsRed(left[tmp])
      modifies `root, `left, `right, `parent, `color, `lo, `hi, `bh
      ensures S().Valid()
    {
      ShortFacts(x, q, false);
      ghost var m, c, r := S(), color[tmp := color[q]][q := Black], left[tmp];
      m.RemoveOuterNephewMirrored(x, q, tmp, r, c);
      color := color[tmp := color[q]];
      color := color[q := Black];
      if left[tmp] != NULL {
        color := color[left[tmp] := Black];
      }
      RotateRight(q);
      bh := bh[r := bh[r] + 1];
      assert S() == m.Mirror().Settled(q, c, r).Mirror();
    }

    /** The sibling turns red, and the parent's side is the short one. */
    method RiseBlack(x: Ptr, q: Ptr, tmp: Ptr, ghost side: bool) returns (next: Ptr, up: Ptr, ghost short: bool)
      requires S().Removing(x, q, side) && Goes(x)
      requires S().Has(q) && tmp == (if side then right[q] else left[q])
      requires S().Has(tmp) && !S().IsRed(tmp) && !S().IsRed(left[tmp]) && !S().IsRed(right[tmp])
      modifies `color, `bh
      ensures S().Removing(next, up, short) && next == q && up == parent[q]
      ensures up != NULL <==> next != root
      ensures up != NULL ==> S().Has(up)
      ensures S().IsRed(q) <==> old(S().IsRed(q))
    {
      LowerSibling(x, q, tmp, side);
      next := q;
      up := parent[next];
      short := up in left && left[up] == q;
      S().RemovingPlace(next, up, short);
    }

    /** One pass of the loop when the left side of q is short. */
    method RemoveStepLeft(x: Ptr, q: Ptr) returns (next: Ptr, up: Ptr, ghost short: bool)
      requires S().Removing(x, q, true) && Goes(x) && S().Has(q)
      modifies `root, `left, `right, `parent, `color, `lo, `hi, `bh
      ensures S().Removing(next, up, short)
      ensures RemoveMeasure(next, up) < old(RemoveMeasure(x, q))
    {
      ShortFacts(x, q, true);
      var tmp := right[q];
      ghost var rose := color[tmp] == Red;
      if color[tmp] == Red {
        RaiseSiblingLeft(x, q);
        ShortFacts(x, q, true);
        tmp := right[q];
      }
      if (left[tmp] == NULL || color[left[tmp]] == Black) && (right[tmp] == NULL || color[right[tmp]] == Black) {
        next, up, short := RiseBlack(x, q, tmp, true);
        assert rose ==> S().IsRed(next);
      } else {
        FinishLeft(x, q, tmp);
        next, up, short := root, NULL, true;
      }
    }

    /** One of the nephews on the right is red: the tree becomes valid. */
    method FinishLeft(x: Ptr, q: Ptr, t: Ptr)
      requires S().Removing(x, q, true) && Goes(x) && S().Has(q) && t == right[q] && S().Has(t) && !S().IsRed(t)
      requires S().IsRed(right[t]) || S().IsRed(left[t])
      modifies `root, `left, `right, `parent, `color, `lo, `hi, `bh
      ensures S().Valid() && S().Removing(root, NULL, true)
    {
      ShortFacts(x, q, true);
      var tmp := t;
      if right[tmp] == NULL || color[right[tmp]] == Black {
        TurnNephewLeft(x, q, tmp);
        tmp := right[q];
      }
      SettleLeft(x, q, tmp);
      S().ValidRemoving();
    }

    /** One pass of the loop when the right side of q is short. */
    method RemoveStepRight(x: Ptr, q: Ptr) returns (next: Ptr, up: Ptr, ghost short: bool)
      requires S().Removing(x, q, false) && Goes(x) && S().Has(q)
      modifies `root, `left, `right, `parent, `color, `lo, `hi, `bh
      ensures S().Removing(next, up, short)
      ensures RemoveMeasure(next, up) < old(RemoveMeasure(x, q))
    {
      ShortFacts(x, q, false);
      var tmp := left[q];
      ghost var rose := color[tmp] == Red;
      if color[tmp] == Red {
        RaiseSiblingRight(x, q);
        ShortFacts(x, q, false);
        tmp := left[q];
      }
      if (left[tmp] == NULL || color[left[tmp]] == Black) && (right[tmp] == NULL || color[right[tmp]] == Black) {
        next, up, short := RiseBlack(x, q, tmp, false);
        assert rose ==> S().IsRed(next);
      } else {
        FinishRight(x, q, tmp);
        next, up, short := root, NULL, true;
      }
    }

    /** One of the nephews on the left is red: the tree becomes valid. */
    method FinishRight(x: Ptr, q: Ptr, t: Ptr)
      requires S().Removing(x, q, false) && Goes(x) && S().Has(q) && t == left[q] && S().Has(t) && !S().IsRed(t)
      requires S().IsRed(left[t]) || S().IsRed(right[t])
      modifies `root, `left, `right, `parent, `color, `lo, `hi, `bh
      ensures S().Valid() && S().Removing(root, NULL, true)
    {
      ShortFacts(x, q, false);
      var tmp := t;
      if left[tmp] == NULL || color[left[tmp]] == Black {
        TurnNephewRight(x, q, tmp);
        tmp := left[q];
      }
      SettleRight(x, q, tmp);
      S().ValidRemoving();
    }

    method RemoveColor(parent0: Ptr, elm0: Ptr, ghost short0: bool)
      requires S().Removing(elm0, parent0, short0)
      modifies `root, `left, `right, `parent, `color, `lo, `hi, `bh
      ensures S().Valid()
    {
      var elm, q := elm0, parent0;
      ghost var short := short0;
      S().RemovingPlace(elm, q, short);
      while (elm == NULL || color[elm] == Black) && elm != root
        invariant S().Removing(elm, q, short)
        invariant elm != NULL ==> elm in color
        decreases RemoveMeasure(elm, q)
      {
        ShortFacts(elm, q, short);
        if left[q] == elm {
          elm, q, short := RemoveStepLeft(elm, q);
        } else {
          elm, q, short := RemoveStepRight(elm, q);
        }
        S().RemovingPlace(elm, q, short);
      }
      BlackenLast(elm, q, short);
    }

    method BlackenLast(elm: Ptr, q: Ptr, ghost short: bool)
      requires S().Removing(elm, q, short) && !Goes(elm)
      modifies `color, `bh
      ensures S().Valid()
    {
      S().RemovingPlace(elm, q, short);
      S().RemoveDone(elm, q, short);
      if elm != NULL {
        bh := bh[elm := bh[elm] + (if color[elm] == Red then 1 else 0)];
        color := color[elm := Black];
      }
    }

    // ---- RB_REMOVE ----

    /** child takes the place of elm, which has no other child. */
    method Unhook(elm: Ptr, child: Ptr)
      requires S().Has(elm) && 0 <= pos[elm] < |order|
      requires parent[elm] != NULL ==> S().Has(parent[elm])
      requires child != NULL ==> parent[elm] != elm && child != elm
      modifies `root, `left, `right, `parent
      ensures var p := old(parent[elm]);
        && root == (if p == NULL then child else old(root))
        && left == (if p != NULL && old(left[p]) == elm then old(left)[p := child] else old(left))
        && right == (if p != NULL && old(left[p]) != elm then old(right)[p := child] else old(right))
        && parent == (if child != NULL then old(parent)[child := p] else old(parent))
    {
      var p := parent[elm];
      if child != NULL {
        parent := parent[child := p];
      }
      if p != NULL {
        if left[p] == elm {
          left := left[p := child];
        } else {
          right := right[p := child];
        }
      } else {
        root := child;
      }
    }

    /** elm, without a left child, leaves the tree. */
    method UnlinkLeftless(elm: Ptr)
      requires S().Detachable(elm) && left[elm] == NULL
      modifies `root, `left, `right, `parent, `order, `lo, `pos, `hi
      ensures S() == old(S().Unlink(elm))
    {
      ghost var k := pos[elm];
      Unhook(elm, right[elm]);
      order := order[..k] + order[k + 1..];
      lo, pos, hi := Shift(lo, k, -1) - {elm}, Shift(pos, k + 1, -1) - {elm}, Shift(hi, k + 1, -1) - {elm};
    }

    method UnlinkRightless(elm: Ptr)
      requires S().Mirror().Detachable(elm) && right[elm] == NULL
      modifies `root, `left, `right, `parent, `order, `lo, `pos, `hi
      ensures S() == old(S().Mirror().Unlink(elm).Mirror())
    {
      ghost var k := pos[elm];
      Unhook(elm, left[elm]);
      order := order[..k] + order[k + 1..];
      hi, pos, lo := Shift(hi, k + 1, -1) - {elm}, Shift(pos, k + 1, -1) - {elm}, Shift(lo, k, -1) - {elm};
    }

    /** The node elm, not in the tree any more, takes over all links of gone. */
    method TakeOverLinks(gone: Ptr, elm: Ptr)
      requires S().Detachable(gone) && left[gone] != NULL && elm != gone && elm != parent[gone]
      modifies `root, `left, `right, `parent, `color
      ensures var s := old(S().Replace(gone, elm));
        root == s.root && left == s.near && right == s.far && parent == s.parent && color == s.color
    {
      var l, r := left[gone], right[gone];
      left, right := left[elm := l], right[elm := r];
      parent, color := parent[elm := parent[gone]], color[elm := color[gone]];
      Redirect(gone, elm);
      parent := parent[l := elm];
      if r != NULL {
        parent := parent[r := elm];
      }
    }

    method TakeOver(gone: Ptr, elm: Ptr)
      requires S().Detachable(gone) && left[gone] != NULL && elm != gone && elm != parent[gone]
      modifies `root, `left, `right, `parent, `color, `order, `lo, `pos, `hi, `bh
      ensures S() == old(S().Replace(gone, elm))
    {
      ghost var k, l, h, b := pos[gone], lo[gone], hi[gone], bh[gone];
      TakeOverLinks(gone, elm);
      order := order[k := elm];
      lo, pos, hi, bh := lo[elm := l] - {gone}, pos[elm := k] - {gone}, hi[elm := h] - {gone}, bh[elm := b];
    }

    /** Down the left links from n. */
    method Leftmost(n: Ptr) returns (m: Ptr)
      requires S().Linked() && n in pos && S().Has(n)
      ensures m in pos && S().Around(m) && left[m] == NULL && lo[m] == lo[n]
    {
      m := n;
      S().Surround(m);
      while left[m] != NULL
        invariant m in pos && S().Around(m) && lo[m] == lo[n]
        decreases Width(m)
      {
        WidthBounds(left[m]);
        m := left[m];
        S().Surround(m);
      }
    }

    method FixUp(c: Color, p: Ptr, child: Ptr, ghost short: bool)
      requires if c == Red then S().Valid() else S().Removing(child, p, short)
      modifies `root, `left, `right, `parent, `color, `lo, `hi, `bh
      ensures S().Valid()
    {
      if c == Black {
        RemoveColor(p, child, short);
      }
    }

    /** elm leaves its place and takes over that of gone. */
    method Splice(gone: Ptr, elm: Ptr)
      requires S().Spliceable(gone, elm)
      modifies `root, `left, `right, `parent, `color, `order, `lo, `pos, `hi, `bh
      ensures S() == old(S().Spliced(gone, elm))
    {
      UnlinkLeftless(elm);
      TakeOver(gone, elm);
    }

    /** RB_REMOVE of a node with two children, whose successor is elm. */
    method RemoveInner(gone: Ptr, elm: Ptr)
      requires S().Has(elm) && S().Spliceable(gone, elm)
      requires var t, p := S().Spliced(gone, elm), parent[elm];
        if color[elm] == Red then t.Valid()
        else t.Removing(right[elm], if p == gone then elm else p, p in left && left[p] == elm)
      modifies `root, `left, `right, `parent, `color, `order, `lo, `pos, `hi, `bh
      ensures S().Valid() && order == old(S().Spliced(gone, elm).order)
    {
      var child, p, c := right[elm], parent[elm], color[elm];
      ghost var short := p in left && left[p] == elm;
      if p == gone {
        p := elm;
      }
      Splice(gone, elm);
      FixUp(c, p, child, short);
    }

    /** RB_REMOVE of a node without a left child. */
    method RemoveLeftless(elm: Ptr)
      requires S().Valid() && elm in pos && S().Around(elm) && left[elm] == NULL
      modifies `root, `left, `right, `parent, `color, `order, `lo, `pos, `hi, `bh
      ensures S().Valid() && order == Without(old(order), elm)
    {
      ghost var s := S();
      s.AroundDetachable(elm);
      s.UnlinkRemoving(elm);
      s.OrderWithout(elm);
      var child, p, c := right[elm], parent[elm], color[elm];
      ghost var short := p in left && left[p] == elm;
      UnlinkLeftless(elm);
      FixUp(c, p, child, short);
    }

    method RemoveRightless(elm: Ptr)
      requires S().Valid() && elm in pos && S().Around(elm) && right[elm] == NULL
      modifies `root, `left, `right, `parent, `color, `order, `lo, `pos, `hi, `bh
      ensures S().Valid() && order == Without(old(order), elm)
    {
      ghost var s := S();
      s.AroundDetachable(elm);
      s.UnlinkRemovingMirrored(elm);
      s.OrderWithout(elm);
      var child, p, c := left[elm], parent[elm], color[elm];
      ghost var short := !(p in right && right[p] == elm);
      UnlinkRightless(elm);
      FixUp(c, p, child, short);
    }

    // ---- the order of the timers ----

    ghost function Cmp(a: Ptr, b: Ptr): int
      requires a in key && b in key
      reads this
    {
      Compare(key[a], a, key[b], b)
    }

    /** A sequence of nodes in the order of their timeouts. */
    ghost predicate SortedSeq(o: seq<Ptr>)
      reads this
    {
      && (forall i {:trigger o[i]} :: 0 <= i < |o| ==> o[i] in key)
      && (forall i, j {:trigger o[i], o[j]} :: 0 <= i < j < |o| ==> Cmp(o[i], o[j]) < 0)
    }

    ghost predicate Sorted()
      reads this
    {
      SortedSeq(order)
    }

    /** A red-black tree that is a search tree under `compare`. */
    ghost predicate Valid()
      reads this
    {
      S().Valid() && Sorted()
    }

    /** The way from n to the bottom. */
    ghost function Below(n: Ptr): nat
      requires S().Linked()
      reads this
    {
      if n == NULL || n !in pos then 0 else Depth(Unfold(S(), n))
    }

    lemma BelowBound()
      requires S().Valid()
      ensures root != NULL ==> root in pos
      ensures Logarithmic(Below(root), |order|)
    {
      ValidIsRedBlack(S());
      DepthBound(Unfold(S(), root));
    }

    lemma StepsBound(steps: nat)
      requires S().Valid() && steps <= Below(root)
      ensures Logarithmic(steps, |order|)
    {
      BelowBound();
      Pow2Monotone(steps, Below(root));
    }

    lemma BelowStep(n: Ptr)
      requires S().Linked() && n in pos
      ensures S().Has(n) && left[n] != n
      ensures left[n] != NULL ==> left[n] in pos
      ensures right[n] != NULL ==> right[n] in pos
      ensures Below(n) >= 1 + Below(left[n]) && Below(n) >= 1 + Below(right[n])
    {
      S().Surround(n);
    }

    // ---- RB_FIND ----

    /** elm lies strictly between the positions l and h. */
    ghost predicate Bracketed(elm: Ptr, l: int, h: int)
      requires elm in key && Sorted()
      reads this
    {
      && -1 <= l < h <= |order|
      && (forall i {:trigger order[i]} :: 0 <= i <= l ==> Cmp(order[i], elm) < 0)
      && (forall i {:trigger order[i]} :: h <= i < |order| ==> Cmp(elm, order[i]) < 0)
    }

    /** Comparing with the node n between l and h narrows the bracket. */
    lemma Narrow(elm: Ptr, n: Ptr, l: int, h: int)
      requires elm in key && Valid() && Bracketed(elm, l, h)
      requires n in pos && S().Has(n) && lo[n] == l && hi[n] == h
      ensures n in key && l < pos[n] < h && order[pos[n]] == n
      ensures Cmp(elm, n) < 0 ==> Bracketed(elm, l, pos[n])
      ensures Cmp(elm, n) > 0 ==> Bracketed(elm, pos[n], h)
    {
      S().Surround(n);
      var k := pos[n];
      if Cmp(elm, n) < 0 {
        forall i | k <= i < |order| ensures Cmp(elm, order[i]) < 0 {
          CompareTotalOrder(key[elm], elm, key[n], n, key[order[i]], order[i]);
        }
      } else if Cmp(elm, n) > 0 {
        forall i | 0 <= i <= k ensures Cmp(order[i], elm) < 0 {
          CompareTotalOrder(key[order[i]], order[i], key[n], n, key[elm], elm);
          CompareTotalOrder(key[n], n, key[elm], elm, key[elm], elm);
        }
      }
    }

    /** The end of the descent: elm belongs on side comp of its parent p. */
    ghost predicate Gap(p: Ptr, comp: int, k: int)
      reads this
    {
      if p == NULL then root == NULL && k == 0
      else
        && p in pos && S().Around(p)
        && (if comp < 0 then left[p] == NULL && pos[p] == k else right[p] == NULL && pos[p] + 1 == k)
    }

    /** A descent for elm has looked at `steps` nodes and stands at tmp. */
    ghost predicate Probing(elm: Ptr, tmp: Ptr, l: int, h: int, steps: nat)
      requires Valid() && elm in key
      reads this
    {
      && Bracketed(elm, l, h)
      && (if tmp == NULL then h == l + 1 else tmp in pos && S().Has(tmp) && lo[tmp] == l && hi[tmp] == h)
      && steps + Below(tmp) <= Below(root)
    }

    lemma ProbeStart(elm: Ptr)
      requires Valid() && elm in key
      ensures Probing(elm, root, -1, |order|, 0)
      ensures root == NULL ==> Gap(NULL, 0, |order|)
    {
      if root != NULL { S().Surround(root); }
    }

    lemma ProbeStep(elm: Ptr, tmp: Ptr, l: int, h: int, steps: nat)
      requires Valid() && elm in key && Probing(elm, tmp, l, h, steps) && tmp != NULL
      ensures S().Around(tmp) && tmp in key
      ensures Cmp(elm, tmp) < 0 ==> Probing(elm, left[tmp], l, pos[tmp], steps + 1)
      ensures Cmp(elm, tmp) > 0 ==> Probing(elm, right[tmp], pos[tmp], h, steps + 1)
      ensures Cmp(elm, tmp) == 0 ==> tmp == elm
      ensures Cmp(elm, tmp) < 0 && left[tmp] == NULL ==> Gap(tmp, Cmp(elm, tmp), pos[tmp])
      ensures Cmp(elm, tmp) > 0 && right[tmp] == NULL ==> Gap(tmp, Cmp(elm, tmp), h)
      ensures Below(tmp) > Below(left[tmp]) && Below(tmp) > Below(right[tmp])
      ensures Logarithmic(steps + 1, |order|)
    {
      Narrow(elm, tmp, l, h);
      BelowStep(tmp);
      S().Surround(tmp);
      StepsBound(steps + 1);
    }

    lemma ProbeEnd(elm: Ptr, l: int, h: int, steps: nat)
      requires Valid() && elm in key && Probing(elm, NULL, l, h, steps)
      ensures elm !in pos && Bracketed(elm, h - 1, h)
      ensures Logarithmic(steps, |order|)
    {
      StepsBound(steps);
      if elm in pos {
        S().Surround(elm);
        assert false;
      }
    }

    /** RB_FIND, with the number of nodes it looks at. */
    method Find(elm: Ptr) returns (found: Ptr, ghost steps: nat)
      requires Valid() && elm in key
      ensures found == if elm in pos then elm else NULL
      ensures Logarithmic(steps, |order|)
    {
      var tmp := root;
      ghost var l, h := -1, |order|;
      steps := 0;
      ProbeStart(elm);
      while tmp != NULL
        invariant Probing(elm, tmp, l, h, steps)
        decreases Below(tmp)
      {
        ProbeStep(elm, tmp, l, h, steps);
        steps := steps + 1;
        var comp := Compare(key[elm], elm, key[tmp], tmp);
        if comp < 0 {
          h := pos[tmp];
          tmp := left[tmp];
        } else if comp > 0 {
          l := pos[tmp];
          tmp := right[tmp];
        } else {
          return tmp, steps;
        }
      }
      ProbeEnd(elm, l, h, steps);
      return NULL, steps;
    }

    // ---- RB_INSERT ----

    /** RB_SET */
    method SetEntry(elm: Ptr, p: Ptr)
      modifies `left, `right, `parent, `color
      ensures parent == old(parent)[elm := p] && left == old(left)[elm := NULL] && right == old(right)[elm := NULL]
      ensures color == old(color)[elm := Red]
    {
      parent := parent[elm := p];
      left := left[elm := NULL];
      right := right[elm := NULL];
      color := color[elm := Red];
    }

    method AttachLeft(p: Ptr, elm: Ptr)
      requires S().Has(p) && 0 <= pos[p] < |order| && elm != p
      modifies `left, `right, `parent, `color, `order, `lo, `pos, `hi, `bh
      ensures S() == old(S().Attach(p, elm))
    {
      ghost var k := pos[p];
      SetEntry(elm, p);
      left := left[p := elm];
      order := order[..k] + [elm] + order[k..];
      lo, hi := Shift(lo, k, 1)[elm := Moved(lo[p], k, 1)], Shift(hi, k + 1, 1)[elm := Moved(k, k, 1)];
      pos, bh := Shift(pos, k, 1)[elm := k], bh[elm := 0];
    }

    method AttachRight(p: Ptr, elm: Ptr)
      requires S().Has(p) && 0 <= pos[p] < |order| && elm != p
      modifies `left, `right, `parent, `color, `order, `lo, `pos, `hi, `bh
      ensures S() == old(S().Mirror().Attach(p, elm).Mirror())
    {
      MakeRoomRight(p, elm);
      SetEntry(elm, p);
      right := right[p := elm];
    }

    ghost method MakeRoomRight(p: Ptr, elm: Ptr)
      requires S().Has(p) && 0 <= pos[p] < |order| && elm != p
      modifies `order, `lo, `pos, `hi, `bh
      ensures var s := old(S().Mirror().Attach(p, elm));
        order == s.order && hi == s.nearEnd && pos == s.pos && lo == s.farEnd && bh == s.bh
    {
      var k := pos[p] + 1;
      order := order[..k] + [elm] + order[k..];
      hi, lo := Shift(hi, k, 1)[elm := Moved(hi[p], k, 1)], Shift(lo, k - 1, 1)[elm := Moved(k - 1, k, 1)];
      pos, bh := Shift(pos, k, 1)[elm := k], bh[elm := 0];
    }

    method Plant(elm: Ptr)
      requires root == NULL && S().Linked() && elm != NULL
      modifies `root, `left, `right, `parent, `color, `order, `lo, `pos, `hi, `bh
      ensures S() == old(S().Plant(elm))
    {
      SetEntry(elm, NULL);
      root := elm;
      order, lo, pos, hi, bh := [elm], map[elm := -1], map[elm := 0], map[elm := 1], bh[elm := 0];
    }

    /** RB_SET and the link from the parent or the head. */
    method Hang(p: Ptr, comp: int, elm: Ptr, ghost k: int)
      requires S().Valid() && Gap(p, comp, k) && elm != NULL && elm !in pos && 0 <= k <= |order|
      modifies `root, `left, `right, `parent, `color, `order, `lo, `pos, `hi, `bh
      ensures S().Inserting(elm) && order == old(order[..k] + [elm] + order[k..])
    {
      if p == NULL {
        HangRoot(elm, k);
      } else if comp < 0 {
        HangLeft(p, elm, k);
      } else {
        HangRight(p, elm, k);
      }
    }

    method HangRoot(elm: Ptr, ghost k: int)
      requires S().Valid() && Gap(NULL, 0, k) && elm != NULL && elm !in pos && 0 <= k <= |order|
      modifies `root, `left, `right, `parent, `color, `order, `lo, `pos, `hi, `bh
      ensures S().Inserting(elm) && order == old(order[..k] + [elm] + order[k..])
    {
      S().PlantInserting(elm);
      Plant(elm);
    }

    method HangLeft(p: Ptr, elm: Ptr, ghost k: int)
      requires S().Valid() && p != NULL && Gap(p, -1, k) && elm != NULL && elm !in pos && 0 <= k <= |order|
      modifies `root, `left, `right, `parent, `color, `order, `lo, `pos, `hi, `bh
      ensures S().Inserting(elm) && order == old(order[..k] + [elm] + order[k..])
    {
      S().AttachInserting(p, elm);
      AttachLeft(p, elm);
    }

    method HangRight(p: Ptr, elm: Ptr, ghost k: int)
      requires S().Valid() && p != NULL && Gap(p, 1, k) && elm != NULL && elm !in pos && 0 <= k <= |order|
      modifies `root, `left, `right, `parent, `color, `order, `lo, `pos, `hi, `bh
      ensures S().Inserting(elm) && order == old(order[..k] + [elm] + order[k..])
    {
      S().AttachInsertingMirrored(p, elm);
      AttachRight(p, elm);
    }

    /** The descent of RB_INSERT: elm itself, or the place where it belongs. */
    method Descend(elm: Ptr) returns (found: Ptr, p: Ptr, comp: int, ghost k: int, ghost steps: nat)
      requires Valid() && elm in key
      ensures found == if elm in pos then elm else NULL
      ensures found == NULL ==> 0 <= k <= |order| && Gap(p, comp, k) && Bracketed(elm, k - 1, k)
      ensures Logarithmic(steps, |order|)
    {
      var tmp := root;
      p, comp := NULL, 0;
      ghost var l;
      l, k, steps := -1, |order|, 0;
      ProbeStart(elm);
      while tmp != NULL
        invariant Probing(elm, tmp, l, k, steps)
        invariant tmp == NULL ==> Gap(p, comp, k)
        decreases Below(tmp)
      {
        ProbeStep(elm, tmp, l, k, steps);
        steps := steps + 1;
        p := tmp;
        comp := Compare(key[elm], elm, key[p], p);
        if comp < 0 {
          k := pos[p];
          tmp := left[tmp];
        } else if comp > 0 {
          l := pos[p];
          tmp := right[tmp];
        } else {
          return tmp, p, comp, k, steps;
        }
      }
      ProbeEnd(elm, l, k, steps);
      found := NULL;
    }

    /** RB_INSERT: elm gets its ordered place, unless the tree has it already. */
    method Insert(elm: Ptr) returns (found: Ptr, ghost steps: nat)
      requires Valid() && elm in key && elm != NULL
      modifies `root, `left, `right, `parent, `color, `order, `lo, `pos, `hi, `bh
      ensures Valid()
      ensures elm in old(pos) ==> found == elm && S() == old(S())
      ensures elm !in old(pos) ==> found == NULL && exists k {:trigger old(order)[..k]} ::
        0 <= k <= |old(order)| && order == old(order)[..k] + [elm] + old(order)[k..]
      ensures Logarithmic(steps, |old(order)|)
    {
      var p, comp;
      ghost var o, k := order, 0;
      found, p, comp, k, steps := Descend(elm);
      if found == NULL {
        Place(p, comp, elm, k);
        assert order == o[..k] + [elm] + o[k..];
      }
    }

    method Place(p: Ptr, comp: int, elm: Ptr, ghost k: int)
      requires Valid() && elm in key && elm != NULL && elm !in pos
      requires 0 <= k <= |order| && Gap(p, comp, k) && Bracketed(elm, k - 1, k)
      modifies `root, `left, `right, `parent, `color, `order, `lo, `pos, `hi, `bh
      ensures Valid() && order == old(order[..k] + [elm] + order[k..])
    {
      InsertedSorted(elm, k);
      HangBalanced(p, comp, elm, k);
    }

    method HangBalanced(p: Ptr, comp: int, elm: Ptr, ghost k: int)
      requires S().Valid() && Gap(p, comp, k) && elm != NULL && elm !in pos && 0 <= k <= |order|
      modifies `root, `left, `right, `parent, `color, `order, `lo, `pos, `hi, `bh
      ensures S().Valid() && order == old(order[..k] + [elm] + order[k..])
    {
      Hang(p, comp, elm, k);
      InsertColor(elm);
    }

    /** elm between its neighbours leaves the sequence sorted. */
    lemma InsertedSorted(elm: Ptr, k: int)
      requires elm in key && Valid() && Bracketed(elm, k - 1, k)
      ensures SortedSeq(order[..k] + [elm] + order[k..])
    {
      var o := order[..k] + [elm] + order[k..];
      forall i | 0 <= i < |o| ensures o[i] == if i < k then order[i] else if i == k then elm else order[i - 1] {
      }
    }

    lemma SortedSkip(o: seq<Ptr>, k: int)
      requires SortedSeq(o) && 0 <= k < |o|
      ensures SortedSeq(o[..k] + o[k + 1..])
    {
      var w := o[..k] + o[k + 1..];
      forall i | 0 <= i < |w| ensures w[i] == o[if i < k then i else i + 1] {
      }
    }

    method RemoveNode(elm: Ptr)
      requires S().Valid() && elm in pos
      modifies `root, `left, `right, `parent, `color, `order, `lo, `pos, `hi, `bh
      ensures S().Valid() && order == Without(old(order), elm)
    {
      S().Surround(elm);
      if left[elm] == NULL {
        RemoveLeftless(elm);
      } else if right[elm] == NULL {
        RemoveRightless(elm);
      } else {
        S().Surround(right[elm]);
        var next := Leftmost(right[elm]);
        S().SplicePlan(elm, next);
        RemoveInner(elm, next);
      }
    }

    /** RB_REMOVE: elm leaves the tree, every other node stays itself and keeps its place. */
    method Remove(elm: Ptr) returns (gone: Ptr)
      requires Valid() && elm in pos
      modifies `root, `left, `right, `parent, `color, `order, `lo, `pos, `hi, `bh
      ensures Valid() && gone == elm && order == Without(old(order), elm)
    {
      RemovedSorted(elm);
      RemoveNode(elm);
      gone := elm;
    }

    lemma RemovedSorted(elm: Ptr)
      requires Valid() && elm in pos
      ensures SortedSeq(Without(order, elm))
    {
      S().Surround(elm);
      S().OrderWithout(elm);
      SortedSkip(order, pos[elm]);
    }

    // ---- RB_MINMAX and RB_NEXT ----

    /** The node at position i, or NULL beyond both ends. */
    ghost function At(i: int): Ptr
      reads this
    {
      if 0 <= i < |order| then order[i] else NULL
    }

    /** RB_MIN is MinMax(-1), RB_MAX is MinMax(1). */
    method MinMax(val: int) returns (m: Ptr, ghost steps: nat)
      requires S().Valid()
      ensures m == At(if val < 0 then 0 else |order| - 1)
      ensures Logarithmic(steps, |order|)
    {
      var tmp := root;
      m := NULL;
      steps := 0;
      assert root != NULL ==> S().LinkedAt(root);
      while tmp != NULL
        invariant tmp != NULL ==> tmp in pos && S().Has(tmp) && (if val < 0 then lo[tmp] == -1 else hi[tmp] == |order|)
        invariant m == NULL ==> tmp == root
        invariant tmp == NULL && m != NULL ==>
          m in pos && S().LinkedAt(m) && (if val < 0 then pos[m] == 0 else pos[m] == |order| - 1)
        invariant steps + Below(tmp) <= Below(root)
        decreases Below(tmp)
      {
        BelowStep(tmp);
        S().Surround(tmp);
        m := tmp;
        steps := steps + 1;
        if val < 0 {
          tmp := left[tmp];
        } else {
          tmp := right[tmp];
        }
      }
      StepsBound(steps);
    }

    /** RB_NEXT: the node after elm, or NULL after the last one. */
    method Next(elm: Ptr) returns (next: Ptr)
      requires S().Linked() && elm in pos
      ensures S().Around(elm)
      ensures next == At(pos[elm] + 1)
    {
      S().Surround(elm);
      if right[elm] != NULL {
        next := Leftmost(right[elm]);
      } else if parent[elm] != NULL && elm == left[parent[elm]] {
        next := parent[elm];
      } else {
        next := Ascend(elm);
      }
    }

    /** Up the tree, past the nodes whose right subtree ends with elm. */
    method Ascend(elm: Ptr) returns (next: Ptr)
      requires S().Linked() && elm in pos && S().Around(elm) && right[elm] == NULL
      ensures next == At(pos[elm] + 1)
    {
      var n := elm;
      while parent[n] != NULL && n == right[parent[n]]
        invariant n in pos && S().Around(n) && hi[n] == pos[elm] + 1
        decreases |order| + 1 - Width(n)
      {
        WidthBounds(n);
        WidthBounds(parent[n]);
        S().Surround(parent[n]);
        n := parent[n];
      }
      next := parent[n];
      if next != NULL {
        S().Surround(next);
      } else {
        assert n == root;
      }
    }

    /** The keys of `pos` are the elements of `order`. */
    lemma Member(e: Ptr)
      requires S().Linked()
      ensures e in pos <==> e in order
    {
      Members(e);
    }

    lemma Members(e: Ptr)
      requires S().Linked()
      ensures e in pos <==> e in order
      ensures NoRepeats(order) && NULL !in order
    {
      if e in pos { S().Surround(e); assert order[pos[e]] == e; }
      forall i, j | 0 <= i < j < |order| ensures order[i] != order[j] {
        S().AtPosition(i);
        S().AtPosition(j);
      }
      forall i | 0 <= i < |order| ensures order[i] != NULL {
        S().AtPosition(i);
      }
    }

    // ---- timeout_correct (net/event.c:675-685) ----

    ghost predicate NormalKeys()
      reads this
    {
      forall n {:trigger key[n]} :: n in key ==> key[n].Normal()
    }

    /** One round: the key of ev, at position i, is rewritten before RB_NEXT is taken. */
    method CorrectOne(ev: Ptr, off: Timeval, ghost i: int) returns (next: Ptr)
      requires S().Linked() && 0 <= i < |order| && ev == order[i] && ev in key
      modifies `key
      ensures key == old(key)[ev := old(key)[ev].Sub(off)]
      ensures next == At(i + 1) && ev !in order[..i] && order[..i + 1] == order[..i] + [ev]
    {
      S().AtPosition(i);
      key := key[ev := key[ev].Sub(off)];
      next := Next(ev);
    }

    /** RB_FOREACH over the timers, in their order, while their keys change in place. */
    method TimeoutCorrect(off: Timeval) returns (ghost visited: seq<Ptr>)
      requires Valid() && NormalKeys() && off.Normal()
      modifies `key
      ensures visited == order
      ensures key.Keys == old(key).Keys
      ensures forall n {:trigger key[n]} :: n in key ==>
        key[n] == if n in pos then old(key[n]).Sub(off) else old(key[n])
      ensures Valid() && NormalKeys()
    {
      ghost var k, i := key, 0;
      var ev;
      ghost var steps;
      ev, steps := MinMax(-1);
      visited := [];
      while ev != NULL
        invariant S() == old(S())
        invariant 0 <= i <= |order| && visited == order[..i] && ev == At(i)
        invariant key.Keys == k.Keys
        invariant forall n {:trigger key[n]} :: n in key ==>
          key[n] == if n in visited then k[n].Sub(off) else k[n]
        decreases |order| - i
      {
        visited := visited + [ev];
        ev := CorrectOne(ev, off, i);
        i := i + 1;
      }
      if i < |order| { S().AtPosition(i); }
      assert visited == order;
      CorrectedSorted(k, off);
    }

    lemma CorrectedSorted(k: map<Ptr, Timeval>, off: Timeval)
      requires S().Valid() && off.Normal() && key.Keys == k.Keys
      requires forall n {:trigger k[n]} :: n in k ==> k[n].Normal()
      requires forall i {:trigger order[i]} :: 0 <= i < |order| ==> order[i] in k
      requires forall i, j {:trigger order[i], order[j]} :: 0 <= i < j < |order| ==>
        Compare(k[order[i]], order[i], k[order[j]], order[j]) < 0
      requires forall n {:trigger key[n]} :: n in key ==>
        key[n] == if n in order then k[n].Sub(off) else k[n]
      ensures Sorted() && NormalKeys()
      ensures forall n {:trigger key[n]} :: n in key ==> key[n] == if n in pos then k[n].Sub(off) else k[n]
    {
      forall i, j | 0 <= i < j < |order| ensures Cmp(order[i], order[j]) < 0 {
        CompareShifted(k[order[i]], order[i], k[order[j]], order[j], off);
      }
      forall n | n in key ensures key[n].Normal() && key[n] == if n in pos then k[n].Sub(off) else k[n] {
        if n in pos { S().Surround(n); assert n == order[pos[n]]; }
        TimevalArithmetic(k[n], off);
      }
    }
  }
}

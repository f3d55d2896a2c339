/** Linked nodes: the objects `parse` creates and `addChild`, `drop` and
    `getPath` work on.

    A node holds its configuration, its id, whether its model has a children
    field, a `parent` link (null for a root) and the ordered `children`
    links.  The tree a root stands for is described by a ghost `Shape`: the
    node, the `hasField` flag it is expected to carry, and the shapes of its
    children.  `Linked` says the heap agrees with a shape, `Tidy` that no
    node occurs twice in it; `Snapshot` reads the `Tree` value off a shape. */
module Nodes {
  import opened Wrappers
  import opened Ordering
  import opened Trees

  class Node {
    const config: Config
    const id: int
    var hasField: bool
    var parent: Node?
    var children: seq<Node>

    /** A node for a record with id `id`, not yet linked to anything. */
    constructor (config: Config, id: int, hasField: bool)
      ensures this.config == config && this.id == id && this.hasField == hasField
      ensures parent == null && children == []
    {
      this.config := config;
      this.id := id;
      this.hasField := hasField;
      parent := null;
      children := [];
    }

    /** `addChild`: links `child`, the root of the tree `cs`, in under this
        node, the node at path `p` of the tree `s`; it goes last, or at its
        comparator position when the configuration has a comparator. The
        node's record gains a children field if it had none. Returns
        `child`; `s'` is the tree afterwards. */
    method AddChild(child: Node, ghost s: Shape, ghost p: seq<nat>, ghost cs: Shape) returns (r: Node, ghost s': Shape)
      requires Whole(s) && ValidPath(s, p) && At(s, p).node == this
      requires Whole(cs) && cs.node == child && Foot(s) !! Foot(cs)
      modifies this, child
      ensures r == child && child.parent == this && hasField
      ensures config.comparator.None? ==> children == old(children) + [child]
      ensures config.comparator.Some? ==>
        children == Insert(old(children), InsertIndex(config.comparator.value, NodeIds(old(children)), child.id), child)
      ensures Whole(s') && s'.node == s.node && Foot(s') == Foot(s) + Foot(cs)
      ensures ValidPath(s', p) && At(s', p).node == this
      ensures TreePath(Snapshot(s), p)
      ensures Snapshot(s') == ReplaceTree(Snapshot(s), p,
        Tree(id, true, Place(config, SubtreeAt(Snapshot(s), p).children, Snapshot(cs))))
    {
      ghost var A := At(s, p);
      assert children == Heads(A.kids) && Foot(A) <= Foot(s) by {
        LinkedAt(s, p);
        AtFoot(s, p);
      }
      child.parent := this;
      hasField := true;
      ghost var k: nat := |children|;
      if config.comparator.None? {
        children := children + [child];
      } else {
        var at := FindInsertIndex(config.comparator.value, NodeIds(children), child.id);
        children := Insert(children, at, child);
        k := at;
      }
      assert children == Insert(old(children), k, child);
      r := child;
      s' := Grafting(Edit(s, p, k, cs));
      Grafted(Edit(s, p, k, cs));
    }

    /** `drop`: unlinks this node, the node at path `p` of the tree `s`,
        from its parent and returns it.  A root stays as it is.  Otherwise
        `s'` is what is left of the tree and `d` the dropped subtree, now a
        tree of its own. */
    method Drop(ghost s: Shape, ghost p: seq<nat>) returns (r: Node, ghost s': Shape, ghost d: Shape)
      requires Whole(s) && ValidPath(s, p) && At(s, p).node == this
      modifies this, parent
      ensures r == this && parent == null
      ensures old(parent) == null <==> p == []
      ensures p == [] ==> s' == s && d == s
      ensures p != [] ==> (p[|p| - 1] < |old(parent.children)| && old(parent.children)[p[|p| - 1]] == this
        && old(parent).children == RemoveAt(old(parent.children), p[|p| - 1]))
      ensures Whole(s') && s'.node == s.node && Whole(d) && d.node == this
      ensures p != [] ==> Foot(s') !! Foot(d) && Foot(s') + Foot(d) == Foot(s)
      ensures p != [] ==> TreePath(Snapshot(s), p) && Snapshot(s') == Prune(Snapshot(s), p) && Snapshot(d) == SubtreeAt(Snapshot(s), p)
    {
      r := this;
      if parent == null {
        if p != [] {
          assert p[..|p|] == p;
          ParentAlong(s, p, |p|);
        }
        s', d := s, s;
        return;
      }
      if p == [] {
        assert false;
      }
      ghost var q := p[..|p| - 1];
      ghost var i := p[|p| - 1];
      assert p == q + [i];
      AtStep(s, p, |p| - 1);
      ghost var P := At(s, q);
      assert p[..|p|] == p;
      assert parent == P.node && parent.children == Heads(P.kids) && Tidy(P) && P.node != this by {
        ParentAlong(s, p, |p|);
        LinkedAt(s, q);
        TidyAt(s, q);
        FootInAll(P.kids, i);
      }
      var par := parent;
      var k := IndexOf(par.children, this);
      assert k == i by {
        ghost var h := Heads(P.kids);
        assert h[i] == this;
      }
      par.children := RemoveAt(par.children, k);
      parent := null;
      d := At(s, p);
      s' := Pruning(Edit(s, q, i, d));
      Pruned(Edit(s, q, i, d));
    }

    /** `getPath`: the nodes from the root of the tree `s` down to this
        node, the node at path `p`, found by following parent links. */
    method GetPath(ghost s: Shape, ghost p: seq<nat>) returns (path: seq<Node>)
      requires Whole(s) && ValidPath(s, p) && At(s, p).node == this
      ensures |path| == |p| + 1 && path[0] == s.node && path[|p|] == this
      ensures forall i :: 0 <= i <= |p| ==> ValidPath(s, p[..i]) && path[i] == At(s, p[..i]).node
      ensures TreePath(Snapshot(s), p) && NodeIds(path) == PathIds(Snapshot(s), p)
    {
      var n := this;
      path := [this];
      ghost var d: nat := |p|;
      assert p[..|p|] == p && p[..0] == [];
      while n.parent != null
        invariant Linked(s) && d <= |p| && ValidPath(s, p[..d]) && n == At(s, p[..d]).node
        invariant |path| == |p| - d + 1
        invariant forall i :: d <= i <= |p| ==> ValidPath(s, p[..i]) && path[i - d] == At(s, p[..i]).node
        decreases d
      {
        ParentAlong(s, p, d);
        n := n.parent;
        path := [n] + path;
        d := d - 1;
      }
      assert d == 0 by {
        if d > 0 {
          ParentAlong(s, p, d);
        }
      }
      PathSnapshot(s, p, path);
    }
  }

  /** The ids of the nodes along a path are the ids `PathIds` reads off
      the snapshot. */
  lemma PathSnapshot(s: Shape, p: seq<nat>, path: seq<Node>)
    requires ValidPath(s, p) && |path| == |p| + 1
    requires forall i :: 0 <= i <= |p| ==> ValidPath(s, p[..i]) && path[i] == At(s, p[..i]).node
    ensures TreePath(Snapshot(s), p) && NodeIds(path) == PathIds(Snapshot(s), p)
  {
    SnapshotAt(s, p);
    forall i | 0 <= i <= |p| ensures NodeIds(path)[i] == PathIds(Snapshot(s), p)[i] {
      SnapshotAt(s, p[..i]);
      PathIdsAt(Snapshot(s), p, i);
    }
  }

  datatype Shape = Shape(node: Node, hasField: bool, kids: seq<Shape>)

  /** The nodes of a shape. */
  ghost function Foot(s: Shape): set<Node>
    decreases s, 1
  {
    {s.node} + FootAll(s.kids)
  }

  ghost function FootAll(ks: seq<Shape>): set<Node>
    decreases ks, 0
  {
    if ks == [] then {} else Foot(ks[0]) + FootAll(ks[1..])
  }

  function Heads(ks: seq<Shape>): seq<Node> {
    seq(|ks|, i requires 0 <= i < |ks| => ks[i].node)
  }

  lemma {:induction false} FootInAll(ks: seq<Shape>, i: nat)
    requires i < |ks|
    ensures Foot(ks[i]) <= FootAll(ks)
  {
    if i > 0 {
      FootInAll(ks[1..], i - 1);
    }
  }

  lemma {:induction false} FootAllHas(ks: seq<Shape>, n: Node)
    requires n in FootAll(ks)
    ensures exists i :: 0 <= i < |ks| && n in Foot(ks[i])
  {
    if n !in Foot(ks[0]) {
      FootAllHas(ks[1..], n);
      var i :| 0 <= i < |ks[1..]| && n in Foot(ks[1..][i]);
      assert n in Foot(ks[i + 1]);
    }
  }

  lemma {:induction false} FootAllAppend(a: seq<Shape>, b: seq<Shape>)
    ensures FootAll(a + b) == FootAll(a) + FootAll(b)
  {
    if a != [] {
      assert (a + b)[0] == a[0] && (a + b)[1..] == a[1..] + b;
      FootAllAppend(a[1..], b);
    } else {
      assert a + b == b;
    }
  }

  /** The heap links agree with the shape: every node's `children` are the
      nodes of its child shapes, every child's `parent` is its node, and
      every node's `hasField` is the shape's. */
  ghost predicate Linked(s: Shape)
    reads s.node`children, s.node`hasField
    reads FootAll(s.kids)`children, FootAll(s.kids)`hasField, FootAll(s.kids)`parent
    decreases s, 1
  {
    && s.node.children == Heads(s.kids)
    && s.node.hasField == s.hasField
    && forall i :: 0 <= i < |s.kids| ==> KidLinked(s, i)
  }

  ghost predicate KidLinked(s: Shape, i: nat)
    requires i < |s.kids|
    reads FootAll(s.kids)`children, FootAll(s.kids)`hasField, FootAll(s.kids)`parent
    decreases s, 0
  {
    FootInAll(s.kids, i);
    s.kids[i].node.parent == s.node && Linked(s.kids[i])
  }

  /** No node occurs twice in the shape. */
  ghost predicate Tidy(s: Shape) {
    && s.node !in FootAll(s.kids)
    && (forall i, j :: 0 <= i < j < |s.kids| ==> Foot(s.kids[i]) !! Foot(s.kids[j]))
    && forall i :: 0 <= i < |s.kids| ==> Tidy(s.kids[i])
  }

  /** A root node and the whole tree below it. */
  ghost predicate Whole(s: Shape)
    reads s.node`children, s.node`hasField, s.node`parent
    reads FootAll(s.kids)`children, FootAll(s.kids)`hasField, FootAll(s.kids)`parent
  {
    Linked(s) && Tidy(s) && s.node.parent == null
  }

  /** The tree value the shape stands for. */
  function Snapshot(s: Shape): (t: Tree)
    ensures t.id == s.node.id && t.hasField == s.hasField && |t.children| == |s.kids|
  {
    Tree(s.node.id, s.hasField, seq(|s.kids|, i requires 0 <= i < |s.kids| => Snapshot(s.kids[i])))
  }

  ghost predicate ValidPath(s: Shape, p: seq<nat>)
    decreases p
  {
    p == [] || (p[0] < |s.kids| && ValidPath(s.kids[p[0]], p[1..]))
  }

  ghost function At(s: Shape, p: seq<nat>): Shape
    requires ValidPath(s, p)
    decreases p
  {
    if p == [] then s else At(s.kids[p[0]], p[1..])
  }

  ghost function ReplaceAt(s: Shape, p: seq<nat>, r: Shape): Shape
    requires ValidPath(s, p)
    decreases p
  {
    if p == [] then r else Shape(s.node, s.hasField, s.kids[p[0] := ReplaceAt(s.kids[p[0]], p[1..], r)])
  }

  lemma {:induction false} AtFoot(s: Shape, p: seq<nat>)
    requires ValidPath(s, p)
    ensures Foot(At(s, p)) <= Foot(s)
    decreases p
  {
    if p != [] {
      AtFoot(s.kids[p[0]], p[1..]);
      FootInAll(s.kids, p[0]);
    }
  }

  lemma {:induction false} TidyAt(s: Shape, p: seq<nat>)
    requires ValidPath(s, p) && Tidy(s)
    ensures Tidy(At(s, p))
    decreases p
  {
    if p != [] {
      TidyAt(s.kids[p[0]], p[1..]);
    }
  }

  lemma {:induction false} LinkedAt(s: Shape, p: seq<nat>)
    requires ValidPath(s, p) && Linked(s)
    ensures Linked(At(s, p))
    decreases p
  {
    if p != [] {
      assert KidLinked(s, p[0]);
      LinkedAt(s.kids[p[0]], p[1..]);
    }
  }

  lemma {:induction false} ValidPrefix(s: Shape, p: seq<nat>, d: nat)
    requires ValidPath(s, p) && d <= |p|
    ensures ValidPath(s, p[..d]) && ValidPath(At(s, p[..d]), p[d..]) && At(At(s, p[..d]), p[d..]) == At(s, p)
    decreases p
  {
    if d > 0 {
      assert p[..d][1..] == p[1..][..d - 1];
      assert p[d..] == p[1..][d - 1..];
      ValidPrefix(s.kids[p[0]], p[1..], d - 1);
    }
  }

  lemma {:induction false} AtAppend(s: Shape, p: seq<nat>, i: nat)
    requires ValidPath(s, p) && i < |At(s, p).kids|
    ensures ValidPath(s, p + [i]) && At(s, p + [i]) == At(s, p).kids[i]
    decreases p
  {
    if p != [] {
      assert (p + [i])[1..] == p[1..] + [i];
      AtAppend(s.kids[p[0]], p[1..], i);
    } else {
      assert [] + [i] == [i] && [i][1..] == [];
    }
  }

  /** One step down a path. */
  lemma AtStep(s: Shape, p: seq<nat>, d: nat)
    requires ValidPath(s, p) && d < |p|
    ensures ValidPath(s, p[..d]) && p[d] < |At(s, p[..d]).kids|
    ensures ValidPath(s, p[..d + 1]) && At(s, p[..d + 1]) == At(s, p[..d]).kids[p[d]]
  {
    ValidPrefix(s, p, d);
    assert p[d..][0] == p[d];
    assert p[..d + 1] == p[..d] + [p[d]];
    AtAppend(s, p[..d], p[d]);
  }

  /** A node strictly above the end of a path is not in the subtree there. */
  lemma AncestorOutside(s: Shape, p: seq<nat>, d: nat)
    requires ValidPath(s, p) && Tidy(s) && d < |p|
    ensures ValidPath(s, p[..d]) && At(s, p[..d]).node in Foot(s) - Foot(At(s, p))
  {
    AtStep(s, p, d);
    var P := At(s, p[..d]);
    var C := At(s, p[..d + 1]);
    ValidPrefix(s, p, d + 1);
    AtFoot(C, p[d + 1..]);
    FootInAll(P.kids, p[d]);
    TidyAt(s, p[..d]);
    AtFoot(s, p[..d]);
  }

  /** A sibling of a node on a path holds nothing of the subtree at the
      path's end. */
  lemma SiblingOutside(s: Shape, p: seq<nat>, d: nat, j: nat)
    requires ValidPath(s, p) && Tidy(s) && d < |p|
    requires ValidPath(s, p[..d]) && j < |At(s, p[..d]).kids| && j != p[d]
    ensures Foot(At(s, p[..d]).kids[j]) <= Foot(s) - Foot(At(s, p))
  {
    AtStep(s, p, d);
    var P := At(s, p[..d]);
    var C := At(s, p[..d + 1]);
    ValidPrefix(s, p, d + 1);
    AtFoot(C, p[d + 1..]);
    TidyAt(s, p[..d]);
    AtFoot(s, p[..d]);
    FootInAll(P.kids, j);
    if j < p[d] {
      assert Foot(P.kids[j]) !! Foot(P.kids[p[d]]);
    } else {
      assert Foot(P.kids[p[d]]) !! Foot(P.kids[j]);
    }
  }
  lemma HeadsUpdate(ks: seq<Shape>, i: nat, k: Shape)
    requires i < |ks| && k.node == ks[i].node
    ensures Heads(ks[i := k]) == Heads(ks)
  {
  }

  /** The facts one step of the lift needs about the node at depth `d` of
      a path. */
  lemma StepUp(s: Shape, p: seq<nat>, d: nat)
    requires ValidPath(s, p) && Tidy(s) && d < |p|
    ensures ValidPath(s, p[..d]) && p[d] < |At(s, p[..d]).kids|
    ensures ValidPath(s, p[..d + 1]) && At(s, p[..d + 1]) == At(s, p[..d]).kids[p[d]]
    ensures ValidPath(At(s, p[..d]), p[d..]) && ValidPath(At(s, p[..d + 1]), p[d + 1..])
    ensures At(At(s, p[..d + 1]), p[d + 1..]) == At(s, p)
    ensures Tidy(At(s, p[..d])) && Foot(At(s, p[..d])) <= Foot(s)
    ensures At(s, p[..d]).node in Foot(s) - Foot(At(s, p))
    ensures forall j :: 0 <= j < |At(s, p[..d]).kids| && j != p[d] ==> Foot(At(s, p[..d]).kids[j]) <= Foot(s) - Foot(At(s, p))
  {
    AtStep(s, p, d);
    var P := At(s, p[..d]);
    TidyAt(s, p[..d]);
    AtFoot(s, p[..d]);
    AncestorOutside(s, p, d);
    forall j | 0 <= j < |P.kids| && j != p[d] ensures Foot(P.kids[j]) <= Foot(s) - Foot(At(s, p)) {
      SiblingOutside(s, p, d, j);
    }
    ValidPrefix(s, p, d);
    ValidPrefix(s, p, d + 1);
  }

  lemma ReplaceStep(s: Shape, p: seq<nat>, d: nat, r: Shape)
    requires ValidPath(s, p) && d < |p|
    ensures ValidPath(s, p[..d]) && ValidPath(At(s, p[..d]), p[d..])
    ensures ValidPath(s, p[..d + 1]) && ValidPath(At(s, p[..d + 1]), p[d + 1..])
    ensures p[d] < |At(s, p[..d]).kids| && At(s, p[..d + 1]) == At(s, p[..d]).kids[p[d]]
    ensures ReplaceAt(At(s, p[..d]), p[d..], r) ==
      Shape(At(s, p[..d]).node, At(s, p[..d]).hasField, At(s, p[..d]).kids[p[d] := ReplaceAt(At(s, p[..d + 1]), p[d + 1..], r)])
  {
    AtStep(s, p, d);
    ValidPrefix(s, p, d);
    ValidPrefix(s, p, d + 1);
    assert p[d..][0] == p[d] && p[d..][1..] == p[d + 1..];
  }

  lemma {:induction false} ReplaceHead(s: Shape, p: seq<nat>, r: Shape)
    requires ValidPath(s, p) && r.node == At(s, p).node
    ensures ReplaceAt(s, p, r).node == s.node
    decreases p
  {
    if p != [] {
      ReplaceHead(s.kids[p[0]], p[1..], r);
    }
  }

  /** What the lift below is about: the shape `within` as it was linked
      before a change below the end of `path`, a depth along the path, and
      the shape `result` that is linked at the end of the path after the
      change.

      Each twostate lemma of this module takes its arguments packed in one
      datatype value (`Lift`, `Graft`, `Cut`, `Edit`, `Spot`): with Dafny
      4.11, a call to a twostate lemma with several arguments makes the
      solver die when contradictory assumptions are being checked. */
  datatype Lift = Lift(within: Shape, path: seq<nat>, depth: nat, result: Shape)

  /** The node at depth `depth` of the path: the one a lift step relinks. */
  ghost function Upper(e: Lift): Shape
    requires ValidPath(e.within, e.path) && e.depth < |e.path|
  {
    ValidPrefix(e.within, e.path, e.depth);
    At(e.within, e.path[..e.depth])
  }

  /** The part of the heap the change leaves alone. */
  ghost function Outside(e: Lift): set<Node>
    requires ValidPath(e.within, e.path)
  {
    Foot(e.within) - Foot(At(e.within, e.path))
  }

  /** In a lift step, the relinked node and its children off the path keep
      their links. */
  twostate lemma SiblingsStay(e: Lift)
    requires ValidPath(e.within, e.path) && Tidy(e.within) && old(allocated(Foot(e.within))) && e.depth < |e.path|
    requires old(Linked(Upper(e)))
    requires unchanged(Outside(e))
    ensures Upper(e).node.children == Heads(Upper(e).kids) && Upper(e).node.hasField == Upper(e).hasField
    ensures forall j :: 0 <= j < |Upper(e).kids| && j != e.path[e.depth] ==>
      Upper(e).kids[j].node.parent == Upper(e).node && Linked(Upper(e).kids[j])
  {
    var s, p, d := e.within, e.path, e.depth;
    StepUp(s, p, d);
    var P := Upper(e);
    forall j | 0 <= j < |P.kids| && j != p[d] ensures P.kids[j].node.parent == P.node && Linked(P.kids[j]) {
      FootInAll(P.kids, j);
      assert old(KidLinked(Upper(e), j));
    }
  }

  /** One step of the lift: if the change is linked in place below depth
      `depth + 1`, it is linked in place below depth `depth`, because the
      node there and its other children were left alone. */
  twostate lemma LiftLevel(e: Lift)
    requires ValidPath(e.within, e.path) && Tidy(e.within) && old(allocated(Foot(e.within))) && e.depth < |e.path|
    requires old(Linked(Upper(e)))
    requires e.result.node == At(e.within, e.path).node
    requires ValidPath(e.within, e.path[..e.depth + 1]) && ValidPath(At(e.within, e.path[..e.depth + 1]), e.path[e.depth + 1..])
    requires Linked(ReplaceAt(At(e.within, e.path[..e.depth + 1]), e.path[e.depth + 1..], e.result))
    requires e.depth + 1 == |e.path| ==> e.result.node.parent == old(e.result.node.parent)
    requires unchanged(Outside(e))
    ensures ValidPath(Upper(e), e.path[e.depth..])
    ensures Linked(ReplaceAt(Upper(e), e.path[e.depth..], e.result))
  {
    var s, p, d, r := e.within, e.path, e.depth, e.result;
    StepUp(s, p, d);
    ReplaceStep(s, p, d, r);
    SiblingsStay(e);
    var P := Upper(e);
    var i := p[d];
    var q := ReplaceAt(At(s, p[..d + 1]), p[d + 1..], r);
    ReplaceHead(At(s, p[..d + 1]), p[d + 1..], r);
    if d + 1 < |p| {
      AncestorOutside(s, p, d + 1);
    }
    assert old(KidLinked(Upper(e), i));
    var P' := Shape(P.node, P.hasField, P.kids[i := q]);
    HeadsUpdate(P.kids, i, q);
    forall j | 0 <= j < |P'.kids| ensures KidLinked(P', j) {
      FootInAll(P'.kids, j);
      if j != i {
        assert P'.kids[j] == P.kids[j];
      }
    }
    assert Linked(P');
  }

  /** A change confined to the subtree at the end of `e.path` that leaves
      the linked shape `e.result` for the same node there keeps the whole
      shape linked, with `e.result` in place.  The walk goes from the end of
      the path back up to the root. */
  twostate lemma LiftLinked(e: Lift)
    requires ValidPath(e.within, e.path) && Tidy(e.within) && old(allocated(Foot(e.within)))
    requires forall d :: 0 <= d <= |e.path| ==> ValidPath(e.within, e.path[..d]) && old(Linked(At(e.within, e.path[..d])))
    requires Linked(e.result) && e.result.node == At(e.within, e.path).node
    requires e.path != [] ==> e.result.node.parent == old(e.result.node.parent)
    requires unchanged(Foot(e.within) - Foot(At(e.within, e.path)))
    ensures Linked(ReplaceAt(e.within, e.path, e.result))
  {
    var s, p, r := e.within, e.path, e.result;
    var d := |p|;
    assert p[..|p|] == p && p[|p|..] == [];
    while d > 0
      invariant 0 <= d <= |p| && ValidPath(s, p[..d]) && ValidPath(At(s, p[..d]), p[d..])
      invariant Linked(ReplaceAt(At(s, p[..d]), p[d..], r))
    {
      ValidPrefix(s, p, d - 1);
      assert Upper(Lift(s, p, d - 1, r)) == At(s, p[..d - 1]);
      LiftLevel(Lift(s, p, d - 1, r));
      d := d - 1;
    }
    assert p[..0] == [] && p[0..] == p;
  }
  lemma FootAllSplit(ks: seq<Shape>, i: nat)
    requires i < |ks|
    ensures FootAll(ks) == FootAll(ks[..i]) + Foot(ks[i]) + FootAll(ks[i + 1..])
  {
    assert ks == ks[..i] + ([ks[i]] + ks[i + 1..]);
    FootAllAppend(ks[..i], [ks[i]] + ks[i + 1..]);
    FootAllAppend([ks[i]], ks[i + 1..]);
    assert [ks[i]][1..] == [];
  }

  lemma FootAllInsert(ks: seq<Shape>, k: nat, c: Shape)
    requires k <= |ks|
    ensures FootAll(Insert(ks, k, c)) == FootAll(ks) + Foot(c)
  {
    assert ks == ks[..k] + ks[k..];
    FootAllAppend(ks[..k], ks[k..]);
    FootAllAppend(ks[..k] + [c], ks[k..]);
    FootAllAppend(ks[..k], [c]);
    assert [c][1..] == [];
  }

  lemma FootAllRemove(ks: seq<Shape>, k: nat)
    requires k < |ks|
    ensures FootAll(RemoveAt(ks, k)) + Foot(ks[k]) == FootAll(ks)
  {
    FootAllSplit(ks, k);
    FootAllAppend(ks[..k], ks[k + 1..]);
  }

  /** Children of a tidy shape: the footprints of two different positions
      are disjoint, and the node itself is in none of them. */
  lemma TidyKids(s: Shape, i: nat, j: nat)
    requires Tidy(s) && i < |s.kids| && j < |s.kids| && i != j
    ensures Foot(s.kids[i]) !! Foot(s.kids[j])
  {
    if j < i {
      assert Foot(s.kids[j]) !! Foot(s.kids[i]);
    }
  }

  /** The other children of a tidy shape hold nothing of child `i`, nor
      the node itself. */
  lemma OthersApart(s: Shape, i: nat)
    requires Tidy(s) && i < |s.kids|
    ensures FootAll(s.kids[..i]) !! Foot(s.kids[i]) && FootAll(s.kids[i + 1..]) !! Foot(s.kids[i])
  {
    var ks := s.kids;
    forall n | n in FootAll(ks[..i]) ensures n !in Foot(ks[i]) {
      FootAllHas(ks[..i], n);
      var j :| 0 <= j < |ks[..i]| && n in Foot(ks[..i][j]);
      TidyKids(s, j, i);
    }
    forall n | n in FootAll(ks[i + 1..]) ensures n !in Foot(ks[i]) {
      FootAllHas(ks[i + 1..], n);
      var j :| 0 <= j < |ks[i + 1..]| && n in Foot(ks[i + 1..][j]);
      assert ks[i + 1..][j] == ks[i + 1 + j];
      TidyKids(s, i + 1 + j, i);
    }
  }

  /** Replacing child `i` of a tidy shape by a tidy shape that shares no
      node with the rest keeps it tidy, and swaps the footprints. */
  lemma TidyUpdate(s: Shape, i: nat, c: Shape)
    requires Tidy(s) && i < |s.kids| && Tidy(c)
    requires Foot(c) !! (Foot(s) - Foot(s.kids[i]))
    ensures Tidy(Shape(s.node, s.hasField, s.kids[i := c]))
    ensures Foot(Shape(s.node, s.hasField, s.kids[i := c])) == (Foot(s) - Foot(s.kids[i])) + Foot(c)
  {
    var ks := s.kids;
    var ks' := ks[i := c];
    var rest := FootAll(ks[..i]) + FootAll(ks[i + 1..]);
    assert Foot(s) - Foot(ks[i]) == {s.node} + rest && s.node !in rest by {
      FootAllSplit(ks, i);
      OthersApart(s, i);
    }
    assert FootAll(ks') == rest + Foot(c) by {
      assert ks'[..i] == ks[..i] && ks'[i + 1..] == ks[i + 1..];
      FootAllSplit(ks', i);
    }
    UpdatedApart(s, i, c, ks');
    assert s.node !in FootAll(ks');
  }

  /** The children after child `i` is replaced by `c` are pairwise apart
      and tidy. */
  lemma UpdatedApart(s: Shape, i: nat, c: Shape, ks': seq<Shape>)
    requires Tidy(s) && i < |s.kids| && Tidy(c) && ks' == s.kids[i := c]
    requires Foot(c) !! (Foot(s) - Foot(s.kids[i]))
    ensures forall a, b :: 0 <= a < b < |ks'| ==> Foot(ks'[a]) !! Foot(ks'[b])
    ensures forall j :: 0 <= j < |ks'| ==> Tidy(ks'[j])
  {
    var ks := s.kids;
    forall j | 0 <= j < |ks| && j != i ensures Foot(ks[j]) !! Foot(c) {
      TidyKids(s, i, j);
      FootInAll(ks, j);
    }
    forall a, b | 0 <= a < b < |ks'| ensures Foot(ks'[a]) !! Foot(ks'[b]) {
      if a != i && b != i {
        TidyKids(s, a, b);
      }
    }
  }

  /** Replacing the subtree at `p` by a tidy shape that shares no node with
      the rest keeps the shape tidy, and swaps the footprints. */
  lemma {:induction false} TidyReplace(s: Shape, p: seq<nat>, r: Shape)
    requires ValidPath(s, p) && Tidy(s) && Tidy(r)
    requires Foot(r) !! (Foot(s) - Foot(At(s, p)))
    ensures Tidy(ReplaceAt(s, p, r))
    ensures Foot(ReplaceAt(s, p, r)) == (Foot(s) - Foot(At(s, p))) + Foot(r)
    decreases p
  {
    if p != [] {
      var k := s.kids[p[0]];
      FootInAll(s.kids, p[0]);
      AtFoot(k, p[1..]);
      TidyReplace(k, p[1..], r);
      TidyUpdate(s, p[0], ReplaceAt(k, p[1..], r));
    }
  }
  /** Inserting a tidy shape that shares no node with a tidy shape among
      its children keeps it tidy. */
  lemma TidyInsert(a: Shape, k: nat, c: Shape)
    requires Tidy(a) && Tidy(c) && k <= |a.kids| && Foot(a) !! Foot(c)
    ensures Tidy(Shape(a.node, true, Insert(a.kids, k, c)))
    ensures Foot(Shape(a.node, true, Insert(a.kids, k, c))) == Foot(a) + Foot(c)
  {
    var ks := a.kids;
    var ks' := Insert(ks, k, c);
    FootAllInsert(ks, k, c);
    InsertElements(ks, k, c);
    assert forall a', b :: 0 <= a' < b < |ks'| ==> Foot(ks'[a']) !! Foot(ks'[b]) by {
      forall j | 0 <= j < |ks| ensures Foot(ks[j]) <= Foot(a) {
        FootInAll(ks, j);
      }
      forall a', b | 0 <= a' < b < |ks'| ensures Foot(ks'[a']) !! Foot(ks'[b]) {
        var i' := if a' < k then a' else a' - 1;
        var j' := if b < k then b else b - 1;
        if a' != k && b != k {
          assert ks'[a'] == ks[i'] && ks'[b] == ks[j'];
          TidyKids(a, i', j');
        }
      }
    }
    assert forall j :: 0 <= j < |ks'| ==> Tidy(ks'[j]) by {
      forall j | 0 <= j < |ks'| ensures Tidy(ks'[j]) {
        if j != k {
          assert ks'[j] == ks[if j < k then j else j - 1];
        }
      }
    }
  }

  /** Removing a child of a tidy shape keeps it tidy; the removed subtree
      and what is left share no node and together make up the shape. */
  lemma TidyRemove(a: Shape, k: nat)
    requires Tidy(a) && k < |a.kids|
    ensures Tidy(Shape(a.node, a.hasField, RemoveAt(a.kids, k)))
    ensures Foot(Shape(a.node, a.hasField, RemoveAt(a.kids, k))) + Foot(a.kids[k]) == Foot(a)
    ensures Foot(Shape(a.node, a.hasField, RemoveAt(a.kids, k))) !! Foot(a.kids[k])
  {
    var ks := a.kids;
    var ks' := RemoveAt(ks, k);
    assert FootAll(ks') + Foot(ks[k]) == FootAll(ks) && FootAll(ks') !! Foot(ks[k]) by {
      FootAllRemove(ks, k);
      FootAllSplit(ks, k);
      FootAllAppend(ks[..k], ks[k + 1..]);
      OthersApart(a, k);
    }
    assert a.node !in Foot(ks[k]) by {
      FootInAll(ks, k);
    }
    RemainingApart(a, k);
  }

  /** The children left after a removal are still tidy and pairwise apart. */
  lemma RemainingApart(a: Shape, k: nat)
    requires Tidy(a) && k < |a.kids|
    ensures forall i, j :: 0 <= i < j < |a.kids| - 1 ==> Foot(RemoveAt(a.kids, k)[i]) !! Foot(RemoveAt(a.kids, k)[j])
    ensures forall j :: 0 <= j < |a.kids| - 1 ==> Tidy(RemoveAt(a.kids, k)[j])
  {
    var ks := a.kids;
    var ks' := RemoveAt(ks, k);
    RemoveAtElements(ks, k);
    forall i, j | 0 <= i < j < |ks'| ensures Foot(ks'[i]) !! Foot(ks'[j]) {
      TidyKids(a, if i < k then i else i + 1, if j < k then j else j + 1);
    }
  }
  /** The ids of a list of nodes. */
  function NodeIds(ns: seq<Node>): (r: seq<int>)
    ensures |r| == |ns| && forall i :: 0 <= i < |ns| ==> r[i] == ns[i].id
  {
    seq(|ns|, i requires 0 <= i < |ns| => ns[i].id)
  }

  lemma SnapshotIds(s: Shape)
    ensures Ids(Snapshot(s).children) == NodeIds(Heads(s.kids))
  {
  }

  /** The snapshot of the subtree at a path is the subtree of the snapshot. */
  lemma {:induction false} SnapshotAt(s: Shape, p: seq<nat>)
    requires ValidPath(s, p)
    ensures TreePath(Snapshot(s), p) && SubtreeAt(Snapshot(s), p) == Snapshot(At(s, p))
    decreases p
  {
    if p != [] {
      SnapshotAt(s.kids[p[0]], p[1..]);
    }
  }

  /** Replacing a subtree commutes with taking snapshots. */
  lemma {:induction false} SnapshotReplace(s: Shape, p: seq<nat>, r: Shape)
    requires ValidPath(s, p)
    ensures TreePath(Snapshot(s), p) && Snapshot(ReplaceAt(s, p, r)) == ReplaceTree(Snapshot(s), p, Snapshot(r))
    decreases p
  {
    SnapshotAt(s, p);
    if p != [] {
      var i := p[0];
      SnapshotReplace(s.kids[i], p[1..], r);
      var a := Snapshot(ReplaceAt(s, p, r));
      var b := ReplaceTree(Snapshot(s), p, Snapshot(r));
      assert a.children == b.children by {
        forall j | 0 <= j < |a.children| ensures a.children[j] == b.children[j] {
          if j != i {
            assert a.children[j] == Snapshot(s.kids[j]);
          }
        }
      }
    }
  }

  lemma SnapshotInsert(n: Node, h: bool, ks: seq<Shape>, k: nat, c: Shape)
    requires k <= |ks|
    ensures Snapshot(Shape(n, true, Insert(ks, k, c))).children == Insert(Snapshot(Shape(n, h, ks)).children, k, Snapshot(c))
  {
    InsertElements(ks, k, c);
    InsertElements(Snapshot(Shape(n, h, ks)).children, k, Snapshot(c));
  }

  lemma SnapshotRemove(n: Node, h: bool, ks: seq<Shape>, k: nat)
    requires k < |ks|
    ensures Snapshot(Shape(n, h, RemoveAt(ks, k))).children == RemoveAt(Snapshot(Shape(n, h, ks)).children, k)
  {
    RemoveAtElements(ks, k);
    RemoveAtElements(Snapshot(Shape(n, h, ks)).children, k);
  }

  lemma HeadsInsert(ks: seq<Shape>, k: nat, c: Shape)
    requires k <= |ks|
    ensures Heads(Insert(ks, k, c)) == Insert(Heads(ks), k, c.node)
  {
    InsertElements(ks, k, c);
    InsertElements(Heads(ks), k, c.node);
  }

  lemma HeadsRemove(ks: seq<Shape>, k: nat)
    requires k < |ks|
    ensures Heads(RemoveAt(ks, k)) == RemoveAt(Heads(ks), k)
  {
    RemoveAtElements(ks, k);
    RemoveAtElements(Heads(ks), k);
  }

  /** A new child `child` linked in at index `index` of the node of `at`;
      the arguments of `LinkedInsert`, packed as explained at `Lift`. */
  datatype Graft = Graft(at: Shape, index: nat, child: Shape)

  twostate lemma LinkedInsert(g: Graft)
    requires Tidy(g.at) && Tidy(g.child) && g.index <= |g.at.kids| && Foot(g.at) !! Foot(g.child)
    requires old(allocated(Foot(g.at))) && old(allocated(Foot(g.child)))
    requires old(Linked(g.at)) && old(Linked(g.child))
    requires g.at.node.children == Insert(old(g.at.node.children), g.index, g.child.node) && g.at.node.hasField
    requires g.child.node.parent == g.at.node
    requires unchanged(Foot(g.at) - {g.at.node}) && unchanged(Foot(g.child) - {g.child.node})
    requires unchanged(g.child.node`children, g.child.node`hasField)
    ensures Linked(Shape(g.at.node, true, Insert(g.at.kids, g.index, g.child)))
  {
    var a, k, c := g.at, g.index, g.child;
    var a' := Shape(a.node, true, Insert(a.kids, k, c));
    HeadsInsert(a.kids, k, c);
    InsertElements(a.kids, k, c);
    assert Linked(c);
    forall j | 0 <= j < |a'.kids| ensures KidLinked(a', j) {
      FootInAll(a'.kids, j);
      if j != k {
        var j' := if j < k then j else j - 1;
        assert a'.kids[j] == a.kids[j'];
        FootInAll(a.kids, j');
        assert old(KidLinked(a, j'));
        assert Linked(a.kids[j']);
      }
    }
  }

  /** The child at `index` of the node of `at` cut out; the arguments of
      `LinkedRemove`, packed as explained at `Lift`. */
  datatype Cut = Cut(at: Shape, index: nat)

  twostate lemma LinkedRemove(c: Cut)
    requires Tidy(c.at) && c.index < |c.at.kids| && old(allocated(Foot(c.at))) && old(Linked(c.at))
    requires c.at.node.children == RemoveAt(old(c.at.node.children), c.index)
    requires unchanged(c.at.node`hasField)
    requires unchanged(Foot(c.at) - {c.at.node, c.at.kids[c.index].node})
    requires unchanged(c.at.kids[c.index].node`children, c.at.kids[c.index].node`hasField)
    ensures Linked(Shape(c.at.node, c.at.hasField, RemoveAt(c.at.kids, c.index)))
    ensures Linked(c.at.kids[c.index])
  {
    var a, k := c.at, c.index;
    var a' := Shape(a.node, a.hasField, RemoveAt(a.kids, k));
    HeadsRemove(a.kids, k);
    RemoveAtElements(a.kids, k);
    FootInAll(a.kids, k);
    assert old(KidLinked(a, k));
    assert Linked(a.kids[k]);
    forall j | 0 <= j < |a'.kids| ensures KidLinked(a', j) {
      FootInAll(a'.kids, j);
      var j' := if j < k then j else j + 1;
      assert a'.kids[j] == a.kids[j'];
      FootInAll(a.kids, j');
      TidyKids(a, j', k);
      assert old(KidLinked(a, j'));
      assert Linked(a.kids[j']);
    }
  }
  /** Off the root, every node on a path has the node above it as parent. */
  lemma ParentAlong(s: Shape, p: seq<nat>, d: nat)
    requires Linked(s) && ValidPath(s, p) && 0 < d <= |p|
    ensures ValidPath(s, p[..d - 1]) && ValidPath(s, p[..d])
    ensures At(s, p[..d]).node.parent == At(s, p[..d - 1]).node
  {
    AtStep(s, p, d - 1);
    LinkedAt(s, p[..d - 1]);
    assert KidLinked(At(s, p[..d - 1]), p[d - 1]);
  }

  lemma AtReplace(s: Shape, p: seq<nat>, r: Shape)
    requires ValidPath(s, p)
    ensures ValidPath(ReplaceAt(s, p, r), p) && At(ReplaceAt(s, p, r), p) == r
    decreases p
  {
    if p != [] {
      AtReplace(s.kids[p[0]], p[1..], r);
    }
  }

  /** JavaScript's `Array.prototype.indexOf` on a list of nodes: the first
      position holding `n`, or -1. */
  method IndexOf(ns: seq<Node>, n: Node) returns (k: int)
    ensures -1 <= k < |ns|
    ensures k == -1 <==> n !in ns
    ensures 0 <= k ==> ns[k] == n && n !in ns[..k]
  {
    k := 0;
    while k < |ns| && ns[k] != n
      invariant 0 <= k <= |ns| && n !in ns[..k]
    {
      assert ns[..k + 1] == ns[..k] + [ns[k]];
      k := k + 1;
    }
    if k == |ns| {
      assert ns[..k] == ns;
      k := -1;
    }
  }
  /** Replacing the subtree at `p` by a shape for the same node keeps the
      root, and puts the replacement at `p`. */
  lemma ReplacedRoot(s: Shape, p: seq<nat>, r: Shape)
    requires ValidPath(s, p) && r.node == At(s, p).node
    ensures ValidPath(ReplaceAt(s, p, r), p) && At(ReplaceAt(s, p, r), p) == r
    ensures ReplaceAt(s, p, r).node == s.node
  {
    AtReplace(s, p, r);
    ReplaceHead(s, p, r);
  }

  /** The snapshot after `addChild`: the child's tree placed among the
      children of the node at `p`, at the index the scan finds. */
  lemma SnapshotGraft(cfg: Config, s: Shape, p: seq<nat>, k: nat, cs: Shape)
    requires ValidPath(s, p)
    requires cfg.comparator.None? ==> k == |At(s, p).kids|
    requires cfg.comparator.Some? ==> k == InsertIndex(cfg.comparator.value, NodeIds(Heads(At(s, p).kids)), cs.node.id)
    ensures k <= |At(s, p).kids|
    ensures TreePath(Snapshot(s), p)
    ensures Snapshot(ReplaceAt(s, p, Shape(At(s, p).node, true, Insert(At(s, p).kids, k, cs)))) ==
      ReplaceTree(Snapshot(s), p, Tree(At(s, p).node.id, true, Place(cfg, SubtreeAt(Snapshot(s), p).children, Snapshot(cs))))
  {
    var A := At(s, p);
    var A' := Shape(A.node, true, Insert(A.kids, k, cs));
    SnapshotReplace(s, p, A');
    SnapshotAt(s, p);
    SnapshotIds(A);
    SnapshotInsert(A.node, A.hasField, A.kids, k, cs);
    if cfg.comparator.None? {
      assert Insert(Snapshot(A).children, k, Snapshot(cs)) == Snapshot(A).children + [Snapshot(cs)];
    }
  }

  /** The snapshots after `drop`: the tree pruned at `p`, and the subtree
      that was there. */
  lemma SnapshotCut(s: Shape, p: seq<nat>)
    requires ValidPath(s, p) && p != []
    ensures ValidPath(s, p[..|p| - 1]) && p[|p| - 1] < |At(s, p[..|p| - 1]).kids|
    ensures TreePath(Snapshot(s), p)
    ensures var P := At(s, p[..|p| - 1]);
      Snapshot(ReplaceAt(s, p[..|p| - 1], Shape(P.node, P.hasField, RemoveAt(P.kids, p[|p| - 1])))) == Prune(Snapshot(s), p)
    ensures Snapshot(At(s, p)) == SubtreeAt(Snapshot(s), p)
  {
    var q := p[..|p| - 1];
    AtStep(s, p, |p| - 1);
    var P := At(s, q);
    var P' := Shape(P.node, P.hasField, RemoveAt(P.kids, p[|p| - 1]));
    SnapshotReplace(s, q, P');
    SnapshotAt(s, q);
    SnapshotAt(s, p);
    SnapshotRemove(P.node, P.hasField, P.kids, p[|p| - 1]);
  }
  /** A change at one node of a tree: at the node at `path` of `tree`, the
      subtree `child` is put in, or taken out, at child position `index`;
      the arguments of `Grafted` and `Pruned`, packed as explained at
      `Lift`. */
  datatype Edit = Edit(tree: Shape, path: seq<nat>, index: nat, child: Shape)

  /** The tree after `addChild`. */
  ghost function Grafting(e: Edit): Shape
    requires ValidPath(e.tree, e.path) && e.index <= |At(e.tree, e.path).kids|
  {
    var A := At(e.tree, e.path);
    ReplaceAt(e.tree, e.path, Shape(A.node, true, Insert(A.kids, e.index, e.child)))
  }

  /** What `addChild` does to the heap keeps the tree whole, with the
      child's tree placed where the configuration puts it. */
  twostate lemma Grafted(e: Edit)
    requires ValidPath(e.tree, e.path) && Tidy(e.child) && Foot(e.tree) !! Foot(e.child)
    requires e.index <= |At(e.tree, e.path).kids|
    requires old(allocated(Foot(e.tree))) && old(allocated(Foot(e.child)))
    requires old(Whole(e.tree)) && old(Linked(e.child))
    requires e.index <= |old(At(e.tree, e.path).node.children)|
    requires At(e.tree, e.path).node.children == Insert(old(At(e.tree, e.path).node.children), e.index, e.child.node)
    requires At(e.tree, e.path).node.hasField && e.child.node.parent == At(e.tree, e.path).node
    requires unchanged(Foot(e.tree) - {At(e.tree, e.path).node}) && unchanged(Foot(e.child) - {e.child.node})
    requires unchanged(e.child.node`children, e.child.node`hasField) && unchanged(At(e.tree, e.path).node`parent)
    requires var cfg := At(e.tree, e.path).node.config;
      && (cfg.comparator.None? ==> e.index == |At(e.tree, e.path).kids|)
      && (cfg.comparator.Some? ==>
        e.index == InsertIndex(cfg.comparator.value, NodeIds(Heads(At(e.tree, e.path).kids)), e.child.node.id))
    ensures Whole(Grafting(e)) && Grafting(e).node == e.tree.node && Foot(Grafting(e)) == Foot(e.tree) + Foot(e.child)
    ensures ValidPath(Grafting(e), e.path) && At(Grafting(e), e.path).node == At(e.tree, e.path).node
    ensures TreePath(Snapshot(e.tree), e.path)
    ensures var n := At(e.tree, e.path).node;
      Snapshot(Grafting(e)) ==
        ReplaceTree(Snapshot(e.tree), e.path, Tree(n.id, true, Place(n.config, SubtreeAt(Snapshot(e.tree), e.path).children, Snapshot(e.child))))
  {
    var s, p, k, cs := e.tree, e.path, e.index, e.child;
    var A := At(s, p);
    var A' := Shape(A.node, true, Insert(A.kids, k, cs));
    assert Linked(Grafting(e)) by {
      LinkedAlongBefore(Spot(e.tree, e.path));
      TidyAt(s, p);
      AtFoot(s, p);
      assert p[..|p|] == p;
      LinkedInsert(Graft(A, k, cs));
      LiftLinked(Lift(s, p, 0, A'));
    }
    assert Tidy(Grafting(e)) && Foot(Grafting(e)) == Foot(e.tree) + Foot(e.child) by {
      TidyAt(s, p);
      AtFoot(s, p);
      TidyInsert(A, k, cs);
      TidyReplace(s, p, A');
    }
    ReplacedRoot(s, p, A');
    assert s.node.parent == null by {
      if p != [] {
        assert s.node in Foot(s) - {A.node} by {
          AncestorOutside(s, p, 0);
          assert p[..0] == [];
        }
      }
    }
    SnapshotGraft(A.node.config, s, p, k, cs);
  }

  /** The tree after `drop`. */
  ghost function Pruning(e: Edit): Shape
    requires ValidPath(e.tree, e.path) && e.index < |At(e.tree, e.path).kids|
  {
    var P := At(e.tree, e.path);
    ReplaceAt(e.tree, e.path, Shape(P.node, P.hasField, RemoveAt(P.kids, e.index)))
  }

  /** What `drop` does to the heap leaves two whole trees that share no
      node: the tree pruned at the dropped position, and the dropped
      subtree. */
  twostate lemma Pruned(e: Edit)
    requires ValidPath(e.tree, e.path) && old(allocated(Foot(e.tree)))
    requires e.index < |At(e.tree, e.path).kids| && e.child == At(e.tree, e.path).kids[e.index]
    requires old(Whole(e.tree))
    requires e.index < |old(At(e.tree, e.path).node.children)|
    requires At(e.tree, e.path).node.children == RemoveAt(old(At(e.tree, e.path).node.children), e.index)
    requires e.child.node.parent == null
    requires unchanged(Foot(e.tree) - {At(e.tree, e.path).node, e.child.node})
    requires unchanged(At(e.tree, e.path).node`hasField, At(e.tree, e.path).node`parent)
    requires unchanged(e.child.node`children, e.child.node`hasField)
    ensures Whole(Pruning(e)) && Pruning(e).node == e.tree.node && Whole(e.child)
    ensures Foot(Pruning(e)) !! Foot(e.child) && Foot(Pruning(e)) + Foot(e.child) == Foot(e.tree)
    ensures TreePath(Snapshot(e.tree), e.path + [e.index])
    ensures Snapshot(Pruning(e)) == Prune(Snapshot(e.tree), e.path + [e.index])
    ensures Snapshot(e.child) == SubtreeAt(Snapshot(e.tree), e.path + [e.index])
  {
    var s, q, i := e.tree, e.path, e.index;
    var P := At(s, q);
    var P' := Shape(P.node, P.hasField, RemoveAt(P.kids, i));
    assert Linked(Pruning(e)) && Linked(e.child) by {
      LinkedAlongBefore(Spot(e.tree, e.path));
      TidyAt(s, q);
      AtFoot(s, q);
      FootInAll(P.kids, i);
      assert q[..|q|] == q;
      LinkedRemove(Cut(P, i));
      LiftLinked(Lift(s, q, 0, P'));
    }
    assert Tidy(Pruning(e)) && Tidy(e.child)
      && Foot(Pruning(e)) !! Foot(e.child) && Foot(Pruning(e)) + Foot(e.child) == Foot(e.tree) by {
      TidyAt(s, q);
      AtFoot(s, q);
      FootInAll(P.kids, i);
      TidyRemove(P, i);
      TidyReplace(s, q, P');
    }
    ReplacedRoot(s, q, P');
    assert s.node.parent == null by {
      AtFoot(s, q);
      FootInAll(P.kids, i);
      TidyAt(s, q);
      if q != [] {
        AncestorOutside(s, q, 0);
        assert q[..0] == [];
      }
    }
    var p := q + [i];
    assert p[..|p| - 1] == q && p[|p| - 1] == i;
    AtAppend(s, q, i);
    SnapshotCut(s, p);
  }

  /** A path into a tree; the arguments of `LinkedAlongBefore`, packed as
      explained at `Lift`. */
  datatype Spot = Spot(tree: Shape, path: seq<nat>)

  /** `LinkedAlong`, about the state before a change. */
  twostate lemma {:induction false} LinkedAlongBefore(e: Spot)
    requires ValidPath(e.tree, e.path) && old(Linked(e.tree))
    ensures forall d :: 0 <= d <= |e.path| ==> ValidPath(e.tree, e.path[..d]) && old(Linked(At(e.tree, e.path[..d])))
    decreases e.path
  {
    var s, p := e.tree, e.path;
    if p != [] {
      assert old(KidLinked(s, p[0]));
      LinkedAlongBefore(Spot(s.kids[p[0]], p[1..]));
      forall d | 0 <= d <= |p| ensures ValidPath(s, p[..d]) && old(Linked(At(s, p[..d]))) {
        if d > 0 {
          assert p[..d][0] == p[0] && p[..d][1..] == p[1..][..d - 1];
        }
      }
    }
  }
}

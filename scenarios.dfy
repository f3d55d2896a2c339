/** The fixtures of the test suite and what the model says about them:
    the tree 1 -> {11 -> {111}, 12 -> {121, 122}}, the default
    configuration and the one ordering children by descending id. */
module Scenarios {
  import opened Wrappers
  import opened Ordering
  import opened Trees
  import opened Traversal

  const Default := Config(None)

  /** The comparator `(a, b) => b.id - a.id`. */
  const Descending := Config(Some((a: int, b: int) => b - a))

  /** The record `{id: 1, children: [{id: 11, children: [{id: 111}]},
      {id: 12, children: [{id: 121}, {id: 122}]}]}`. */
  function Fixture(): Record {
    Nested(1, [Nested(11, [Object(111)]), Nested(12, [Object(121), Object(122)])])
  }

  /** The tree `parse` builds from the fixture without a comparator. */
  function FixtureTree(): Tree {
    Tree(1, true, [
      Tree(11, true, [Tree(111, false, [])]),
      Tree(12, true, [Tree(121, false, []), Tree(122, false, [])])])
  }

  /** The callback that returns `false` at the node with id `id`. */
  function StopAt(id: int): Tree -> bool {
    (t: Tree) => t.id != id
  }

  /** `idEq(id)`. */
  function IdEq(id: int): Tree -> bool {
    (t: Tree) => t.id == id
  }

  /** Numbers, strings and records with a non-object child are refused. */
  lemma ParseRefuses(cfg: Config, id: int)
    ensures ParseTree(cfg, Num(1)) == Err(TypeError("Model must be of type object."))
    ensures ParseTree(cfg, Str("string")) == Err(TypeError("Model must be of type object."))
    ensures ParseTree(cfg, Nested(id, [Str("string")])) == Err(TypeError("Model must be of type object."))
  {
    assert !ParseTree(cfg, Nested(id, [Str("string")]).kids[0]).Ok?;
  }

  /** A record without children gives a leaf whose model is the record. */
  lemma ParseLeaf(cfg: Config)
    ensures ParseTree(cfg, Object(1)) == Ok(Tree(1, false, []))
    ensures Model(ParseTree(cfg, Object(1)).value) == Object(1)
  {
  }

  lemma Parse11()
    ensures ParseTree(Default, Fixture().kids[0]) == Ok(FixtureTree().children[0])
  {
    ParseNested(Default, Fixture().kids[0], [Leaf(111)]);
    ArrangeKeepsOrder([Leaf(111)]);
  }

  lemma Parse12()
    ensures ParseTree(Default, Fixture().kids[1]) == Ok(FixtureTree().children[1])
  {
    ParseNested(Default, Fixture().kids[1], [Leaf(121), Leaf(122)]);
    ArrangeKeepsOrder([Leaf(121), Leaf(122)]);
  }

  /** The fixture parses into the fixture tree, whose model is the
      fixture record again. */
  lemma ParseFixture()
    ensures ParseTree(Default, Fixture()) == Ok(FixtureTree())
    ensures Model(FixtureTree()) == Fixture()
  {
    var t := FixtureTree();
    forall i | 0 <= i < 2 ensures ParseTree(Default, Fixture().kids[i]) == Ok(t.children[i]) {
      if i == 0 { Parse11(); } else { Parse12(); }
    }
    ParseNested(Default, Fixture(), t.children);
    ArrangeKeepsOrder(t.children);
    FixtureModel();
  }

  lemma FixtureModel()
    ensures Model(FixtureTree()) == Fixture()
  {
    var t := FixtureTree();
    assert Model(t.children[0]).kids == [Object(111)];
    assert Model(t.children[1]).kids == [Object(121), Object(122)];
    assert Model(t).kids == Fixture().kids;
  }

  lemma PreOrderOne(t: Tree)
    ensures PreOrderF([t]) == [t] + PreOrderF(t.children)
  {
    assert [t][1..] == [];
  }

  lemma PostOrderOne(t: Tree)
    ensures PostOrderF([t]) == PostOrderF(t.children) + [t]
  {
    assert [t][1..] == [];
  }

  function Leaf(id: int): Tree {
    Tree(id, false, [])
  }

  /** The pre-order of the fixture tree. */
  lemma FixturePreOrder()
    ensures var t := FixtureTree();
      PreOrder(t) == [t, t.children[0], Leaf(111), t.children[1], Leaf(121), Leaf(122)]
  {
    var t := FixtureTree();
    var a, b := t.children[0], t.children[1];
    PreOrderOne(Leaf(111)); PreOrderOne(Leaf(121)); PreOrderOne(Leaf(122));
    assert b.children == [Leaf(121)] + [Leaf(122)] && t.children == [a] + [b];
    PreOrderAppend([Leaf(121)], [Leaf(122)]);
    PreOrderOne(a); PreOrderOne(b);
    PreOrderAppend([a], [b]);
    PreOrderOne(t);
  }

  /** The post-order of the fixture tree. */
  lemma FixturePostOrder()
    ensures var t := FixtureTree();
      PostOrder(t) == [Leaf(111), t.children[0], Leaf(121), Leaf(122), t.children[1], t]
  {
    var t := FixtureTree();
    var a, b := t.children[0], t.children[1];
    PostOrderOne(Leaf(111)); PostOrderOne(Leaf(121)); PostOrderOne(Leaf(122));
    assert b.children == [Leaf(121)] + [Leaf(122)] && t.children == [a] + [b];
    PostOrderAppend([Leaf(121)], [Leaf(122)]);
    PostOrderOne(a); PostOrderOne(b);
    PostOrderAppend([a], [b]);
    PostOrderOne(t);
  }

  /** The breadth-first order of the fixture tree. */
  lemma FixtureBreadthOrder()
    ensures var t := FixtureTree();
      BreadthOrder(t) == [t, t.children[0], t.children[1], Leaf(111), Leaf(121), Leaf(122)]
  {
    var t := FixtureTree();
    var a, b := t.children[0], t.children[1];
    var l := [Leaf(111), Leaf(121), Leaf(122)];
    assert Kids([t]) == [a, b];
    assert Kids([a, b]) == l;
    assert Kids(l) == [];
    assert LevelOrder(l) == l;
    assert LevelOrder([a, b]) == [a, b] + l;
  }

  /** The default walk is pre-order and stops after node 121. */
  lemma WalkPreScenario()
    ensures var t := FixtureTree();
      && StrategyOf(None) == Ok(Pre)
      && StopAfter(Order(Pre, t), StopAt(121)) == [t, t.children[0], Leaf(111), t.children[1], Leaf(121)]
  {
    FixturePreOrder();
  }

  /** The post-order walk stops after node 121, or after node 12. */
  lemma WalkPostScenario()
    ensures var t := FixtureTree();
      && StrategyOf(Some("post")) == Ok(Post)
      && StopAfter(Order(Post, t), StopAt(121)) == [Leaf(111), t.children[0], Leaf(121)]
      && StopAfter(Order(Post, t), StopAt(12)) == [Leaf(111), t.children[0], Leaf(121), Leaf(122), t.children[1]]
  {
    FixturePostOrder();
  }

  /** The breadth-first walk stops after node 121. */
  lemma WalkBreadthScenario()
    ensures var t := FixtureTree();
      && StrategyOf(Some("breadth")) == Ok(Breadth)
      && StopAfter(Order(Breadth, t), StopAt(121)) == [t, t.children[0], t.children[1], Leaf(111), Leaf(121)]
  {
    FixtureBreadthOrder();
  }

  /** An unknown strategy name is an error. */
  lemma WalkUnknownScenario()
    ensures StrategyOf(Some("unknownStrategy")) == Err(Error(
      "Unknown tree walk strategy. Valid strategies are 'pre' [default], 'post' and 'breadth'."))
  {
  }

  /** `all` with a predicate nothing matches. */
  lemma AllNoneScenario()
    ensures All(FixtureTree(), (x: Tree) => x.id < 0) == []
  {
    FixturePreOrder();
  }

  /** `all(idEq(1))` is the root alone. */
  lemma AllRootScenario()
    ensures All(FixtureTree(), IdEq(1)) == [FixtureTree()]
  {
    FixturePreOrder();
  }

  /** `all` of the ids above 100: the three leaves, in pre-order. */
  lemma AllLeavesScenario()
    ensures All(FixtureTree(), (x: Tree) => x.id > 100) == [Leaf(111), Leaf(121), Leaf(122)]
  {
    FixturePreOrder();
  }

  /** `all` of the root's children with ids above 10. */
  lemma AllChildrenScenario()
    ensures var t := FixtureTree();
      All(t, (x: Tree) => x.id > 10 && x in t.children) == t.children
  {
    FixturePreOrder();
  }

  /** `first(idEq(121))` is the leaf 121. */
  lemma FirstScenario()
    ensures First(FixtureTree(), IdEq(121)) == Some(Leaf(121))
  {
    FixturePreOrder();
  }

  /** `first(idEq(11))` is the root's first child. */
  lemma FirstChildScenario()
    ensures First(FixtureTree(), IdEq(11)) == Some(FixtureTree().children[0])
  {
    FixturePreOrder();
  }

  /** Cutting the subtree 11 out of the fixture leaves the root with the
      subtree 12 alone, in which `first(idEq(11))` finds nothing; the cut
      subtree's model is `{id: 11, children: [{id: 111}]}`. */
  lemma DropScenario()
    ensures var t := FixtureTree();
      && TreePath(t, [0]) && Prune(t, [0]) == Tree(1, true, [t.children[1]])
      && First(Prune(t, [0]), IdEq(11)) == None
      && Model(SubtreeAt(t, [0])) == Nested(11, [Object(111)])
  {
    var t := FixtureTree();
    var b := t.children[1];
    assert [0][..0] == [] && [0][1..] == [];
    assert Prune(t, [0]) == Tree(1, true, [b]);
    PreOrderOne(Leaf(121)); PreOrderOne(Leaf(122));
    assert b.children == [Leaf(121)] + [Leaf(122)];
    PreOrderAppend([Leaf(121)], [Leaf(122)]);
    PreOrderOne(b); PreOrderOne(Tree(1, true, [b]));
    assert PreOrder(Tree(1, true, [b])) == [Tree(1, true, [b]), b, Leaf(121), Leaf(122)];
    assert Model(t.children[0]).kids == [Object(111)];
  }

  /** The path to the leaf 121 runs 1, 12, 121; the root's path is itself. */
  lemma PathScenario()
    ensures var t := FixtureTree();
      && TreePath(t, [1, 0]) && SubtreeAt(t, [1, 0]) == Leaf(121)
      && PathIds(t, [1, 0]) == [1, 12, 121] && PathIds(t, []) == [1]
  {
  }

  /** The fixture tree as the descending comparator arranges it. */
  function SortedFixtureTree(): Tree {
    Tree(1, true, [
      Tree(12, true, [Leaf(122), Leaf(121)]),
      Tree(11, true, [Leaf(111)])])
  }

  /** Its model: every children list in descending id order. */
  function SortedFixture(): Record {
    Nested(1, [Nested(12, [Object(122), Object(121)]), Nested(11, [Object(111)])])
  }

  /** `(a, b) => b.id - a.id` orders ids from the largest down, and is a
      total preorder. */
  lemma DescendingIsTotal()
    ensures TotalPreorder(Descending.comparator.value)
    ensures forall a, b :: Descending.comparator.value(a, b) <= 0 <==> b <= a
  {
  }

  /** A record whose children parse into `ts` gives the arrangement of
      `ts`. */
  lemma ParseNested(cfg: Config, r: Record, ts: seq<Tree>)
    requires r.Nested? && |ts| == |r.kids|
    requires forall i :: 0 <= i < |r.kids| ==> ParseTree(cfg, r.kids[i]) == Ok(ts[i])
    ensures ParseTree(cfg, r) == Ok(Tree(r.id, true, Arrange(cfg, ts)))
  {
    assert Parsed(cfg, r) == ts;
  }

  lemma ArrangeOne(cfg: Config, x: Tree)
    ensures Arrange(cfg, [x]) == [x]
  {
    assert [x][..0] == [];
    if cfg.comparator.Some? {
      assert Insert([], 0, x) == [x];
    }
  }

  /** A second child that may stand after the first goes behind it. */
  lemma ArrangeTwoKept(cfg: Config, x: Tree, y: Tree)
    requires cfg.comparator.None? || cfg.comparator.value(x.id, y.id) <= 0
    ensures Arrange(cfg, [x, y]) == [x, y]
  {
    assert [x, y][..1] == [x];
    ArrangeOne(cfg, x);
    if cfg.comparator.Some? {
      assert Ids([x]) == [x.id] && [x.id][1..] == [];
      assert InsertIndex(cfg.comparator.value, [x.id], y.id) == 1;
      assert Insert([x], 1, y) == [x, y];
    } else {
      assert [x] + [y] == [x, y];
    }
  }

  /** The descending comparator puts a child with a larger id in front. */
  lemma ArrangeTwoDescending(x: Tree, y: Tree)
    requires x.id < y.id
    ensures Arrange(Descending, [x, y]) == [y, x]
  {
    assert [x, y][..1] == [x];
    ArrangeOne(Descending, x);
    assert Ids([x]) == [x.id];
    assert Descending.comparator.value(x.id, y.id) > 0;
    assert InsertIndex(Descending.comparator.value, [x.id], y.id) == 0;
    assert Insert([x], 0, y) == [y, x];
  }

  lemma ParseSorted11()
    ensures ParseTree(Descending, Fixture().kids[0]) == Ok(SortedFixtureTree().children[1])
  {
    ParseNested(Descending, Nested(11, [Object(111)]), [Leaf(111)]);
    ArrangeOne(Descending, Leaf(111));
  }

  lemma ParseSorted12()
    ensures ParseTree(Descending, Fixture().kids[1]) == Ok(SortedFixtureTree().children[0])
  {
    ParseNested(Descending, Nested(12, [Object(121), Object(122)]), [Leaf(121), Leaf(122)]);
    ArrangeTwoDescending(Leaf(121), Leaf(122));
  }

  /** With the descending comparator the fixture parses into the tree whose
      children lists all run from the largest id down. */
  lemma ParseSortedFixture()
    ensures ParseTree(Descending, Fixture()) == Ok(SortedFixtureTree())
  {
    var t := SortedFixtureTree();
    var ts := [t.children[1], t.children[0]];
    forall i | 0 <= i < 2 ensures ParseTree(Descending, Fixture().kids[i]) == Ok(ts[i]) {
      if i == 0 { ParseSorted11(); } else { ParseSorted12(); }
    }
    ParseNested(Descending, Fixture(), ts);
    ArrangeTwoDescending(ts[0], ts[1]);
  }

  /** The model of the sorted tree lists the child records in that order. */
  lemma SortedFixtureModel()
    ensures Model(SortedFixtureTree()) == SortedFixture()
  {
    var t := SortedFixtureTree();
    assert Model(t.children[0]).kids == [Object(122), Object(121)];
    assert Model(t.children[1]).kids == [Object(111)];
  }
}

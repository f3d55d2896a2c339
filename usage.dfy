/** The test suite's uses of the node operations, run on the linked model:
    parse a fixture, then add, drop or look up nodes. */
module Usage {
  import opened Wrappers
  import opened Ordering
  import opened Trees
  import opened Traversal
  import opened Nodes
  import opened Builder
  import opened Scenarios

  /** `{id: 1, children: [{id: 11}, {id: 12}]}`. */
  function Pair(a: int, b: int): Record {
    Nested(1, [Object(a), Object(b)])
  }

  lemma ParsePair(cfg: Config, a: int, b: int)
    requires cfg.comparator.None? || cfg.comparator.value(a, b) <= 0
    ensures ParseTree(cfg, Pair(a, b)) == Ok(Tree(1, true, [Leaf(a), Leaf(b)]))
  {
    ArrangeTwoKept(cfg, Leaf(a), Leaf(b));
    ParseNested(cfg, Pair(a, b), [Leaf(a), Leaf(b)]);
  }

  /** The child `i` of the root of a linked shape is the node of child shape `i`. */
  lemma RootChild(s: Shape, i: nat)
    requires Linked(s) && i < |s.kids|
    ensures ValidPath(s, [i]) && At(s, [i]).node == s.node.children[i]
  {
    assert [i][1..] == [];
  }

  /** Adds a new leaf with id `id` to the root `root` of the whole tree `s`. */
  method AddLeaf(tm: TreeModel, root: Node, ghost s: Shape, id: int) returns (ghost s': Shape)
    requires Whole(s) && s.node == root && root.config == tm.config
    modifies root
    ensures Whole(s') && s'.node == root
    ensures Snapshot(s') == Tree(root.id, true, Place(tm.config, Snapshot(s).children, Leaf(id)))
  {
    assert allocated(Foot(s));
    var c, cs, _ := tm.Parse(Object(id));
    assert c.Ok?;
    var _, s1 := root.AddChild(c.value, s, [], cs.value);
    s' := s1;
  }

  /** The model of a root with four leaf children lists the leaves' records. */
  lemma FourLeavesModel(a: int, b: int, c: int, d: int)
    ensures Model(Tree(1, true, [Leaf(a), Leaf(b), Leaf(c), Leaf(d)]))
      == Nested(1, [Object(a), Object(b), Object(c), Object(d)])
  {
    var t := Tree(1, true, [Leaf(a), Leaf(b), Leaf(c), Leaf(d)]);
    assert Model(t).kids == [Object(a), Object(b), Object(c), Object(d)] by {
      assert Model(t).kids[0] == Object(a) && Model(t).kids[1] == Object(b);
      assert Model(t).kids[2] == Object(c) && Model(t).kids[3] == Object(d);
    }
  }

  /** The ids of a linked root's children are those of its snapshot's. */
  lemma FourLeavesIds(s: Shape, a: int, b: int, c: int, d: int)
    requires Linked(s) && Snapshot(s) == Tree(1, true, [Leaf(a), Leaf(b), Leaf(c), Leaf(d)])
    ensures NodeIds(s.node.children) == [a, b, c, d]
  {
    SnapshotIds(s);
    assert Ids([Leaf(a), Leaf(b), Leaf(c), Leaf(d)]) == [a, b, c, d];
  }

  /** Without a comparator `addChild` appends: the model's children become
      11, 12, 13, 10. */
  method AppendScenario() returns (root: Node, ghost s: Shape)
    ensures Whole(s) && s.node == root && NodeIds(root.children) == [11, 12, 13, 10]
    ensures Model(Snapshot(s)) == Nested(1, [Object(11), Object(12), Object(13), Object(10)])
  {
    var tm := new TreeModel(Default);
    ParsePair(Default, 11, 12);
    var r, rs, _ := tm.Parse(Pair(11, 12));
    assert r.Ok?;
    root := r.value;
    s := AddLeaf(tm, root, rs.value, 13);
    assert Snapshot(s).children == [Leaf(11), Leaf(12), Leaf(13)];
    s := AddLeaf(tm, root, s, 10);
    assert Snapshot(s) == Tree(1, true, [Leaf(11), Leaf(12), Leaf(13), Leaf(10)]);
    FourLeavesModel(11, 12, 13, 10);
    FourLeavesIds(s, 11, 12, 13, 10);
  }

  /** 13 goes in front of 12 and 11 under the descending comparator, 10
      behind them. */
  lemma PlaceDescending()
    ensures Place(Descending, [Leaf(12), Leaf(11)], Leaf(13)) == [Leaf(13), Leaf(12), Leaf(11)]
    ensures Place(Descending, [Leaf(13), Leaf(12), Leaf(11)], Leaf(10))
      == [Leaf(13), Leaf(12), Leaf(11), Leaf(10)]
  {
    var cmp := Descending.comparator.value;
    assert Ids([Leaf(12), Leaf(11)]) == [12, 11];
    assert InsertIndex(cmp, [12, 11], 13) == 0;
    assert Insert([Leaf(12), Leaf(11)], 0, Leaf(13)) == [Leaf(13), Leaf(12), Leaf(11)];
    assert Ids([Leaf(13), Leaf(12), Leaf(11)]) == [13, 12, 11];
    assert [13, 12, 11][1..] == [12, 11] && [12, 11][1..] == [11] && [11][1..] == [];
    assert InsertIndex(cmp, [13, 12, 11], 10) == 3;
    assert Insert([Leaf(13), Leaf(12), Leaf(11)], 3, Leaf(10)) == [Leaf(13), Leaf(12), Leaf(11), Leaf(10)];
  }

  /** Under the descending comparator `addChild` keeps the children in
      descending id order: 13, 12, 11, 10. */
  method SortedAppendScenario() returns (root: Node, ghost s: Shape)
    ensures Whole(s) && s.node == root && NodeIds(root.children) == [13, 12, 11, 10]
    ensures Model(Snapshot(s)) == Nested(1, [Object(13), Object(12), Object(11), Object(10)])
  {
    var tm := new TreeModel(Descending);
    ParsePair(Descending, 12, 11);
    var r, rs, _ := tm.Parse(Pair(12, 11));
    assert r.Ok?;
    root := r.value;
    PlaceDescending();
    s := AddLeaf(tm, root, rs.value, 13);
    assert Snapshot(s).children == [Leaf(13), Leaf(12), Leaf(11)];
    s := AddLeaf(tm, root, s, 10);
    assert Snapshot(s) == Tree(1, true, [Leaf(13), Leaf(12), Leaf(11), Leaf(10)]);
    FourLeavesModel(13, 12, 11, 10);
    FourLeavesIds(s, 13, 12, 11, 10);
  }

  /** Parses the fixture under the default configuration. */
  method ParseFixtureNodes() returns (root: Node, ghost s: Shape, ghost made: set<Node>)
    ensures Whole(s) && s.node == root && Snapshot(s) == FixtureTree()
    ensures Foot(s) == made && fresh(made)
  {
    var tm := new TreeModel(Default);
    ParseFixture();
    var r;
    ghost var rs;
    r, rs, made := tm.Parse(Fixture());
    assert r.Ok?;
    root, s := r.value, rs.value;
  }

  /** `drop` on the root hands back the root and changes nothing. */
  method DropRootScenario() returns (root: Node, back: Node, ghost s: Shape)
    ensures back == root && Whole(s) && s.node == root && Snapshot(s) == FixtureTree()
  {
    ghost var s0, made, d;
    root, s0, made := ParseFixtureNodes();
    back, s, d := root.Drop(s0, []);
  }

  /** `drop` on the node 11 hands back that node with its subtree, which the
      root no longer holds. */
  method DropChildScenario() returns (root: Node, dropped: Node, ghost s: Shape, ghost d: Shape)
    ensures Whole(s) && s.node == root && Whole(d) && d.node == dropped && dropped.parent == null
    ensures Model(Snapshot(d)) == Nested(11, [Object(111)])
    ensures First(Snapshot(s), IdEq(11)) == None
  {
    ghost var s0, made;
    root, s0, made := ParseFixtureNodes();
    FirstChildScenario();
    assert |s0.kids| == |Snapshot(s0).children| == 2;
    RootChild(s0, 0);
    var n11 := root.children[0];
    assert n11 in made && n11.parent == root by {
      AtFoot(s0, [0]);
      ParentAlong(s0, [0], 1);
      assert [0][..1] == [0] && [0][..0] == [];
    }
    dropped, s, d := n11.Drop(s0, [0]);
    DropScenario();
  }

  /** `getPath` on the root is the root alone; on the node 121 it runs
      through the nodes 1, 12 and 121. */
  method PathScenarioRun() returns (toRoot: seq<Node>, to121: seq<Node>)
    ensures NodeIds(toRoot) == [1] && NodeIds(to121) == [1, 12, 121]
  {
    var root;
    ghost var s, made;
    root, s, made := ParseFixtureNodes();
    toRoot := root.GetPath(s, []);
    assert |s.kids| == |Snapshot(s).children| == 2;
    RootChild(s, 1);
    var n12 := root.children[1];
    LinkedAt(s, [1]);
    assert |At(s, [1]).kids| == 2 by {
      assert At(s, [1]) == s.kids[1] && Snapshot(s.kids[1]) == Snapshot(s).children[1];
    }
    RootChild(At(s, [1]), 0);
    AtAppend(s, [1], 0);
    assert [1] + [0] == [1, 0];
    var n121 := n12.children[0];
    to121 := n121.GetPath(s, [1, 0]);
    PathScenario();
  }
}

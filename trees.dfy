/** Records, node snapshots and the value-level meaning of `parse`.

    A record is what a caller hands to `parse`: a number, a string, or an
    object with an integer `id` and, optionally, a list of child records
    under the configured children field.  A `Tree` is the value a linked
    node tree stands for at one moment: each node's id, whether its record
    has a children field, and its children in order.  A node's model is
    not stored separately: it is the record `Model` computes from the
    snapshot, so `model[childrenField]` mirrors `children` by construction. */
module Trees {
  import opened Wrappers
  import opened Ordering

  datatype Record =
    | Num(n: int)
    | Str(s: string)
    | Object(id: int)
    | Nested(id: int, kids: seq<Record>)

  /** The records JavaScript calls objects: those with an id. */
  predicate IsObject(r: Record) {
    r.Object? || r.Nested?
  }

  /** The configuration of a `TreeModel`: the optional model comparator. */
  datatype Config = Config(comparator: Option<Comparator>)

  datatype Tree = Tree(id: int, hasField: bool, children: seq<Tree>)

  const TypeErrorMessage := "Model must be of type object."

  /** Every record in the nesting is an object. */
  predicate WellFormed(r: Record) {
    IsObject(r) && (r.Nested? ==> forall i :: 0 <= i < |r.kids| ==> WellFormed(r.kids[i]))
  }

  /** The record a node carries as its model. */
  function Model(t: Tree): (r: Record)
    ensures WellFormed(r) && r.id == t.id
    ensures r.Nested? <==> t.hasField
    ensures r.Nested? ==> |r.kids| == |t.children|
  {
    var ms := seq(|t.children|, i requires 0 <= i < |t.children| => Model(t.children[i]));
    if t.hasField then Nested(t.id, ms) else Object(t.id)
  }

  function Ids(ts: seq<Tree>): (r: seq<int>)
    ensures |r| == |ts| && forall i :: 0 <= i < |ts| ==> r[i] == ts[i].id
  {
    seq(|ts|, i requires 0 <= i < |ts| => ts[i].id)
  }

  /** Where a new child goes among the children `cs`: at the end, or at its
      comparator position among the children's ids. */
  function Place(cfg: Config, cs: seq<Tree>, c: Tree): (r: seq<Tree>)
    ensures |r| == |cs| + 1 && multiset(r) == multiset(cs) + multiset{c}
  {
    if cfg.comparator.None? then cs + [c]
    else
      var k := InsertIndex(cfg.comparator.value, Ids(cs), c.id);
      InsertMultiset(cs, k, c);
      Insert(cs, k, c)
  }

  /** The children list that results from placing the trees `ts` one after
      another into an empty list. */
  function Arrange(cfg: Config, ts: seq<Tree>): (cs: seq<Tree>)
    ensures |cs| == |ts|
  {
    if ts == [] then [] else Place(cfg, Arrange(cfg, ts[..|ts| - 1]), ts[|ts| - 1])
  }

  /** The tree `parse` builds from `r`, or the TypeError it throws. */
  function ParseTree(cfg: Config, r: Record): (p: Result<Tree>)
    ensures p.Err? ==> p.error == TypeError(TypeErrorMessage)
    ensures p.Ok? ==> IsObject(r) && p.value.id == r.id && (p.value.hasField <==> r.Nested?)
    ensures p.Ok? && r.Nested? ==> |p.value.children| == |r.kids|
    ensures p.Ok? && r.Object? ==> p.value.children == []
    decreases r, 1
  {
    if !IsObject(r) then Err(TypeError(TypeErrorMessage))
    else if r.Object? then Ok(Tree(r.id, false, []))
    else if forall i :: 0 <= i < |r.kids| ==> ParseTree(cfg, r.kids[i]).Ok? then
      Ok(Tree(r.id, true, Arrange(cfg, Parsed(cfg, r))))
    else Err(TypeError(TypeErrorMessage))
  }

  /** The trees parsed from the child records of `r`, in the records' order. */
  function Parsed(cfg: Config, r: Record): (ts: seq<Tree>)
    requires r.Nested? && forall i :: 0 <= i < |r.kids| ==> ParseTree(cfg, r.kids[i]).Ok?
    ensures |ts| == |r.kids|
    decreases r, 0
  {
    seq(|r.kids|, i requires 0 <= i < |r.kids| => ParseTree(cfg, r.kids[i]).value)
  }

  /** Placing keeps every tree and adds none. */
  lemma {:induction false} ArrangePermutes(cfg: Config, ts: seq<Tree>)
    ensures multiset(Arrange(cfg, ts)) == multiset(ts)
  {
    if ts != [] {
      ArrangePermutes(cfg, ts[..|ts| - 1]);
      assert ts == ts[..|ts| - 1] + [ts[|ts| - 1]];
    }
  }

  /** Without a comparator every tree is appended, so the order is kept. */
  lemma {:induction false} ArrangeKeepsOrder(ts: seq<Tree>)
    ensures Arrange(Config(None), ts) == ts
  {
    if ts != [] {
      ArrangeKeepsOrder(ts[..|ts| - 1]);
      assert ts == ts[..|ts| - 1] + [ts[|ts| - 1]];
    }
  }

  /** With a comparator that is a total preorder, the placed trees stand in
      comparator order. */
  lemma {:induction false} ArrangeSorts(cfg: Config, ts: seq<Tree>)
    requires cfg.comparator.Some? && TotalPreorder(cfg.comparator.value)
    ensures Sorted(cfg.comparator.value, Ids(Arrange(cfg, ts)))
  {
    if ts != [] {
      var cmp := cfg.comparator.value;
      var cs := Arrange(cfg, ts[..|ts| - 1]);
      var c := ts[|ts| - 1];
      ArrangeSorts(cfg, ts[..|ts| - 1]);
      var k := InsertIndex(cmp, Ids(cs), c.id);
      IdsInsert(cs, k, c);
      InsertKeepsSorted(cmp, Ids(cs), c.id);
    }
  }

  lemma IdsInsert(cs: seq<Tree>, k: nat, c: Tree)
    requires k <= |cs|
    ensures Ids(Insert(cs, k, c)) == Insert(Ids(cs), k, c.id)
  {
  }

  /** `parse` succeeds exactly on records that are objects all the way down. */
  lemma {:induction false} ParseOkIffWellFormed(cfg: Config, r: Record)
    ensures ParseTree(cfg, r).Ok? <==> WellFormed(r)
  {
    if r.Nested? {
      forall i | 0 <= i < |r.kids| {
        ParseOkIffWellFormed(cfg, r.kids[i]);
      }
    }
  }

  /** The children `parse` builds are the parsed child records, rearranged:
      in record order without a comparator, a permutation of them with one. */
  lemma ParseChildren(cfg: Config, r: Record)
    requires r.Nested? && ParseTree(cfg, r).Ok?
    ensures forall i :: 0 <= i < |r.kids| ==> ParseTree(cfg, r.kids[i]).Ok?
    ensures multiset(ParseTree(cfg, r).value.children) == multiset(Parsed(cfg, r))
    ensures cfg.comparator.None? ==> ParseTree(cfg, r).value.children == Parsed(cfg, r)
  {
    ArrangePermutes(cfg, Parsed(cfg, r));
    if cfg.comparator.None? {
      ArrangeKeepsOrder(Parsed(cfg, r));
    }
  }

  /** Without a comparator, parsing keeps the children in record order, so
      the model of the parsed tree is the record itself. */
  lemma {:induction false} ParseKeepsModel(r: Record)
    requires ParseTree(Config(None), r).Ok?
    ensures Model(ParseTree(Config(None), r).value) == r
  {
    if r.Nested? {
      var t := ParseTree(Config(None), r).value;
      ParseChildren(Config(None), r);
      forall i | 0 <= i < |r.kids| ensures Model(t.children[i]) == r.kids[i] {
        ParseKeepsModel(r.kids[i]);
      }
      assert Model(t).kids == r.kids;
    }
  }

  /** Every node's children stand in comparator order. */
  ghost predicate SortedTree(cmp: Comparator, t: Tree) {
    Sorted(cmp, Ids(t.children)) && forall i :: 0 <= i < |t.children| ==> SortedTree(cmp, t.children[i])
  }

  /** Each child `parse` builds is the parsed form of one of the child
      records. */
  lemma ChildIsParsed(cfg: Config, r: Record, i: nat)
    requires r.Nested? && ParseTree(cfg, r).Ok? && i < |ParseTree(cfg, r).value.children|
    ensures exists j :: 0 <= j < |r.kids| && ParseTree(cfg, r.kids[j]) == Ok(ParseTree(cfg, r).value.children[i])
  {
    var ts := Parsed(cfg, r);
    ParseChildren(cfg, r);
    assert ParseTree(cfg, r).value.children[i] in multiset(ts);
  }

  /** With a comparator that is a total preorder, `parse` orders the children
      of every node by the comparator. */
  lemma {:induction false} ParseSorts(cfg: Config, r: Record)
    requires cfg.comparator.Some? && TotalPreorder(cfg.comparator.value)
    requires ParseTree(cfg, r).Ok?
    ensures SortedTree(cfg.comparator.value, ParseTree(cfg, r).value)
  {
    if r.Nested? {
      var t := ParseTree(cfg, r).value;
      ArrangeSorts(cfg, Parsed(cfg, r));
      forall i | 0 <= i < |t.children| ensures SortedTree(cfg.comparator.value, t.children[i]) {
        ChildIsParsed(cfg, r, i);
        var j :| 0 <= j < |r.kids| && ParseTree(cfg, r.kids[j]) == Ok(t.children[i]);
        ParseSorts(cfg, r.kids[j]);
      }
    }
  }

  /** Positions in a tree: a path of child indices from the root. */
  predicate TreePath(t: Tree, p: seq<nat>)
    decreases p
  {
    p == [] || (p[0] < |t.children| && TreePath(t.children[p[0]], p[1..]))
  }

  function SubtreeAt(t: Tree, p: seq<nat>): Tree
    requires TreePath(t, p)
    decreases p
  {
    if p == [] then t else SubtreeAt(t.children[p[0]], p[1..])
  }

  /** `t` with the subtree at `p` replaced by `u`. */
  function ReplaceTree(t: Tree, p: seq<nat>, u: Tree): (r: Tree)
    requires TreePath(t, p)
    ensures TreePath(r, p) && SubtreeAt(r, p) == u
    decreases p
  {
    if p == [] then u
    else Tree(t.id, t.hasField, t.children[p[0] := ReplaceTree(t.children[p[0]], p[1..], u)])
  }

  /** `t` with the subtree at the non-empty path `p` cut out of its parent's
      children. */
  function Prune(t: Tree, p: seq<nat>): (r: Tree)
    requires p != [] && TreePath(t, p)
  {
    var q := p[..|p| - 1];
    TreePathPrefix(t, p, |p| - 1);
    var u := SubtreeAt(t, q);
    ReplaceTree(t, q, Tree(u.id, u.hasField, RemoveAt(u.children, p[|p| - 1])))
  }

  lemma {:induction false} TreePathPrefix(t: Tree, p: seq<nat>, d: nat)
    requires TreePath(t, p) && d <= |p|
    ensures TreePath(t, p[..d])
    ensures d < |p| ==> (p[d] < |SubtreeAt(t, p[..d]).children|
      && TreePath(t, p[..d + 1]) && SubtreeAt(t, p[..d + 1]) == SubtreeAt(t, p[..d]).children[p[d]])
    decreases d
  {
    if d > 0 {
      assert p[..d][1..] == p[1..][..d - 1];
      assert d < |p| ==> p[..d + 1][1..] == p[1..][..d];
      TreePathPrefix(t.children[p[0]], p[1..], d - 1);
    }
  }
  /** The ids of the nodes from the root down to the node at `p`. */
  function PathIds(t: Tree, p: seq<nat>): (r: seq<int>)
    requires TreePath(t, p)
    ensures |r| == |p| + 1 && r[0] == t.id && r[|p|] == SubtreeAt(t, p).id
    decreases p
  {
    if p == [] then [t.id] else [t.id] + PathIds(t.children[p[0]], p[1..])
  }

  /** Entry `i` of the path is the node `i` steps down from the root. */
  lemma {:induction false} PathIdsAt(t: Tree, p: seq<nat>, i: nat)
    requires TreePath(t, p) && i <= |p|
    ensures TreePath(t, p[..i]) && PathIds(t, p)[i] == SubtreeAt(t, p[..i]).id
    decreases p
  {
    TreePathPrefix(t, p, i);
    if i > 0 {
      assert p[..i][1..] == p[1..][..i - 1];
      PathIdsAt(t.children[p[0]], p[1..], i - 1);
    }
  }
}

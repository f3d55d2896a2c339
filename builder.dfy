/** The builder: a `TreeModel` holds a configuration and turns records
    into linked node trees with `parse`. */
module Builder {
  import opened Wrappers
  import opened Ordering
  import opened Trees
  import opened Nodes

  /** The first `n` child records of `r`, parsed. */
  ghost function ParsedPrefix(cfg: Config, r: Record, n: nat): (ts: seq<Tree>)
    requires r.Nested? && n <= |r.kids| && forall j :: 0 <= j < n ==> ParseTree(cfg, r.kids[j]).Ok?
    ensures |ts| == n
  {
    seq(n, j requires 0 <= j < n => ParseTree(cfg, r.kids[j]).value)
  }

  lemma ParsedPrefixStep(cfg: Config, r: Record, i: nat)
    requires r.Nested? && i < |r.kids| && forall j :: 0 <= j <= i ==> ParseTree(cfg, r.kids[j]).Ok?
    ensures ParsedPrefix(cfg, r, i + 1) == ParsedPrefix(cfg, r, i) + [ParseTree(cfg, r.kids[i]).value]
  {
  }

  class TreeModel {
    const config: Config

    constructor (config: Config)
      ensures this.config == config
    {
      this.config := config;
    }

    /** `parse`: a new node tree for the record `r`, or the TypeError
        thrown when `r`, or any record nested in it, is not an object.
        On success `s` is the shape of the new tree: the tree is whole
        (each child's parent is its node, the root has none), every node
        in it, the set `made`, is new, and it stands for the tree
        `ParseTree` describes. */
    method Parse(r: Record) returns (res: Result<Node>, ghost s: Option<Shape>, ghost made: set<Node>)
      ensures res.Ok? <==> ParseTree(config, r).Ok?
      ensures res.Err? ==> res.error == TypeError(TypeErrorMessage) && s.None?
      ensures res.Ok? ==> (s.Some? && s.value.node == res.value && res.value.config == config && Whole(s.value)
        && Snapshot(s.value) == ParseTree(config, r).value)
      ensures res.Ok? ==> Foot(s.value) == made && fresh(made)
      ensures res.Ok? ==> forall n :: n in made ==> n.config == config
      decreases r, 2
    {
      if !IsObject(r) {
        return Err(TypeError(TypeErrorMessage)), None, {};
      }
      if r.Object? {
        var leaf := new Node(config, r.id, false);
        return Ok(leaf), Some(Shape(leaf, false, [])), {leaf};
      }
      var node := new Node(config, r.id, true);
      var failed, sh, added := ParseKids(node, r);
      if failed {
        return Err(TypeError(TypeErrorMessage)), None, {};
      }
      assert ParsedPrefix(config, r, |r.kids|) == Parsed(config, r);
      return Ok(node), Some(sh), {node} + added;
    }

    /** The loop of `parse` over the child records of `r`: each is parsed
        and its tree added to the new, childless `node`. Fails as soon as
        a child record fails to parse. */
    method ParseKids(node: Node, r: Record) returns (failed: bool, ghost sh: Shape, ghost added: set<Node>)
      requires r.Nested? && node.config == config && node.id == r.id
      requires node.hasField && node.parent == null && node.children == []
      modifies node
      ensures failed <==> exists j :: 0 <= j < |r.kids| && ParseTree(config, r.kids[j]).Err?
      ensures !failed ==> (sh.node == node && Whole(sh) && Foot(sh) == {node} + added && fresh(added)
        && Snapshot(sh) == Tree(r.id, true, Arrange(config, ParsedPrefix(config, r, |r.kids|))))
      ensures !failed ==> forall n :: n in added ==> n.config == config
      decreases r, 1
    {
      sh := Shape(node, true, []);
      added := {};
      var i := 0;
      while i < |r.kids|
        invariant i <= |r.kids| && forall j :: 0 <= j < i ==> ParseTree(config, r.kids[j]).Ok?
        invariant sh.node == node && Whole(sh) && Foot(sh) == {node} + added && fresh(added)
        invariant Snapshot(sh) == Tree(r.id, true, Arrange(config, ParsedPrefix(config, r, i)))
        invariant forall n :: n in added ==> n.config == config
      {
        var stop, sh', more := ParseKid(node, r, i, sh);
        if stop {
          return true, sh, added;
        }
        sh, added := sh', added + more;
        i := i + 1;
      }
      return false, sh, added;
    }

    /** One step of `parse`: the child record `i` of `r` is parsed and its
        tree added to `node`, which stands for the first `i` children. */
    method ParseKid(node: Node, r: Record, i: nat, ghost sh: Shape) returns (failed: bool, ghost sh': Shape, ghost added: set<Node>)
      requires r.Nested? && i < |r.kids| && forall j :: 0 <= j < i ==> ParseTree(config, r.kids[j]).Ok?
      requires sh.node == node && node.config == config && Whole(sh)
      requires Snapshot(sh) == Tree(r.id, true, Arrange(config, ParsedPrefix(config, r, i)))
      modifies node
      ensures failed <==> ParseTree(config, r.kids[i]).Err?
      ensures !failed ==> forall j :: 0 <= j <= i ==> ParseTree(config, r.kids[j]).Ok?
      ensures !failed ==> (sh'.node == node && Whole(sh') && Foot(sh') == Foot(sh) + added && fresh(added)
        && Snapshot(sh') == Tree(r.id, true, Arrange(config, ParsedPrefix(config, r, i + 1))))
      ensures !failed ==> forall n :: n in added ==> n.config == config
      decreases r, 0
    {
      assert allocated(Foot(sh));
      var child, cs, made := Parse(r.kids[i]);
      if child.Err? {
        return true, sh, {};
      }
      ParsedPrefixStep(config, r, i);
      var s' := Adopt(node, ParsedPrefix(config, r, i), sh, child.value, cs.value);
      return false, s', made;
    }

    /** The second half of a step of `parse`: the parsed child tree `cs`
        is placed under `node`, which stands for the trees `ts` placed. */
    method Adopt(node: Node, ghost ts: seq<Tree>, ghost sh: Shape, child: Node, ghost cs: Shape) returns (ghost sh': Shape)
      requires sh.node == node && node.config == config && Whole(sh)
      requires Snapshot(sh) == Tree(node.id, true, Arrange(config, ts))
      requires Whole(cs) && cs.node == child && Foot(sh) !! Foot(cs)
      modifies node, child
      ensures sh'.node == node && Whole(sh') && Foot(sh') == Foot(sh) + Foot(cs)
      ensures Snapshot(sh') == Tree(node.id, true, Arrange(config, ts + [Snapshot(cs)]))
    {
      assert (ts + [Snapshot(cs)])[..|ts|] == ts;
      var _, s' := node.AddChild(child, sh, [], cs);
      return s';
    }
  }
}

/** Tree walks and the queries built on them, over node snapshots.

    The three strategies hand each node to a callback in their own order and
    stop right after the first call that returns `false`; any other return
    value (`undefined` included) lets the walk go on.  A callback is modelled
    as `keep: Tree -> bool`, false exactly where the JavaScript callback
    returns `false`. */
module Traversal {
  import opened Wrappers
  import opened Trees

  /** Depth-first pre-order of a forest: each node before its subtree. */
  function PreOrderF(ts: seq<Tree>): seq<Tree> {
    if ts == [] then [] else [ts[0]] + PreOrderF(ts[0].children) + PreOrderF(ts[1..])
  }

  /** Depth-first post-order of a forest: each node after its subtree. */
  function PostOrderF(ts: seq<Tree>): seq<Tree> {
    if ts == [] then [] else PostOrderF(ts[0].children) + [ts[0]] + PostOrderF(ts[1..])
  }

  function PreOrder(t: Tree): seq<Tree> {
    PreOrderF([t])
  }

  function PostOrder(t: Tree): seq<Tree> {
    PostOrderF([t])
  }

  /** The number of nodes in a forest. */
  function SizeF(ts: seq<Tree>): nat {
    if ts == [] then 0 else 1 + SizeF(ts[0].children) + SizeF(ts[1..])
  }

  /** The children of all the trees in `ts`, in order: the next level down. */
  function Kids(ts: seq<Tree>): seq<Tree> {
    if ts == [] then [] else ts[0].children + Kids(ts[1..])
  }

  lemma {:induction false} SizeAppend(a: seq<Tree>, b: seq<Tree>)
    ensures SizeF(a + b) == SizeF(a) + SizeF(b)
  {
    if a != [] {
      assert (a + b)[0] == a[0] && (a + b)[1..] == a[1..] + b;
      SizeAppend(a[1..], b);
    } else {
      assert a + b == b;
    }
  }

  lemma {:induction false} SizeKids(ts: seq<Tree>)
    ensures SizeF(Kids(ts)) + |ts| == SizeF(ts)
  {
    if ts != [] {
      SizeKids(ts[1..]);
      SizeAppend(ts[0].children, Kids(ts[1..]));
    }
  }

  /** Breadth-first order, level by level. */
  function LevelOrder(ts: seq<Tree>): seq<Tree>
    decreases SizeF(ts)
  {
    if ts == [] then []
    else
      SizeKids(ts);
      ts + LevelOrder(Kids(ts))
  }

  function BreadthOrder(t: Tree): seq<Tree> {
    LevelOrder([t])
  }

  /** The visit order of a queue that repeatedly takes its head and appends
      the head's children. */
  ghost function QueueOrder(q: seq<Tree>): seq<Tree>
    decreases SizeF(q)
  {
    if q == [] then []
    else
      SizeAppend(q[1..], q[0].children);
      [q[0]] + QueueOrder(q[1..] + q[0].children)
  }

  lemma {:induction false} QueueOrderSplit(f: seq<Tree>, g: seq<Tree>)
    ensures QueueOrder(f + g) == f + QueueOrder(g + Kids(f))
    decreases |f|
  {
    if f != [] {
      var x, f' := f[0], f[1..];
      assert (f + g)[0] == x && (f + g)[1..] + x.children == f' + (g + x.children);
      QueueOrderSplit(f', g + x.children);
      assert g + x.children + Kids(f') == g + Kids(f);
      assert f == [x] + f';
    } else {
      assert f + g == g && g + Kids(f) == g;
    }
  }

  /** The queue visits the trees exactly level by level. */
  lemma {:induction false} QueueOrderIsLevelOrder(ts: seq<Tree>)
    ensures QueueOrder(ts) == LevelOrder(ts)
    decreases SizeF(ts)
  {
    if ts != [] {
      QueueOrderSplit(ts, []);
      assert ts + [] == ts && [] + Kids(ts) == Kids(ts);
      SizeKids(ts);
      QueueOrderIsLevelOrder(Kids(ts));
    }
  }

  /** The prefix of `s` up to and including the first element `keep` rejects. */
  function StopAfter(s: seq<Tree>, keep: Tree -> bool): seq<Tree> {
    if s == [] then [] else if !keep(s[0]) then [s[0]] else [s[0]] + StopAfter(s[1..], keep)
  }

  function Last(s: seq<Tree>): Tree
    requires s != []
  {
    s[|s| - 1]
  }

  ghost predicate AllKeep(s: seq<Tree>, keep: Tree -> bool) {
    forall i :: 0 <= i < |s| ==> keep(s[i])
  }

  /** A walk stops right after the first rejected node: what it visits is a
      prefix of the order, and every node before the last was kept. If no
      node is rejected it visits the whole order; otherwise it ends with the
      first rejected node. */
  lemma {:induction false} StopAfterStops(s: seq<Tree>, keep: Tree -> bool)
    ensures var v := StopAfter(s, keep);
      && v <= s
      && (forall i :: 0 <= i < |v| - 1 ==> keep(v[i]))
      && (AllKeep(s, keep) ==> v == s)
      && (!AllKeep(s, keep) ==> v != [] && !keep(Last(v)))
  {
    if s != [] {
      var v := StopAfter(s, keep);
      assert s == [s[0]] + s[1..];
      StopCons(s[0], s[1..], keep);
      AllKeepAppend([s[0]], s[1..], keep);
      if keep(s[0]) {
        var v' := StopAfter(s[1..], keep);
        StopAfterStops(s[1..], keep);
        assert v == [s[0]] + v';
        forall i | 0 <= i < |v| - 1 ensures keep(v[i]) {
          if i > 0 { assert v[i] == v'[i - 1]; }
        }
        if !AllKeep(s, keep) {
          assert Last(v) == Last(v');
        }
      }
    }
  }

  /** A walk whose callback rejects nothing visits the whole order. */
  lemma {:induction false} StopAllKept(s: seq<Tree>, keep: Tree -> bool)
    requires AllKeep(s, keep)
    ensures StopAfter(s, keep) == s
  {
    if s != [] {
      assert keep(s[0]);
      assert AllKeep(s[1..], keep) by {
        forall i | 0 <= i < |s[1..]| ensures keep(s[1..][i]) { assert s[1..][i] == s[i + 1]; }
      }
      StopAllKept(s[1..], keep);
    }
  }

  lemma {:induction false} StopAfterAppend(a: seq<Tree>, b: seq<Tree>, keep: Tree -> bool)
    ensures StopAfter(a + b, keep) == if AllKeep(a, keep) then a + StopAfter(b, keep) else StopAfter(a, keep)
  {
    if a != [] {
      assert (a + b)[0] == a[0] && (a + b)[1..] == a[1..] + b;
      StopAfterAppend(a[1..], b, keep);
    } else {
      assert a + b == b;
    }
  }

  lemma AllKeepAppend(a: seq<Tree>, b: seq<Tree>, keep: Tree -> bool)
    ensures AllKeep(a + b, keep) <==> AllKeep(a, keep) && AllKeep(b, keep)
  {
    if AllKeep(a, keep) && AllKeep(b, keep) {
      forall i | 0 <= i < |a + b| ensures keep((a + b)[i]) {
        if i >= |a| { assert (a + b)[i] == b[i - |a|]; }
      }
    }
    if AllKeep(a + b, keep) {
      forall i | 0 <= i < |a| ensures keep(a[i]) {
        assert (a + b)[i] == a[i];
      }
      forall i | 0 <= i < |b| ensures keep(b[i]) {
        assert (a + b)[|a| + i] == b[i];
      }
    }
  }

  /** What a walk visited, and whether it ran to the end (`going`) or was
      stopped by a `false` from the callback. */
  datatype Visit = Visit(visited: seq<Tree>, going: bool)

  /** The pre-order walk of a forest: call back on a tree, then walk its
      children one after another while the walk keeps going, then go on with
      the next tree. */
  function PreWalk(ts: seq<Tree>, keep: Tree -> bool): Visit {
    if ts == [] then Visit([], true)
    else if !keep(ts[0]) then Visit([ts[0]], false)
    else
      var a := PreWalk(ts[0].children, keep);
      if !a.going then Visit([ts[0]] + a.visited, false)
      else
        var b := PreWalk(ts[1..], keep);
        Visit([ts[0]] + (a.visited + b.visited), b.going)
  }

  /** The post-order walk of a forest: walk a tree's children, stopping if
      one of those walks stopped, then call back on the tree, then go on with
      the next tree. */
  function PostWalk(ts: seq<Tree>, keep: Tree -> bool): Visit {
    if ts == [] then Visit([], true)
    else
      var a := PostWalk(ts[0].children, keep);
      if !a.going then a
      else if !keep(ts[0]) then Visit(a.visited + [ts[0]], false)
      else
        var b := PostWalk(ts[1..], keep);
        Visit(a.visited + [ts[0]] + b.visited, b.going)
  }

  /** The pre-order walk hands the callback the pre-order up to and including
      the first node it rejects, and reports whether it rejected none. */
  lemma {:induction false} PreWalkVisits(ts: seq<Tree>, keep: Tree -> bool)
    ensures PreWalk(ts, keep).visited == StopAfter(PreOrderF(ts), keep)
    ensures PreWalk(ts, keep).going <==> AllKeep(PreOrderF(ts), keep)
  {
    if ts != [] {
      var t0, A, B := ts[0], PreOrderF(ts[0].children), PreOrderF(ts[1..]);
      var S := [t0] + (A + B);
      assert PreOrderF(ts) == S;
      assert S[0] == t0 && S[1..] == A + B;
      if !keep(t0) {
        assert PreWalk(ts, keep) == Visit([t0], false);
        assert !keep(S[0]);
      } else {
        AllKeepAppend([t0], A + B, keep);
        AllKeepAppend(A, B, keep);
        var a := PreWalk(t0.children, keep);
        PreWalkVisits(t0.children, keep);
        StopAfterAppend(A, B, keep);
        assert StopAfter(S, keep) == [t0] + StopAfter(A + B, keep);
        if a.going {
          var b := PreWalk(ts[1..], keep);
          PreWalkVisits(ts[1..], keep);
          StopAllKept(A, keep);
          assert PreWalk(ts, keep) == Visit([t0] + (A + b.visited), b.going);
        }
      }
    }
  }

  /** The post-order walk hands the callback the post-order up to and
      including the first node it rejects, and reports whether it rejected
      none. */
  lemma {:induction false} PostWalkVisits(ts: seq<Tree>, keep: Tree -> bool)
    ensures PostWalk(ts, keep).visited == StopAfter(PostOrderF(ts), keep)
    ensures PostWalk(ts, keep).going <==> AllKeep(PostOrderF(ts), keep)
  {
    if ts != [] {
      var t0, A, B := ts[0], PostOrderF(ts[0].children), PostOrderF(ts[1..]);
      var T := [t0] + B;
      assert PostOrderF(ts) == A + T;
      assert T[0] == t0 && T[1..] == B;
      var a := PostWalk(t0.children, keep);
      PostWalkVisits(t0.children, keep);
      StopAfterAppend(A, T, keep);
      AllKeepAppend(A, T, keep);
      AllKeepAppend([t0], B, keep);
      if a.going {
        StopAllKept(A, keep);
        if !keep(t0) {
          assert PostWalk(ts, keep) == Visit(A + [t0], false);
          assert StopAfter(T, keep) == [t0];
          assert !keep([t0][0]);
        } else {
          var b := PostWalk(ts[1..], keep);
          PostWalkVisits(ts[1..], keep);
          assert PostWalk(ts, keep) == Visit(A + [t0] + b.visited, b.going);
          assert StopAfter(T, keep) == [t0] + b.visited;
        }
      }
    }
  }

  /** The breadth-first walk: a queue that starts with the tree; take the
      head, queue its children, call back on it, and stop after a `false`. */
  method BreadthWalk(t: Tree, keep: Tree -> bool) returns (visited: seq<Tree>)
    ensures visited == StopAfter(BreadthOrder(t), keep)
  {
    var queue := [t];
    visited := [];
    QueueOrderIsLevelOrder([t]);
    while queue != []
      invariant StopAfter(BreadthOrder(t), keep) == visited + StopAfter(QueueOrder(queue), keep)
      decreases SizeF(queue)
    {
      var node := queue[0];
      var rest := queue[1..] + node.children;
      QueueStep(queue);
      StopCons(node, QueueOrder(rest), keep);
      queue := rest;
      if !keep(node) {
        visited := visited + [node];
        return;
      }
      visited := visited + [node];
    }
  }

  lemma QueueStep(q: seq<Tree>)
    requires q != []
    ensures QueueOrder(q) == [q[0]] + QueueOrder(q[1..] + q[0].children)
    ensures SizeF(q[1..] + q[0].children) < SizeF(q)
  {
    SizeAppend(q[1..], q[0].children);
  }

  lemma StopCons(x: Tree, s: seq<Tree>, keep: Tree -> bool)
    ensures StopAfter([x] + s, keep) == if keep(x) then [x] + StopAfter(s, keep) else [x]
  {
    assert ([x] + s)[0] == x && ([x] + s)[1..] == s;
  }

  datatype Strategy = Pre | Post | Breadth

  const UnknownStrategyMessage :=
    "Unknown tree walk strategy. Valid strategies are 'pre' [default], 'post' and 'breadth'."

  /** The strategy named by a walk's `strategy` option; absent means `pre`. */
  function StrategyOf(name: Option<string>): (r: Result<Strategy>)
    ensures r.Ok? <==> name.None? || name.value == "pre" || name.value == "post" || name.value == "breadth"
    ensures r.Err? ==> r.error == Error(UnknownStrategyMessage)
    ensures r == Ok(Pre) <==> name.None? || name.value == "pre"
    ensures r == Ok(Post) <==> name == Some("post")
  {
    if name.None? || name.value == "pre" then Ok(Pre)
    else if name.value == "post" then Ok(Post)
    else if name.value == "breadth" then Ok(Breadth)
    else Err(Error(UnknownStrategyMessage))
  }

  function Order(s: Strategy, t: Tree): seq<Tree> {
    match s
    case Pre => PreOrder(t)
    case Post => PostOrder(t)
    case Breadth => BreadthOrder(t)
  }

  /** `walk([options], callback)`: the nodes handed to the callback, or the
      error an unknown strategy raises before any node is visited. */
  method Walk(name: Option<string>, t: Tree, keep: Tree -> bool) returns (r: Result<seq<Tree>>)
    ensures StrategyOf(name).Err? ==> r == Err(Error(UnknownStrategyMessage))
    ensures StrategyOf(name).Ok? ==> r == Ok(StopAfter(Order(StrategyOf(name).value, t), keep))
  {
    var s := StrategyOf(name);
    if s.Err? {
      return Err(s.error);
    }
    match s.value
    case Pre =>
      PreWalkVisits([t], keep);
      r := Ok(PreWalk([t], keep).visited);
    case Post =>
      PostWalkVisits([t], keep);
      r := Ok(PostWalk([t], keep).visited);
    case Breadth =>
      var v := BreadthWalk(t, keep);
      r := Ok(v);
  }

  /** The elements of `s` that satisfy `p`, in order. */
  function Filter(s: seq<Tree>, p: Tree -> bool): seq<Tree> {
    if s == [] then [] else (if p(s[0]) then [s[0]] else []) + Filter(s[1..], p)
  }

  lemma {:induction false} FilterMembers(s: seq<Tree>, p: Tree -> bool)
    ensures forall x :: x in Filter(s, p) <==> x in s && p(x)
  {
    if s != [] {
      FilterMembers(s[1..], p);
      assert s == [s[0]] + s[1..];
    }
  }

  /** `all(predicate)`: a pre-order walk whose callback never stops it,
      collecting the nodes the predicate accepts. */
  function All(t: Tree, p: Tree -> bool): (r: seq<Tree>)
    ensures r == Filter(PreOrder(t), p)
  {
    StopAllKept(PreOrder(t), _ => true);
    PreWalkVisits([t], _ => true);
    Filter(PreWalk([t], _ => true).visited, p)
  }

  /** `all` returns exactly the matching nodes of the tree, in pre-order. */
  lemma AllMatches(t: Tree, p: Tree -> bool)
    ensures forall x :: x in All(t, p) <==> x in PreOrder(t) && p(x)
    ensures All(t, p) == [] <==> forall i :: 0 <= i < |PreOrder(t)| ==> !p(PreOrder(t)[i])
  {
    FilterMembers(PreOrder(t), p);
    if All(t, p) != [] {
      var x := All(t, p)[0];
      assert x in All(t, p);
    }
  }

  lemma {:induction false} StopAtFirstMatch(s: seq<Tree>, p: Tree -> bool)
    ensures AllKeep(s, x => !p(x)) <==> Filter(s, p) == []
    ensures !AllKeep(s, x => !p(x)) ==>
      StopAfter(s, x => !p(x)) != [] && Last(StopAfter(s, x => !p(x))) == Filter(s, p)[0]
  {
    if s != [] {
      var keep := x => !p(x);
      StopAtFirstMatch(s[1..], p);
      assert s == [s[0]] + s[1..];
      AllKeepAppend([s[0]], s[1..], keep);
      StopCons(s[0], s[1..], keep);
      if !p(s[0]) {
        assert Filter(s, p) == Filter(s[1..], p);
      }
    }
  }

  /** `first(predicate)`: a pre-order walk whose callback stops it at the
      first node the predicate accepts, which it returns. */
  function First(t: Tree, p: Tree -> bool): (r: Option<Tree>)
    ensures r.None? <==> All(t, p) == []
    ensures r.Some? ==> r.value == All(t, p)[0]
  {
    var v := PreWalk([t], x => !p(x));
    PreWalkVisits([t], x => !p(x));
    StopAtFirstMatch(PreOrder(t), p);
    if v.going then None else Some(Last(v.visited))
  }

  /** Post-order visits the same nodes as pre-order. */
  lemma {:induction false} PostSameNodes(ts: seq<Tree>)
    ensures multiset(PostOrderF(ts)) == multiset(PreOrderF(ts))
  {
    if ts != [] {
      PostSameNodes(ts[0].children);
      PostSameNodes(ts[1..]);
    }
  }

  /** Breadth order visits the same nodes as pre-order. */
  lemma {:induction false} LevelSameNodes(ts: seq<Tree>)
    ensures multiset(LevelOrder(ts)) == multiset(PreOrderF(ts))
    decreases SizeF(ts)
  {
    if ts != [] {
      KidsPreOrder(ts);
      SizeKids(ts);
      LevelSameNodes(Kids(ts));
    }
  }

  /** Pre-order of a forest lists the roots and the pre-orders of their
      children, as a multiset. */
  lemma {:induction false} KidsPreOrder(ts: seq<Tree>)
    ensures multiset(PreOrderF(ts)) == multiset(ts) + multiset(PreOrderF(Kids(ts)))
  {
    if ts != [] {
      KidsPreOrder(ts[1..]);
      PreOrderAppend(ts[0].children, Kids(ts[1..]));
      assert ts == [ts[0]] + ts[1..];
    }
  }

  lemma {:induction false} PreOrderAppend(a: seq<Tree>, b: seq<Tree>)
    ensures PreOrderF(a + b) == PreOrderF(a) + PreOrderF(b)
  {
    if a != [] {
      assert (a + b)[0] == a[0] && (a + b)[1..] == a[1..] + b;
      PreOrderAppend(a[1..], b);
    } else {
      assert a + b == b;
    }
  }

  lemma {:induction false} PostOrderAppend(a: seq<Tree>, b: seq<Tree>)
    ensures PostOrderF(a + b) == PostOrderF(a) + PostOrderF(b)
  {
    if a != [] {
      assert (a + b)[0] == a[0] && (a + b)[1..] == a[1..] + b;
      PostOrderAppend(a[1..], b);
    } else {
      assert a + b == b;
    }
  }

  /** The root comes first in pre-order and breadth order, and last in
      post-order. */
  lemma RootPlacement(t: Tree)
    ensures PreOrder(t)[0] == t && BreadthOrder(t)[0] == t
    ensures PostOrder(t) != [] && PostOrder(t)[|PostOrder(t)| - 1] == t
  {
    assert [t][0] == t && [t][1..] == [] && PostOrderF([]) == [];
    assert PostOrder(t) == PostOrderF(t.children) + [t] + [];
  }
}

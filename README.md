# TreeModel in Dafny

A model of the node engine of TreeModel (`tree-model-js`), a small in-memory
tree toolkit. The model is written from the behaviour the test suite
`test/test.js` pins down.

In the source, a `TreeModel` holds a configuration: an optional comparator and
the name of the children field. It turns nested records into linked nodes
with `parse`. Each node holds its record (`model`), its `parent` and its
ordered `children`. In this model a `Node` holds its configuration, the
record's id, whether the record has a children field, its `parent` and its
`children`. The node's record is not stored. It is computed from the tree's
snapshot (`Trees.Model`). The node's operations are:

- `addChild`, which appends a child, or inserts it at its comparator position;
- `drop`, which detaches a node and returns it;
- `walk`, in pre-order, post-order or breadth-first order, stopping after the
  first callback that returns `false`;
- the queries `all`, `first` and `getPath`.

The project has these modules:

- `Wrappers`: `Option`, `Result` and the two kinds of JavaScript exception
  (`TypeError`, `Error`).
- `Ordering`: the comparator, ordered insertion (`InsertIndex`, `Insert`), and
  the scan `addChild` runs (`FindInsertIndex`).
- `Trees`: records (numbers, strings, objects with an integer id and
  optionally a children list); the value a node tree stands for at one moment
  (`Tree`: id, whether the record has a children field, children); the
  record a node carries (`Model`); and the value-level meaning of `parse`
  (`ParseTree`). A node's model is computed from its snapshot, so
  `model[childrenField]` mirrors `children` by construction.
- `Traversal`: the three walk orders and the stop-after-`false` rule
  (`StopAfter`). A recursive pre- and post-order walk and the breadth-first
  queue loop are each proved to visit exactly that. Also the strategy option,
  `all` and `first`.
- `Nodes`: the `Node` class with mutable `parent`, `children` and
  `hasField`. `addChild`, `drop` and `getPath` work on the heap. A ghost
  `Shape` describes which nodes form the tree. `Whole(s)` says:
  - the heap links agree with the shape (each node's `children` are its child
    shapes' nodes, and each child's `parent` is its node);
  - no node occurs twice;
  - the root has no parent.

  `Snapshot(s)` is the `Tree` the shape stands for.
- `Builder`: the `TreeModel` class and its `parse`. It builds the tree node by
  node with `addChild`'s placement and is proved to produce a whole tree of
  new nodes whose snapshot is `ParseTree`.
- `Scenarios` and `Usage`: the test suite's fixtures and expectations, as
  lemmas on values and as methods that run the heap operations.

## Model

| member | source | states |
|---|---|---|
| Ordering.InsertIndexSplits | test/test.js:404-409 | every child in front of the insertion position may stand before the new child; the child at the position must come after it |
| Ordering.InsertKeepsSorted | test/test.js:404-409 | with a comparator that is a total preorder, ordered insertion keeps a sorted children list sorted |
| Ordering.InsertMultiset | test/test.js:404-409 | insertion adds exactly the new child and drops nothing |
| Ordering.FindInsertIndex | test/test.js:404-409 | the linear scan over the current children's ids stops at the ordered insertion position: all before it may precede the new id, the one at it may not |
| Trees.Model | test/test.js:43-52 | a node's record is an object with the node's id; it has a children field exactly when the node does, with one child record per child |
| Trees.Place | test/test.js:111-115 | placing a child adds it to the children list and keeps every other child |
| Trees.ParseTree | test/test.js:28-41 | a failed parse throws a TypeError "Model must be of type object."; a successful one keeps the root id, has a children field exactly when the record does, and has as many children as the record lists |
| Trees.ParseOkIffWellFormed | test/test.js:28-41 | `parse` succeeds exactly on records that are objects at every depth |
| Trees.ArrangePermutes | test/test.js:347-394 | the children built from the child records are a permutation of the parsed child records |
| Trees.ArrangeKeepsOrder | test/test.js:54-101 | without a comparator the children keep the records' order |
| Trees.ArrangeSorts | test/test.js:347-394 | with a total-preorder comparator the children stand in comparator order |
| Trees.ParseChildren | test/test.js:54-101 | the children of a parsed node are its parsed child records, rearranged; in record order without a comparator |
| Trees.ParseKeepsModel | test/test.js:43-101 | without a comparator the model of the parsed tree is the record it came from |
| Trees.ChildIsParsed | test/test.js:347-394 | every child of a parsed node is the parse of one of its child records |
| Trees.ParseSorts | test/test.js:347-394 | with a total-preorder comparator the children of every node, at every depth, stand in comparator order |
| Trees.PathIds | test/test.js:137-151 | the id path from the root to a position has one entry per level, starting with the root's id and ending with the node's |
| Trees.PathIdsAt | test/test.js:137-151 | entry `i` of the id path is the id of the node `i` steps below the root along the path |
| Traversal.QueueOrderIsLevelOrder | test/test.js:225-236 | a queue that takes its head and appends the head's children visits the tree level by level |
| Traversal.StopAfterStops | test/test.js:188-236 | a walk visits a prefix of its order, and every node visited before the last was kept. If no node is rejected it visits the whole order; otherwise it ends with the first rejected node |
| Traversal.StopAllKept | test/test.js:188-236 | a callback that never returns `false` sees every node |
| Traversal.PreWalkVisits | test/test.js:188-199 | the recursive pre-order walk calls back on the pre-order up to and including the first rejected node, and reports whether it rejected none |
| Traversal.PostWalkVisits | test/test.js:201-223 | the recursive post-order walk calls back on the post-order up to and including the first rejected node, and reports whether it rejected none |
| Traversal.BreadthWalk | test/test.js:225-236 | the breadth-first loop calls back on the breadth-first order up to and including the first rejected node |
| Traversal.StrategyOf | test/test.js:238-245 | no strategy or `pre` selects pre-order, `post` post-order, `breadth` breadth-first; any other name is an Error with the unknown-strategy message |
| Traversal.Walk | test/test.js:188-245 | `walk` raises the unknown-strategy Error, or visits the selected order up to and including the first node the callback rejects |
| Traversal.PostSameNodes | test/test.js:201-223 | post-order lists the same nodes as pre-order |
| Traversal.LevelSameNodes | test/test.js:225-236 | breadth-first order lists the same nodes as pre-order |
| Traversal.RootPlacement | test/test.js:188-236 | the root is visited first in pre-order and breadth-first order, and last in post-order |
| Traversal.FilterMembers | test/test.js:267-301 | filtering keeps exactly the elements that satisfy the predicate |
| Traversal.All | test/test.js:248-302 | `all`, a pre-order walk that never stops, collects the pre-order's matching nodes, in order |
| Traversal.AllMatches | test/test.js:267-301 | `all` returns exactly the matching nodes of the tree; it is empty exactly when no node matches |
| Traversal.StopAtFirstMatch | test/test.js:144-151 | a walk stopped at the first match ends with the first match in pre-order, and runs through exactly when nothing matches |
| Traversal.First | test/test.js:144-151 | `first` is undefined exactly when `all` is empty, and otherwise is the first node `all` returns |
| Nodes.Node.AddChild | test/test.js:104-115 | sets the child's parent to this node, and adds a children field. Without a comparator the child is appended; with one it is inserted at the scan's position. The tree stays whole, with the child's nodes added, and its snapshot has the child's tree placed under this node |
| Nodes.Node.Drop | test/test.js:304-331 | returns this node and clears its parent. On the root nothing else changes. Otherwise the node is removed from its parent's children at its position, and both the remaining tree and the dropped subtree are whole and share no node. The remaining snapshot is the tree pruned there, the dropped one the subtree as it was |
| Nodes.Node.GetPath | test/test.js:137-151 | following parent links gives the nodes from the root down to this node, one per level, and their ids are the snapshot's id path |
| Nodes.PathSnapshot | test/test.js:137-151 | the ids of the nodes along a path are the id path of the snapshot |
| Nodes.IndexOf | test/test.js:323-330 | the lookup `drop` uses on its parent's children: the first position holding the node, or -1 exactly when it is absent |
| Nodes.TidyInsert | test/test.js:104-115 | inserting a separate tree among a node's children keeps every node occurring once |
| Nodes.TidyRemove | test/test.js:323-330 | removing a child subtree keeps every node occurring once, and the removed subtree shares no node with the rest |
| Nodes.Grafted | test/test.js:104-115 | the heap after `addChild` is the whole tree with the child's tree placed; its root is unchanged |
| Nodes.Pruned | test/test.js:323-330 | the heap after `drop` is two whole trees that share no node: the pruned tree and the dropped subtree |
| Builder.TreeModel.constructor | test/test.js:23-25 | a `TreeModel` keeps the configuration it is given |
| Builder.TreeModel.Parse | test/test.js:28-101 | fails with the TypeError exactly when `ParseTree` does. Otherwise it returns a root with no parent, heading a whole tree of new nodes whose snapshot is `ParseTree` of the record. Every new node carries the `TreeModel`'s configuration, so `addChild` on any of them uses its comparator |
| Builder.TreeModel.ParseKids | test/test.js:54-101 | the loop over the child records fails exactly when some child record fails to parse; otherwise the node holds the arranged parsed children, all new nodes with the `TreeModel`'s configuration |
| Builder.TreeModel.ParseKid | test/test.js:54-101 | one step: fails exactly when that child record fails to parse, and otherwise places its tree, made of new nodes with the `TreeModel`'s configuration, among the children built so far |
| Builder.TreeModel.Adopt | test/test.js:88-100 | a parsed child tree becomes a child of the node and follows the arrangement |
| Scenarios.ParseRefuses | test/test.js:28-41 | a number, a string and a record with a string child are each refused with the TypeError "Model must be of type object." |
| Scenarios.ParseLeaf | test/test.js:43-52 | `{id: 1}` parses into a childless root whose model is `{id: 1}` |
| Scenarios.ParseFixture | test/test.js:54-101 | the fixture record parses into the tree 1 → {11 → {111}, 12 → {121, 122}} in record order |
| Scenarios.FixtureModel | test/test.js:74-97 | the model of that tree is the fixture record |
| Scenarios.FixturePreOrder | test/test.js:188-199 | the fixture's pre-order is 1, 11, 111, 12, 121, 122 |
| Scenarios.FixturePostOrder | test/test.js:201-223 | the fixture's post-order is 111, 11, 121, 122, 12, 1 |
| Scenarios.FixtureBreadthOrder | test/test.js:225-236 | the fixture's breadth-first order is 1, 11, 12, 111, 121, 122 |
| Scenarios.WalkPreScenario | test/test.js:188-199 | the default walk is pre-order and, stopping at 121, visits 1, 11, 111, 12, 121 |
| Scenarios.WalkPostScenario | test/test.js:201-223 | the post-order walk visits 111, 11, 121 when stopping at 121, and 111, 11, 121, 122, 12 when stopping at 12 |
| Scenarios.WalkBreadthScenario | test/test.js:225-236 | the breadth-first walk, stopping at 121, visits 1, 11, 12, 111, 121 |
| Scenarios.WalkUnknownScenario | test/test.js:238-245 | the strategy `unknownStrategy` is an Error with the unknown-strategy message |
| Scenarios.AllNoneScenario | test/test.js:267-273 | `all` of ids below 0 is empty |
| Scenarios.AllRootScenario | test/test.js:275-280 | `all(idEq(1))` is the root alone |
| Scenarios.AllLeavesScenario | test/test.js:282-291 | `all` of ids above 100 is 111, 121, 122 |
| Scenarios.AllChildrenScenario | test/test.js:293-301 | `all` of the root's children with ids above 10 is 11, 12 |
| Scenarios.FirstScenario | test/test.js:144-151 | `first(idEq(121))` is the node 121 |
| Scenarios.FirstChildScenario | test/test.js:327-330 | `first(idEq(11))` is the root's first child |
| Scenarios.DropScenario | test/test.js:327-330 | after the subtree 11 is cut off, `first(idEq(11))` finds nothing; the cut subtree's model is `{id: 11, children: [{id: 111}]}` |
| Scenarios.PathScenario | test/test.js:137-151 | the id path to 121 is 1, 12, 121, and the root's is 1 |
| Scenarios.DescendingIsTotal | test/test.js:340-342 | `b.id - a.id` finds two ids in order exactly when the first is not smaller, and it is a total preorder |
| Scenarios.ArrangeTwoDescending | test/test.js:340-342 | under `b.id - a.id` a later child with a larger id goes in front |
| Scenarios.ParseSorted11 | test/test.js:347-394 | with `b.id - a.id` the record 11 parses into 11 → {111} |
| Scenarios.ParseSorted12 | test/test.js:347-394 | with `b.id - a.id` the record 12 parses into 12 → {122, 121} |
| Scenarios.ParseSortedFixture | test/test.js:347-394 | with `b.id - a.id` the fixture parses into 1 → {12 → {122, 121}, 11 → {111}} |
| Scenarios.SortedFixtureModel | test/test.js:367-390 | the model of the sorted tree lists the child records at every depth in that order |
| Usage.ParsePair | test/test.js:108 | `{id: 1, children: [{id: a}, {id: b}]}` parses into the root with the leaves a, b in that order, when the comparator lets a stand before b or there is none |
| Usage.AddLeaf | test/test.js:112-113 | `root.addChild(treeModel.parse({id}))` keeps the tree whole and places the new leaf among the root's children |
| Usage.FourLeavesIds | test/test.js:114 | the child nodes of a linked root whose snapshot has four leaves carry those leaves' ids, in order |
| Usage.FourLeavesModel | test/test.js:114 | the model of a root with four leaf children lists the four leaf records |
| Usage.AppendScenario | test/test.js:104-115 | without a comparator, adding 13 and then 10 to the root of 11, 12 gives the root's child nodes ids 11, 12, 13, 10 and the model children 11, 12, 13, 10 |
| Usage.PlaceDescending | test/test.js:404-409 | under `b.id - a.id`, 13 goes in front of 12, 11 and 10 goes behind 13, 12, 11 |
| Usage.SortedAppendScenario | test/test.js:397-410 | with `b.id - a.id`, adding 13 and then 10 to the root of 12, 11 gives the root's child nodes ids 13, 12, 11, 10 and the model children 13, 12, 11, 10 |
| Usage.ParseFixtureNodes | test/test.js:54-101 | parsing the fixture gives a whole tree of new nodes standing for the fixture tree |
| Usage.DropRootScenario | test/test.js:323-325 | `drop` on the root gives back the root and leaves the tree as it was |
| Usage.DropChildScenario | test/test.js:327-330 | `drop` on the node 11 gives back that node, now without a parent, with the model `{id: 11, children: [{id: 111}]}`; no node 11 is left under the root |
| Usage.PathScenarioRun | test/test.js:137-151 | `getPath` on the root gives the root's id alone; on the node 121 it gives the ids 1, 12, 121 |

## Left out

- The module that implements TreeModel, src/TreeModel.js, is not part of this model. The model follows what the test suite asserts.
- Records are values, not shared objects. `parse`, `addChild` and `drop` do not rewrite the caller's record in place: the reordered `deps` (test/test.js:367-379) and the grown children list (test/test.js:114, :408) are stated on the computed model (`Trees.Model`) instead. That a node's `model` is the very object the caller passed in, so that the caller sees those changes, is not modelled.
- The name of the children field (`children`, or `deps` under `childrenPropertyName`) is not modelled. `Nested` stands for a record that has the configured field.
- Records are numbers, strings, or objects with an integer `id`, optionally with a children list. Other fields and other value types are left out. The test's `{children: ['string']}`, which has no id, is stated for every id (`Scenarios.ParseRefuses`).
- The comparator is a function on the two records' ids, not on whole records. Its ordering facts are stated only under a total-preorder assumption.
- Callbacks and predicates are pure functions of the node's snapshot (`Tree -> bool`). The `thisArg` of `walk` is JavaScript call-context plumbing and is left out. `false` versus any other return value is the only distinction modelled.
- Traversal.AllMatches: predicates see snapshots, not linked nodes. So the test's `node.parent === root` is stated as membership in the root's children (`Scenarios.AllChildrenScenario`).
- `walk`, `all` and `first` run on the snapshot of a tree, not on the heap. `getPath` runs on the heap.
- Nodes.Node.AddChild requires the added node to be the root of a separate whole tree. Adding a node that already has a parent, or one of the tree's own nodes, is left unspecified.
- Builder.TreeModel.Parse: the partial state a failing parse leaves behind (nodes already allocated and linked) is not described. Only the TypeError result is.
- Trees.ParseTree: with a comparator, `parse` places the children one by one with the same ordered insertion as `addChild`. For a total preorder this gives the same order as a stable sort, but that equivalence is not proved. Ties are not asserted either way.
- Nodes.Node.GetPath takes the node's position in the tree as a ghost argument. The method itself follows parent links only.
- Exceptions are results (`Result`), not non-local control flow.

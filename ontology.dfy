/**
 * The ontology tree of Python concepts: mutable nodes that gain children and
 * relationships in place, the stack-based walk `iter_nodes`, and the
 * name-to-description map `ontology_as_dict` built from that walk.
 */
module Ontology {

  /** A semantic link from a concept to the concept named `target`. */
  datatype Relationship = Relationship(kind: string, target: string)

  class OntologyNode {
    var name: string
    var description: string
    var difficulty: string
    var examples: seq<string>
    var relationships: seq<Relationship>
    var children: seq<OntologyNode>

    constructor (name: string, description: string, difficulty: string := "Beginner",
                 examples: seq<string> := [], relationships: seq<Relationship> := [],
                 children: seq<OntologyNode> := [])
      ensures this.name == name && this.description == description && this.difficulty == difficulty
      ensures this.examples == examples && this.relationships == relationships
      ensures this.children == children
    {
      this.name := name;
      this.description := description;
      this.difficulty := difficulty;
      this.examples := examples;
      this.relationships := relationships;
      this.children := children;
    }

    /** `add_child`: the child goes last; nothing else changes. */
    method AddChild(child: OntologyNode)
      modifies this`children
      ensures children == old(children) + [child]
      ensures name == old(name) && description == old(description) && difficulty == old(difficulty)
      ensures examples == old(examples) && relationships == old(relationships)
    {
      children := children + [child];
    }

    /** `add_relationship`: the new relationship goes last; nothing else changes. */
    method AddRelationship(relation: string, target: string)
      modifies this`relationships
      ensures relationships == old(relationships) + [Relationship(relation, target)]
      ensures name == old(name) && description == old(description) && difficulty == old(difficulty)
      ensures examples == old(examples) && children == old(children)
    {
      relationships := relationships + [Relationship(relation, target)];
    }
  }

  /** A finite witness of the shape of the object graph below a node: the
      node itself and, in order, the witnesses of its children. A node whose
      descendants lead back to it has no such witness; a node reachable along
      two paths appears in the witness twice. */
  datatype Tree = Tree(node: OntologyNode, kids: seq<Tree>)

  /** `t` describes the objects reachable from `n` through `children`. */
  ghost predicate Shaped(n: OntologyNode, t: Tree)
    reads *
    decreases t
  {
    && t.node == n
    && |n.children| == |t.kids|
    && forall i :: 0 <= i < |t.kids| ==> Shaped(n.children[i], t.kids[i])
  }

  /** The nodes of a tree in pre-order, children left to right. */
  function Nodes(t: Tree): seq<OntologyNode>
    decreases t
  {
    [t.node] + NodesOf(t.kids)
  }

  /** The nodes of a sequence of trees, tree after tree. Its length, the sum
      of the trees' sizes, is the measure that the walk decreases. */
  function NodesOf(ts: seq<Tree>): seq<OntologyNode>
    decreases ts
  {
    if ts == [] then [] else NodesOf(ts[..|ts| - 1]) + Nodes(ts[|ts| - 1])
  }

  /** No node appears twice in the tree: the tree shares no node. */
  ghost predicate NoSharing(t: Tree) {
    forall i, j :: 0 <= i < j < |Nodes(t)| ==> Nodes(t)[i] != Nodes(t)[j]
  }

  lemma {:induction false} NodesOfAppend(a: seq<Tree>, b: seq<Tree>)
    ensures NodesOf(a + b) == NodesOf(a) + NodesOf(b)
    decreases |b|
  {
    if b == [] {
      assert a + b == a;
    } else {
      var init := b[..|b| - 1];
      assert (a + b)[..|a + b| - 1] == a + init;
      assert (a + b)[|a + b| - 1] == b[|b| - 1];
      NodesOfAppend(a, init);
    }
  }

  /** The nodes `iter_nodes` yields from a stack of trees (top last): pop the
      top, yield it, push its children in order, repeat. */
  function Walk(stack: seq<Tree>): (yielded: seq<OntologyNode>)
    ensures |yielded| == |NodesOf(stack)|
    ensures stack != [] ==> yielded != [] && yielded[0] == stack[|stack| - 1].node
    decreases |NodesOf(stack)|
  {
    if stack == [] then []
    else
      var top, rest := stack[|stack| - 1], stack[..|stack| - 1];
      PopShrinks(stack);
      [top.node] + Walk(rest + top.kids)
  }

  /** Replacing the top of a stack by its children removes one node. */
  lemma PopShrinks(stack: seq<Tree>)
    requires stack != []
    ensures |NodesOf(stack[..|stack| - 1] + stack[|stack| - 1].kids)| + 1 == |NodesOf(stack)|
  {
    var top, rest := stack[|stack| - 1], stack[..|stack| - 1];
    NodesOfAppend(rest, top.kids);
    assert NodesOf(stack) == NodesOf(rest) + Nodes(top);
    assert Nodes(top) == [top.node] + NodesOf(top.kids);
  }

  /** Pre-order with children right to left: the reference definition of the walk. */
  function Mirror(t: Tree): seq<OntologyNode>
    decreases t
  {
    [t.node] + MirrorOf(t.kids)
  }

  function MirrorOf(ts: seq<Tree>): seq<OntologyNode>
    decreases ts
  {
    if ts == [] then [] else Mirror(ts[|ts| - 1]) + MirrorOf(ts[..|ts| - 1])
  }

  /** The stack is LIFO: everything reachable from the upper part `b` is
      yielded before anything from the lower part `a`. */
  lemma {:induction false} WalkConcat(a: seq<Tree>, b: seq<Tree>)
    ensures Walk(a + b) == Walk(b) + Walk(a)
    decreases |NodesOf(b)|
  {
    if b == [] {
      assert a + b == a;
    } else {
      var top, init := b[|b| - 1], b[..|b| - 1];
      assert (a + b)[..|a + b| - 1] == a + init;
      assert (a + b)[|a + b| - 1] == top;
      assert (a + init) + top.kids == a + (init + top.kids);
      PopShrinks(b);
      WalkConcat(a, init + top.kids);
    }
  }

  /** The walk is exactly pre-order with children taken right to left. */
  lemma {:induction false} WalkIsMirror(stack: seq<Tree>)
    ensures Walk(stack) == MirrorOf(stack)
    decreases |NodesOf(stack)|
  {
    if stack != [] {
      var top, rest := stack[|stack| - 1], stack[..|stack| - 1];
      PopShrinks(stack);
      NodesOfAppend(rest, top.kids);
      WalkConcat(rest, top.kids);
      WalkIsMirror(top.kids);
      WalkIsMirror(rest);
    }
  }

  /** The walk of one tree: the root, then the whole subtree of the last child,
      then the walk of the earlier children. */
  lemma LastChildFirst(t: Tree)
    requires t.kids != []
    ensures Walk([t]) == [t.node] + Walk([t.kids[|t.kids| - 1]]) + Walk(t.kids[..|t.kids| - 1])
  {
    var last, init := t.kids[|t.kids| - 1], t.kids[..|t.kids| - 1];
    assert [t][..0] + t.kids == t.kids;
    assert t.kids == init + [last];
    WalkConcat(init, [last]);
  }

  lemma {:induction false} MirrorPermutes(t: Tree)
    ensures multiset(Mirror(t)) == multiset(Nodes(t))
    decreases t
  {
    MirrorOfPermutes(t.kids);
  }

  lemma {:induction false} MirrorOfPermutes(ts: seq<Tree>)
    ensures multiset(MirrorOf(ts)) == multiset(NodesOf(ts))
    decreases ts
  {
    if ts != [] {
      MirrorPermutes(ts[|ts| - 1]);
      MirrorOfPermutes(ts[..|ts| - 1]);
    }
  }

  /** The walk yields every node of the tree as often as the tree holds it:
      it is a permutation of the pre-order, so it yields as many nodes as the
      tree has. */
  lemma WalkPermutes(t: Tree)
    ensures multiset(Walk([t])) == multiset(Nodes(t))
    ensures |Walk([t])| == |Nodes(t)|
  {
    WalkIsMirror([t]);
    MirrorOfPermutes([t]);
    assert NodesOf([t]) == Nodes(t);
    assert |multiset(Walk([t]))| == |multiset(Nodes(t))|;
  }

  /** In a sequence without repeats every element occurs once. */
  lemma {:induction false} DistinctOccursOnce(s: seq<OntologyNode>)
    requires forall i, j :: 0 <= i < j < |s| ==> s[i] != s[j]
    ensures forall n :: multiset(s)[n] == if n in s then 1 else 0
  {
    if s != [] {
      var init := s[..|s| - 1];
      DistinctOccursOnce(init);
      assert s == init + [s[|s| - 1]];
      assert s[|s| - 1] !in init;
      forall n ensures multiset(s)[n] == if n in s then 1 else 0 {
        assert n in s <==> n in init || n == s[|s| - 1];
      }
    }
  }

  /** On a tree that shares no node the walk yields each of its nodes exactly once. */
  lemma EveryNodeOnce(t: Tree)
    requires NoSharing(t)
    ensures forall n :: multiset(Walk([t]))[n] == if n in Nodes(t) then 1 else 0
  {
    WalkPermutes(t);
    DistinctOccursOnce(Nodes(t));
  }

  /** `iter_nodes(root)`, its yields collected in order. */
  method IterNodes(root: OntologyNode, ghost t: Tree) returns (yielded: seq<OntologyNode>)
    requires Shaped(root, t)
    ensures yielded == Walk([t])
    ensures yielded != [] && yielded[0] == root
  {
    var stack := [root];
    ghost var trees := [t];
    yielded := [];
    while stack != []
      invariant |stack| == |trees|
      invariant forall i :: 0 <= i < |stack| ==> Shaped(stack[i], trees[i])
      invariant yielded + Walk(trees) == Walk([t])
      invariant yielded != [] ==> yielded[0] == root
      invariant yielded == [] ==> trees == [t]
      decreases |NodesOf(trees)|
    {
      var node := stack[|stack| - 1];
      stack := stack[..|stack| - 1];
      ghost var top, rest := trees[|trees| - 1], trees[..|trees| - 1];
      assert Walk(trees) == [node] + Walk(rest + top.kids);
      PopShrinks(trees);
      yielded := yielded + [node];
      stack := stack + node.children;
      trees := rest + top.kids;
    }
  }

  /** The index `i` holds the last node of `ns` named `ns[i].name`. */
  ghost predicate LastOfName(ns: seq<OntologyNode>, i: int)
    requires 0 <= i < |ns|
    reads ns
  {
    forall j :: i < j < |ns| ==> ns[j].name != ns[i].name
  }

  /** `{node.name: node.description for node in ns}`: later nodes overwrite
      earlier ones of the same name. */
  function DictOf(ns: seq<OntologyNode>): (m: map<string, string>)
    reads ns
    ensures |m| <= |ns|
    ensures ns != [] ==> ns[|ns| - 1].name in m && m[ns[|ns| - 1].name] == ns[|ns| - 1].description
  {
    if ns == [] then map[]
    else DictOf(ns[..|ns| - 1])[ns[|ns| - 1].name := ns[|ns| - 1].description]
  }

  /** The keys are exactly the names of the nodes. */
  lemma {:induction false} DictKeys(ns: seq<OntologyNode>)
    ensures forall k :: k in DictOf(ns) <==> HasName(ns, k)
  {
    if ns != [] {
      var init, last := ns[..|ns| - 1], ns[|ns| - 1];
      DictKeys(init);
      forall k ensures HasName(ns, k) <==> HasName(init, k) || k == last.name {
        if HasName(ns, k) && k != last.name {
          var i :| 0 <= i < |ns| && ns[i].name == k;
          assert init[i] == ns[i];
        }
        if HasName(init, k) {
          var i :| 0 <= i < |init| && init[i].name == k;
          assert ns[i] == init[i];
        }
      }
    }
  }

  /** Each name maps to the description of the last node bearing it. */
  lemma {:induction false} DictLastWins(ns: seq<OntologyNode>, i: nat)
    requires i < |ns| && LastOfName(ns, i)
    ensures ns[i].name in DictOf(ns) && DictOf(ns)[ns[i].name] == ns[i].description
  {
    var init, last := ns[..|ns| - 1], ns[|ns| - 1];
    if i < |init| {
      assert last.name != ns[i].name;
      assert LastOfName(init, i) by {
        forall j | i < j < |init| ensures init[j].name != init[i].name {
          assert init[j] == ns[j];
        }
      }
      DictLastWins(init, i);
    }
  }

  /** Some node of `ns` is named `k`. */
  ghost predicate HasName(ns: seq<OntologyNode>, k: string)
    reads ns
  {
    exists i :: 0 <= i < |ns| && ns[i].name == k
  }

  /** Two orderings of the same nodes bear the same names. */
  lemma SameNames(a: seq<OntologyNode>, b: seq<OntologyNode>)
    requires multiset(a) == multiset(b)
    ensures forall k :: HasName(a, k) <==> HasName(b, k)
  {
    forall k | HasName(a, k) ensures HasName(b, k) {
      NameCarries(a, b, k);
    }
    forall k | HasName(b, k) ensures HasName(a, k) {
      NameCarries(b, a, k);
    }
  }

  lemma NameCarries(a: seq<OntologyNode>, b: seq<OntologyNode>, k: string)
    requires multiset(a) == multiset(b) && HasName(a, k)
    ensures HasName(b, k)
  {
    var i :| 0 <= i < |a| && a[i].name == k;
    assert a[i] in multiset(b);
    var j :| 0 <= j < |b| && b[j] == a[i];
  }

  /** `ontology_as_dict(root)`: the names of all nodes of the tree, each
      mapped to the description of the last node of that name the walk yields. */
  method OntologyAsDict(root: OntologyNode, ghost t: Tree) returns (m: map<string, string>)
    requires Shaped(root, t)
    ensures m == DictOf(Walk([t]))
    ensures forall k :: k in m <==> HasName(Nodes(t), k)
  {
    var nodes := IterNodes(root, t);
    m := DictOf(nodes);
    DictKeys(nodes);
    WalkPermutes(t);
    SameNames(nodes, Nodes(t));
  }
}

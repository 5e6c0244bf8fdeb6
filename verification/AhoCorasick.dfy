/** The multi-pattern matcher: a trie of heap nodes, linked by a breadth-first pass and
    then walked once over the payload. Each method is proved against `TrieSpec`. */
module AhoCorasick {
  import opened Bytes
  import opened TrieSpec

  class Node {
    ghost const word: Bytes  // the path from the root to this node
    var children: map<byte, Node>
    var fail: Node?
    var outputs: seq<nat>

    constructor (ghost word: Bytes)
      ensures this.word == word && children == map[] && fail == null && outputs == []
    {
      this.word := word;
      children, fail, outputs := map[], null, [];
    }
  }

  class AhoCorasick {
    const root: Node
    var patterns: seq<Bytes>
    var built: bool
    ghost var nodes: map<Bytes, Node>  // every node, by its word
    ghost var repr: set<Node>

    ghost function Footprint(): set<object>
      reads this`repr
    {
      {this} + repr
    }

    /** The goto function follows the words: the edge labelled `b` leads from `w` to `w + [b]`. */
    ghost predicate Edges(n: Node)
      reads this`nodes, n`children
    {
      forall b: byte ::
        && (b in n.children <==> Ext(n.word, b) in nodes)
        && (b in n.children ==> n.children[b] == nodes[Ext(n.word, b)])
    }

    ghost predicate GotoIsExtension()
      reads this`nodes, this`repr, repr`children
    {
      && (forall w :: w in nodes ==> nodes[w] in repr && nodes[w].word == w && (w == [] ==> nodes[w] == root))
      && (forall n :: n in repr ==> n.word in nodes && nodes[n.word] == n && Edges(n))
    }

    lemma RootIsNode()
      requires GotoIsExtension() && (forall w :: w in nodes <==> InTrie(patterns, w))
      ensures [] in nodes && nodes[[]] == root && root in repr && root.word == []
    {
      assert InTrie(patterns, []);
    }

    /** A node as trie construction leaves it. */
    ghost predicate Unlinked(n: Node)
      reads this`patterns, n`fail, n`outputs
    {
      n.fail == null && n.outputs == Ids(patterns, n.word)
    }

    /** A node as `Build` leaves it: failure link and merged outputs are final. */
    ghost predicate Linked(n: Node)
      reads this`patterns, this`nodes, n`fail, n`outputs
    {
      && n.outputs == Outputs(patterns, n.word)
      && (if n.word == [] then n.fail == null
          else Fail(patterns, n.word) in nodes && n.fail == nodes[Fail(patterns, n.word)])
    }

    ghost predicate Valid()
      reads this, repr
    {
      && (forall w :: w in nodes <==> InTrie(patterns, w))
      && GotoIsExtension()
      && (forall n :: n in repr ==> if built then Linked(n) else Unlinked(n))
    }

    constructor ()
      ensures Valid() && !built && patterns == []
      ensures fresh(repr)
    {
      var r := new Node([]);
      root, patterns, built, nodes, repr := r, [], false, map[[] := r], {r};
    }

    /** Follows the edge labelled `b`, adding a fresh leaf where there is none. */
    method ChildOf(curr: Node, b: byte) returns (child: Node)
      requires GotoIsExtension() && curr.word in nodes && curr == nodes[curr.word]
      requires forall c: byte :: Ext(curr.word, b) !in nodes ==> Ext(Ext(curr.word, b), c) !in nodes
      modifies this`nodes, this`repr, curr`children
      ensures nodes == old(nodes)[Ext(curr.word, b) := child] && GotoIsExtension()
      ensures Ext(curr.word, b) in old(nodes) ==> nodes == old(nodes) && repr == old(repr)
      ensures Ext(curr.word, b) !in old(nodes) ==> fresh(child) && repr == old(repr) + {child} && child.fail == null && child.outputs == []
    {
      if b !in curr.children {
        forall v: Bytes, a: byte ensures Ext(v, a) == Ext(curr.word, b) ==> v == curr.word && a == b {
          SnocInjective(v, a, curr.word, b);
        }
        child := new Node(Ext(curr.word, b));
        curr.children := curr.children[b := child];
        nodes, repr := nodes[Ext(curr.word, b) := child], repr + {child};
      } else {
        child := curr.children[b];
      }
    }

    /** Follows and completes the path of `pattern` from the root. */
    method InsertPath(pattern: Bytes) returns (curr: Node)
      requires GotoIsExtension()
      requires forall w :: w in nodes <==> InTrie(patterns, w)
      requires forall n :: n in repr ==> Unlinked(n)
      modifies this`nodes, this`repr, repr`children
      ensures forall w :: w in nodes <==> InTrie(patterns, w) || IsPrefix(w, pattern)
      ensures GotoIsExtension()
      ensures forall n :: n in repr ==> Unlinked(n)
      ensures pattern in nodes && curr == nodes[pattern]
      ensures fresh(repr - old(repr))
    {
      curr := root;
      for i := 0 to |pattern|
        invariant forall w :: w in nodes <==> InTrie(patterns, w) || IsPrefix(w, pattern[..i])
        invariant GotoIsExtension()
        invariant forall n :: n in repr ==> Unlinked(n)
        invariant pattern[..i] in nodes && curr == nodes[pattern[..i]]
        invariant fresh(repr - old(repr))
      {
        PathStep(patterns, pattern, i, pattern[..i + 1]);
        curr := ChildOf(curr, pattern[i]);
      }
      assert pattern[..|pattern|] == pattern;
    }

    /** Gives the node at the end of the new path its id. */
    method Record(curr: Node, pattern: Bytes) returns (id: nat)
      requires GotoIsExtension() && curr in repr && curr.word == pattern
      requires forall w :: w in nodes <==> InTrie(patterns, w) || IsPrefix(w, pattern)
      requires forall n :: n in repr ==> Unlinked(n)
      modifies this`patterns, curr`outputs
      ensures id == |old(patterns)| && patterns == old(patterns) + [pattern]
      ensures GotoIsExtension()
      ensures forall w :: w in nodes <==> InTrie(patterns, w)
      ensures forall n :: n in repr ==> Unlinked(n)
    {
      id := |patterns|;
      TrieOfExtensionAll(patterns, pattern);
      patterns := patterns + [pattern];
      curr.outputs := curr.outputs + [id];
    }

    method AddPattern(pattern: Bytes) returns (id: nat)
      requires Valid() && !built
      modifies this, repr
      ensures Valid() && !built
      ensures id == |old(patterns)| && patterns == old(patterns) + [pattern]
      ensures fresh(repr - old(repr))
    {
      var curr := InsertPath(pattern);
      id := Record(curr, pattern);
    }

    // ---- Build: failure links, breadth first ----

    /** A node of depth one fails to the root. */
    method LinkToRoot(b: byte, child: Node)
      requires GotoIsExtension() && (forall w :: w in nodes <==> InTrie(patterns, w))
      requires b in root.children && child == root.children[b] && Unlinked(child)
      modifies child`fail, child`outputs
      ensures Linked(child)
    {
      RootIsNode();
      assert child.word[1..] == [];
      child.fail := root;
    }

    /** Computes the failure link and the output list of one child, once every node that is
        no deeper than its parent is final. */
    method Link(curr: Node, b: byte, child: Node)
      requires GotoIsExtension() && (forall w :: w in nodes <==> InTrie(patterns, w))
      requires curr in repr && curr != root && b in curr.children && child == curr.children[b] && Unlinked(child)
      requires forall n :: n in repr && |n.word| <= |curr.word| ==> Linked(n)
      modifies child`fail, child`outputs
      ensures Linked(child)
    {
      ghost var w, own := child.word, child.outputs;
      assert |w| > 1 && own == Ids(patterns, w) && own + [] == own;
      FailOfChild(patterns, curr.word, b);
      var failNode := curr.fail;
      while failNode != null && b !in failNode.children
        invariant failNode == null ==> Fail(patterns, w) == []
        invariant failNode != null ==> failNode in repr && |failNode.word| < |curr.word|
        invariant failNode != null ==> Longest(patterns, Ext(failNode.word, b)) == Fail(patterns, w)
        modifies {}
        decreases if failNode == null then 0 else 1 + |failNode.word|
      {
        SuccessorThroughFail(patterns, failNode.word, b);
        failNode := failNode.fail;
      }
      if failNode == null {
        child.fail := root;
      } else {
        child.fail := failNode.children[b];
      }
      assert child.fail == nodes[Fail(patterns, w)] && Linked(child.fail);
      if |child.fail.outputs| > 0 {
        child.outputs := child.outputs + child.fail.outputs;
      }
    }

    /** The nodes in `linked` are final, the others are as trie construction left them. */
    ghost predicate LinkedExactly(linked: set<Node>)
      reads this`patterns, this`nodes, this`repr, repr`fail, repr`outputs
    {
      forall n :: n in repr ==> if n in linked then Linked(n) else Unlinked(n)
    }

    /** The frontier of the breadth-first pass: `linked` nodes wait in the queue, shallow ones
        first, until they are `done`; `open` is being worked on and its children labelled below
        `i` have been linked; every node down to `depth` is linked already. */
    ghost predicate Frontier(queue: seq<Node>, linked: set<Node>, done: set<Node>, depth: nat, open: Node?, i: int)
      reads this`repr, repr`children
    {
      && done <= linked <= repr
      && (forall n :: n in repr && |n.word| <= depth ==> n in linked)
      && (forall n :: n in linked ==> n in done || n in queue || n == open)
      && (forall k :: 0 <= k < |queue| ==> queue[k] in linked && queue[k] !in done && depth <= |queue[k].word| <= depth + 1)
      && (forall j, k :: 0 <= j < k < |queue| ==> queue[j] != queue[k] && |queue[j].word| <= |queue[k].word|)
      && (open != null ==> open in linked && open !in done && open !in queue && |open.word| == depth)
      && (forall n, b: byte :: n in repr && b in n.children ==>
            (n.children[b] in linked <==> n in done || (n == open && b < i)))
    }

    /** Every node but the root is the child of a node one letter shorter. */
    lemma ParentOf(n: Node) returns (p: Node, b: byte)
      requires GotoIsExtension() && (forall w :: w in nodes <==> InTrie(patterns, w))
      requires n in repr && n != root
      ensures p in repr && |p.word| + 1 == |n.word| && b in p.children && p.children[b] == n
    {
      var w;
      w, b := WithoutLast(n.word);
      TrieIsClosedUnder(patterns, w, b);
      p := nodes[w];
    }

    /** A node is the child of one node only, under one label. */
    lemma OneParent(n: Node, b: byte, m: Node, c: byte)
      requires GotoIsExtension() && n in repr && m in repr && b in n.children && c in m.children
      ensures n.children[b] == m.children[c] ==> n == m && b == c
    {
      SnocInjective(n.word, b, m.word, c);
    }

    lemma SkipLabel(queue: seq<Node>, linked: set<Node>, done: set<Node>, depth: nat, open: Node, i: byte)
      requires Frontier(queue, linked, done, depth, open, i) && open in repr && i !in open.children
      ensures Frontier(queue, linked, done, depth, open, i + 1)
    {
    }

    lemma LinkLabel(queue: seq<Node>, linked: set<Node>, done: set<Node>, depth: nat, open: Node, i: byte)
      requires GotoIsExtension() && Frontier(queue, linked, done, depth, open, i)
      requires open in repr && i in open.children
      ensures open.children[i] in repr && open.children[i] !in linked && open.children[i].word != []
      ensures Frontier(queue + [open.children[i]], linked + {open.children[i]}, done, depth, open, i + 1)
    {
      var child := open.children[i];
      forall n, b: byte | n in repr && b in n.children
        ensures n.children[b] == child ==> n == open && b == i
      {
        OneParent(n, b, open, i);
      }
    }

    /** Before the pass the root is the one final node. */
    lemma RootFirst()
      requires GotoIsExtension() && (forall w :: w in nodes <==> InTrie(patterns, w))
      requires forall n :: n in repr ==> Unlinked(n)
      ensures LinkedExactly({root}) && Frontier([], {root}, {}, 0, root, 0)
    {
      RootIsNode();
    }

    lemma CloseNode(queue: seq<Node>, linked: set<Node>, done: set<Node>, depth: nat, open: Node)
      requires Frontier(queue, linked, done, depth, open, 256)
      ensures Frontier(queue, linked, done + {open}, depth, null, 0)
    {
    }

    /** Taking the head of the queue. When it is one level deeper, that whole level has been linked. */
    lemma OpenNode(queue: seq<Node>, linked: set<Node>, done: set<Node>, depth: nat) returns (depth': nat)
      requires GotoIsExtension() && (forall w :: w in nodes <==> InTrie(patterns, w))
      requires Frontier(queue, linked, done, depth, null, 0) && queue != []
      ensures Frontier(queue[1..], linked, done, depth', queue[0], 0)
    {
      RootIsNode();
      depth' := |queue[0].word|;
      forall n | n in repr && |n.word| <= depth' ensures n in linked {
        if n != root && |n.word| > depth {
          var p, b := ParentOf(n);
        }
      }
    }

    /** An empty queue means that every node is linked. */
    lemma {:induction false} AllLinked(linked: set<Node>, done: set<Node>, depth: nat, n: Node)
      requires GotoIsExtension() && (forall w :: w in nodes <==> InTrie(patterns, w))
      requires Frontier([], linked, done, depth, null, 0) && n in repr
      ensures n in linked
      decreases |n.word|
    {
      RootIsNode();
      if n != root {
        var p, b := ParentOf(n);
        AllLinked(linked, done, depth, p);
      }
    }

    /** Finishes one child. The root is the failure node of its own children. */
    method LinkChild(curr: Node, i: byte, child: Node, ghost before: set<Node>)
      requires GotoIsExtension() && (forall w :: w in nodes <==> InTrie(patterns, w))
      requires curr in repr && i in curr.children && child == curr.children[i] && child in repr && child !in before
      requires LinkedExactly(before) && forall n :: n in repr && |n.word| <= |curr.word| ==> n in before
      modifies child`fail, child`outputs
      ensures LinkedExactly(before + {child})
    {
      if curr == root {
        LinkToRoot(i, child);
      } else {
        Link(curr, i, child);
      }
    }

    /** Finishes and enqueues the child of `curr` labelled `i`, if there is one. */
    method LinkNext(curr: Node, i: byte, rest: seq<Node>, ghost before: set<Node>, ghost done: set<Node>, ghost depth: nat)
      returns (queue: seq<Node>, ghost linked: set<Node>)
      requires GotoIsExtension() && (forall w :: w in nodes <==> InTrie(patterns, w))
      requires LinkedExactly(before) && Frontier(rest, before, done, depth, curr, i)
      modifies repr`fail, repr`outputs
      ensures LinkedExactly(linked) && Frontier(queue, linked, done, depth, curr, i + 1)
    {
      queue, linked := rest, before;
      if i in curr.children {
        var child := curr.children[i];
        LinkLabel(queue, linked, done, depth, curr, i);
        LinkChild(curr, i, child, linked);
        queue, linked := queue + [child], linked + {child};
      } else {
        SkipLabel(queue, linked, done, depth, curr, i);
      }
    }

    /** One round of the breadth-first pass: all children of `curr`. */
    method LinkChildren(curr: Node, rest: seq<Node>, ghost before: set<Node>, ghost done: set<Node>, ghost depth: nat)
      returns (queue: seq<Node>, ghost linked: set<Node>)
      requires GotoIsExtension() && (forall w :: w in nodes <==> InTrie(patterns, w))
      requires LinkedExactly(before) && Frontier(rest, before, done, depth, curr, 0)
      modifies repr`fail, repr`outputs
      ensures LinkedExactly(linked) && Frontier(queue, linked, done, depth, curr, 256)
    {
      queue, linked := rest, before;
      for i := 0 to 256
        invariant LinkedExactly(linked) && Frontier(queue, linked, done, depth, curr, i)
      {
        queue, linked := LinkNext(curr, i, queue, linked, done, depth);
      }
    }

    /** The breadth-first loop over the whole trie. */
    method LinkAll()
      requires GotoIsExtension() && (forall w :: w in nodes <==> InTrie(patterns, w))
      requires forall n :: n in repr ==> Unlinked(n)
      modifies repr`fail, repr`outputs
      ensures GotoIsExtension() && forall n :: n in repr ==> Linked(n)
    {
      RootFirst();
      var queue, linked := LinkChildren(root, [], {root}, {}, 0);
      CloseNode(queue, linked, {}, 0, root);
      ghost var done, depth := {root}, 0;
      while |queue| > 0
        invariant LinkedExactly(linked) && Frontier(queue, linked, done, depth, null, 0)
        decreases repr - done
      {
        queue, linked, done, depth := LinkNode(queue, linked, done, depth);
      }
      Finished(linked, done, depth);
    }

    /** One round: the node at the head of the queue. */
    method LinkNode(before: seq<Node>, ghost linkedBefore: set<Node>, ghost doneBefore: set<Node>, ghost depthBefore: nat)
      returns (queue: seq<Node>, ghost linked: set<Node>, ghost done: set<Node>, ghost depth: nat)
      requires GotoIsExtension() && (forall w :: w in nodes <==> InTrie(patterns, w)) && before != []
      requires LinkedExactly(linkedBefore) && Frontier(before, linkedBefore, doneBefore, depthBefore, null, 0)
      modifies repr`fail, repr`outputs
      ensures LinkedExactly(linked) && Frontier(queue, linked, done, depth, null, 0)
      ensures doneBefore < done <= repr
    {
      depth := OpenNode(before, linkedBefore, doneBefore, depthBefore);
      var curr := before[0];
      queue, linked := LinkChildren(curr, before[1..], linkedBefore, doneBefore, depth);
      CloseNode(queue, linked, doneBefore, depth, curr);
      done := doneBefore + {curr};
    }

    /** When the queue is empty all nodes are final. */
    lemma Finished(linked: set<Node>, done: set<Node>, depth: nat)
      requires GotoIsExtension() && (forall w :: w in nodes <==> InTrie(patterns, w))
      requires LinkedExactly(linked) && Frontier([], linked, done, depth, null, 0)
      ensures forall n :: n in repr ==> Linked(n)
    {
      forall n | n in repr ensures n in linked {
        AllLinked(linked, done, depth, n);
      }
    }

    method Build()
      requires Valid()
      modifies this`built, repr`fail, repr`outputs
      ensures Valid() && built
    {
      if built {
        return;
      }
      LinkAll();
      built := true;
    }

    /** What `Build` leaves behind: the failure link leads to the longest proper suffix in the
        trie, which is strictly shallower, and the outputs are the patterns that end here, each once. */
    lemma {:induction false} BuiltNode(n: Node)
      requires Valid() && built && n in repr
      ensures n != root ==> n.fail != null && n.fail in repr && |n.fail.word| < |n.word| && IsSuffix(n.fail.word, n.word)
      ensures n != root ==> forall m :: m in repr && m != n && IsSuffix(m.word, n.word) ==> |m.word| <= |n.fail.word|
      ensures forall id :: 0 <= id < |patterns| && patterns[id] != [] ==> (id in n.outputs <==> IsSuffix(patterns[id], n.word))
      ensures Distinct(n.outputs)
    {
      OutputsAreSuffixes(patterns, n.word);
      forall id | 0 <= id < |patterns| && patterns[id] != [] && IsSuffix(patterns[id], n.word) ensures id in n.outputs {
        OutputsAreComplete(patterns, n.word, id);
      }
      if n != root {
        var w := n.word;
        LongestIsLongest(patterns, w[1..]);
        SuffixTransitive(n.fail.word, w[1..], w);
        forall m | m in repr && m != n && IsSuffix(m.word, w) ensures |m.word| <= |n.fail.word| {
          SuffixesNest(m.word, w[1..], w);
        }
      }
    }

    // ---- Search ----

    /** Consumes one byte: failure links until an edge is found, or the root when there is none. */
    method Advance(start: Node, b: byte) returns (next: Node, ghost followed: nat)
      requires Valid() && built && start in repr
      ensures next in repr && next.word == Longest(patterns, Ext(start.word, b))
      ensures followed == LinksFollowed(patterns, start.word, b)
    {
      var curr: Node? := start;
      followed := 0;
      while curr != null && b !in curr.children
        invariant curr != null ==> curr in repr
        invariant curr != null ==> Longest(patterns, Ext(curr.word, b)) == Longest(patterns, Ext(start.word, b))
        invariant curr != null ==> followed + LinksFollowed(patterns, curr.word, b) == LinksFollowed(patterns, start.word, b)
        invariant curr == null ==> Longest(patterns, Ext(start.word, b)) == [] && followed == LinksFollowed(patterns, start.word, b)
        decreases if curr == null then 0 else 1 + |curr.word|
      {
        SuccessorThroughFail(patterns, curr.word, b);
        curr := curr.fail;
        followed := followed + 1;
      }
      if curr == null {
        next := root;
      } else {
        next := curr.children[b];
      }
    }

    /** Appends the matches that end at byte `i`. */
    method Report(curr: Node, i: nat, before: seq<MatchResult>) returns (results: seq<MatchResult>)
      requires forall k :: 0 <= k < |curr.outputs| ==> curr.outputs[k] < |patterns|
      ensures results == before + Hits(patterns, curr.outputs, i)
    {
      results := before;
      for k := 0 to |curr.outputs|
        invariant results == before + Hits(patterns, curr.outputs, i)[..k]
      {
        var pattern := patterns[curr.outputs[k]];
        results := results + [MatchResult(curr.outputs[k], i - |pattern| + 1)];
      }
      assert Hits(patterns, curr.outputs, i)[..|curr.outputs|] == Hits(patterns, curr.outputs, i);
    }

    /** One byte of the payload. */
    method Feed(node: Node, payload: Bytes, i: nat, results: seq<MatchResult>, ghost links: nat)
      returns (curr: Node, results': seq<MatchResult>, ghost links': nat)
      requires Valid() && built && i < |payload|
      requires node in repr && node.word == Longest(patterns, payload[..i])
      requires results == Results(patterns, payload[..i]) && links == TotalLinks(patterns, payload[..i])
      ensures curr in repr && curr.word == Longest(patterns, payload[..i + 1])
      ensures results' == Results(patterns, payload[..i + 1]) && links' == TotalLinks(patterns, payload[..i + 1])
    {
      SearchStep(patterns, payload, i);
      ghost var followed;
      curr, followed := Advance(node, payload[i]);
      links' := links + followed;
      results' := Report(curr, i, results);
    }

    /** One pass over the payload. `links` counts the failure links followed. */
    method Search(payload: Bytes) returns (results: seq<MatchResult>, ghost links: nat)
      requires Valid() && built
      ensures results == Results(patterns, payload)
      ensures links == TotalLinks(patterns, payload)
    {
      RootIsNode();
      results, links := [], 0;
      var curr := root;
      for i := 0 to |payload|
        invariant curr in repr && curr.word == Longest(patterns, payload[..i])
        invariant results == Results(patterns, payload[..i])
        invariant links == TotalLinks(patterns, payload[..i])
      {
        curr, results, links := Feed(curr, payload, i, results, links);
      }
      assert payload[..|payload|] == payload;
    }
  }
}

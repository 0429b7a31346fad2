/** Tarjan's search for package cycles. */
module PackageCycles {
  // Tarjan's algorithm as `report_map.py` runs it, over five mutable structures shared by a recursive visit,
  // proved to return exactly the strongly connected sets that contain a cycle.

  import opened Orders
  import opened Paths

  type Node = string

  // ------------------------------------------------------------------------------------------
  // What the report promises
  // ------------------------------------------------------------------------------------------

  ghost predicate Mutual(g: Graph<Node>, a: Node, b: Node) {
    Reaches(g, a, b) && Reaches(g, b, a)
  }

  /** A maximal set of mutually reachable nodes. */
  ghost predicate IsScc(g: Graph<Node>, c: set<Node>) {
    && c != {}
    && forall x, y :: x in c ==> (y in c <==> Mutual(g, x, y))
  }

  /** More than one node, or a single node that depends on itself. */
  ghost predicate Cyclic(g: Graph<Node>, c: set<Node>) {
    |c| > 1 || exists x :: x in c && x in Succ(g, x)
  }

  /** A closed walk of at least one edge goes through the node. */
  ghost predicate OnCycle(g: Graph<Node>, n: Node) {
    exists p: seq<Node> :: |p| > 1 && PathFromTo(g, p, n, n)
  }

  function Nodes(g: Graph<Node>): set<Node> {
    g.Keys + set k, x | k in g && x in g[k] :: x
  }

  lemma SccIsClassOfMember(g: Graph<Node>, c: set<Node>, d: set<Node>, x: Node)
    requires IsScc(g, c) && IsScc(g, d) && x in c && x in d
    ensures c == d
  {
    forall y ensures y in c <==> y in d {
      assert y in c <==> Mutual(g, x, y);
      assert y in d <==> Mutual(g, x, y);
    }
  }

  lemma ComponentsDisjoint(g: Graph<Node>, c: set<Node>, d: set<Node>)
    requires IsScc(g, c) && IsScc(g, d) && c != d
    ensures c !! d
  {
    forall x | x in c ensures x !in d {
      if x in d {
        SccIsClassOfMember(g, c, d, x);
      }
    }
  }

  /** A node lies on a cycle exactly when its component is reported. */
  lemma CyclicIffOnCycle(g: Graph<Node>, c: set<Node>, n: Node)
    requires IsScc(g, c) && n in c
    ensures Cyclic(g, c) <==> OnCycle(g, n)
  {
    if Cyclic(g, c) {
      if n in Succ(g, n) {
        assert PathFromTo(g, [n, n], n, n);
      } else {
        assert |c - {n}| == |c| - 1;
        var m :| m in c - {n};
        assert Mutual(g, n, m);
        var p: seq<Node> :| PathFromTo(g, p, n, m);
        var q: seq<Node> :| PathFromTo(g, q, m, n);
        var r := p + q[1..];
        forall i, j | 0 <= i && j == i + 1 < |r| ensures r[j] in Succ(g, r[i]) {
          if i < |p| - 1 {
            assert r[i] == p[i] && r[i + 1] == p[i + 1];
          } else {
            assert r[i] == q[i - |p| + 1] && r[i + 1] == q[i - |p| + 2];
          }
        }
        assert |r| > 1 && PathFromTo(g, r, n, n);
      }
    }
    if OnCycle(g, n) {
      var p: seq<Node> :| |p| > 1 && PathFromTo(g, p, n, n);
      ReachAlong(g, p, 1);
      assert Mutual(g, n, p[1]);
      if p[1] == n {
        assert n in Succ(g, n);
      } else {
        assert {n, p[1]} <= c;
        CardinalityTwo(c, n, p[1]);
      }
    }
  }

  lemma CardinalityTwo(c: set<Node>, a: Node, b: Node)
    requires a in c && b in c && a != b
    ensures |c| > 1
  {
    assert c == {a, b} + (c - {a, b});
    assert |{a, b}| == 2;
  }

  // ------------------------------------------------------------------------------------------
  // The invariant of the search
  // ------------------------------------------------------------------------------------------

  /** The value of the search's structures at one moment; `sccs` lists every component popped so far. */
  datatype Snap = Snap(indices: map<Node, nat>, low: map<Node, nat>, stack: seq<Node>, sccs: set<set<Node>>)

  ghost predicate Numbered(s: Snap) {
    && s.low.Keys == s.indices.Keys
    && (forall n :: n in s.indices ==> s.indices[n] < |s.indices|)
    && (forall n :: n in s.stack ==> n in s.indices)
    && (forall i, j :: 0 <= i < j < |s.stack| ==> s.indices[s.stack[i]] < s.indices[s.stack[j]])
  }

  /** Numbered nodes that left the stack form whole components. */
  ghost predicate Retired(g: Graph<Node>, s: Snap) {
    && (forall c :: c in s.sccs ==> IsScc(g, c))
    && (forall c, n :: c in s.sccs && n in c ==> n in s.indices && n !in s.stack)
    && (forall n {:trigger InRetired(s, n)} :: n in s.indices && n !in s.stack ==> InRetired(s, n))
  }

  ghost predicate InRetired(s: Snap, n: Node) {
    exists c :: c in s.sccs && n in c
  }

  ghost predicate OnStack(s: Snap, n: Node) {
    n in s.stack
  }

  /** A node reaches an open node that is no higher on the stack. */
  ghost predicate Anchored(g: Graph<Node>, s: Snap, gray: set<Node>, y: Node)
    requires y in s.indices
  {
    exists x :: x in gray && x in s.indices && s.indices[x] <= s.indices[y] && Reaches(g, y, x)
  }

  /** `gray` holds the nodes whose visit has not returned. */
  ghost predicate Linked(g: Graph<Node>, s: Snap, gray: set<Node>)
    requires Numbered(s)
  {
    && (forall n {:trigger OnStack(s, n)} :: n in gray ==> OnStack(s, n))
    && (forall n, m :: n in s.indices && n !in gray && m in Succ(g, n) ==> m in s.indices)
    && (forall i, j :: 0 <= i <= j < |s.stack| ==> Reaches(g, s.stack[i], s.stack[j]))
    && (forall y {:trigger Anchored(g, s, gray, y)} :: y in s.stack ==> Anchored(g, s, gray, y))
  }

  ghost predicate Inv(g: Graph<Node>, s: Snap, gray: set<Node>) {
    Numbered(s) && Retired(g, s) && Linked(g, s, gray)
  }

  /** `t` continues `s`: nothing already numbered, stacked or retired was touched. */
  ghost predicate Extends(s: Snap, t: Snap) {
    && (forall n :: n in s.indices ==> n in t.indices && t.indices[n] == s.indices[n])
    && (forall n :: n in s.low ==> n in t.low && t.low[n] == s.low[n])
    && s.stack <= t.stack
    && s.sccs <= t.sccs
  }

  /** The low-link of `node` is witnessed by a node on the stack that it reaches. */
  ghost predicate LowWitness(g: Graph<Node>, s: Snap, node: Node)
    requires Numbered(s)
  {
    && node in s.indices && s.low[node] <= s.indices[node]
    && exists y :: y in s.stack && s.indices[y] == s.low[node] && Reaches(g, node, y)
  }

  /** No node at or above `from` has an edge below `from` to a number smaller than `bound`. */
  ghost predicate EdgesBounded(g: Graph<Node>, s: Snap, from: nat, bound: nat)
    requires Numbered(s) && from <= |s.stack|
  {
    forall i, j :: from <= i < |s.stack| && 0 <= j < from && s.stack[j] in Succ(g, s.stack[i])
      ==> bound <= s.indices[s.stack[j]]
  }

  function Pushed(s: Snap, node: Node): Snap {
    Snap(s.indices[node := |s.indices|], s.low[node := |s.indices|], s.stack + [node], s.sccs)
  }

  lemma PushKeepsNumbered(g: Graph<Node>, s: Snap, node: Node)
    requires Numbered(s) && Retired(g, s) && node !in s.indices
    ensures Numbered(Pushed(s, node)) && Retired(g, Pushed(s, node)) && Extends(s, Pushed(s, node))
  {
    hide IsScc;
    var t := Pushed(s, node);
    assert |t.indices| == |s.indices| + 1;
    forall n {:trigger InRetired(t, n)} | n in t.indices && n !in t.stack ensures InRetired(t, n) {
      assert InRetired(s, n);
    }
  }

  lemma PushedIsAnchored(g: Graph<Node>, s: Snap, gray: set<Node>, node: Node, y: Node)
    requires Numbered(s) && Linked(g, s, gray) && node !in s.indices && Numbered(Pushed(s, node))
    requires forall x :: x in gray ==> Reaches(g, x, node)
    requires y in Pushed(s, node).stack
    ensures Reaches(g, y, node) && Anchored(g, Pushed(s, node), gray + {node}, y)
  {
    hide Reaches;
    ReachRefl(g, node);
    if y != node {
      assert y in s.stack;
      assert Anchored(g, s, gray, y);
      var x :| x in gray && x in s.indices && s.indices[x] <= s.indices[y] && Reaches(g, y, x);
      ReachTrans(g, y, x, node);
    }
  }

  /** Numbering and stacking an unnumbered node that every open node reaches keeps the invariant. */
  lemma PushKeepsInv(g: Graph<Node>, s: Snap, gray: set<Node>, node: Node)
    requires Inv(g, s, gray) && node !in s.indices
    requires forall x :: x in gray ==> Reaches(g, x, node)
    ensures Inv(g, Pushed(s, node), gray + {node}) && Extends(s, Pushed(s, node))
  {
    PushKeepsNumbered(g, s, node);
    hide Reaches, Retired, Anchored;
    var t := Pushed(s, node);
    forall n {:trigger OnStack(t, n)} | n in gray + {node} ensures OnStack(t, n) {
      assert OnStack(s, n) || n == node;
    }
    forall y {:trigger Anchored(g, t, gray + {node}, y)} | y in t.stack
      ensures Reaches(g, y, node) && Anchored(g, t, gray + {node}, y)
    {
      PushedIsAnchored(g, s, gray, node, y);
    }
    forall i, j | 0 <= i <= j < |t.stack| ensures Reaches(g, t.stack[i], t.stack[j]) {
      if j < |s.stack| {
        assert t.stack[i] == s.stack[i] && t.stack[j] == s.stack[j];
      } else {
        assert t.stack[j] == node && t.stack[i] in t.stack;
        PushedIsAnchored(g, s, gray, node, t.stack[i]);
      }
    }
  }

  // ------------------------------------------------------------------------------------------
  // Closing a node
  // ------------------------------------------------------------------------------------------

  /** Everything above the root on the stack reaches the root. */
  lemma SegmentReachesRoot(g: Graph<Node>, s: Snap, gray: set<Node>, pos: nat, k: nat)
    requires Inv(g, s, gray) && pos <= k < |s.stack|
    requires forall x :: x in gray ==> x in s.indices && s.indices[x] <= s.indices[s.stack[pos]]
    ensures Reaches(g, s.stack[k], s.stack[pos])
  {
    hide Reaches;
    var y, node := s.stack[k], s.stack[pos];
    assert Anchored(g, s, gray, y);
    var x :| x in gray && x in s.indices && s.indices[x] <= s.indices[y] && Reaches(g, y, x);
    assert OnStack(s, x);
    var i :| 0 <= i < |s.stack| && s.stack[i] == x;
    assert i <= pos;
    ReachTrans(g, y, x, node);
  }

  /** An edge out of the segment that leads back to the root ends in the segment: it cannot enter the
      stack below, because of the bound on such edges, nor a retired component, because the root
      would have retired with it. */
  lemma EdgeStaysInSegment(g: Graph<Node>, s: Snap, gray: set<Node>, pos: nat, u: Node, v: Node)
    requires Inv(g, s, gray) && pos < |s.stack|
    requires forall x :: x in gray ==> x in s.indices && s.indices[x] <= s.indices[s.stack[pos]]
    requires forall m :: m in Succ(g, s.stack[pos]) ==> m in s.indices
    requires EdgesBounded(g, s, pos, s.indices[s.stack[pos]])
    requires u in s.stack[pos..] && v in Succ(g, u)
    requires Reaches(g, s.stack[pos], v) && Reaches(g, v, s.stack[pos])
    ensures v in s.stack[pos..]
  {
    hide Reaches;
    var node := s.stack[pos];
    var k :| 0 <= k < |s.stack[pos..]| && s.stack[pos..][k] == u;
    assert s.stack[pos + k] == u;
    assert u == node || u !in gray by {
      if k > 0 { assert s.indices[s.stack[pos]] < s.indices[s.stack[pos + k]]; }
    }
    assert Mutual(g, v, node);
    assert InRetired(s, v) || v in s.stack;
    if v in s.stack {
      var j :| 0 <= j < |s.stack| && s.stack[j] == v;
      assert pos <= j;
      assert s.stack[pos..][j - pos] == v;
    }
  }

  lemma SegmentIsMaximal(g: Graph<Node>, s: Snap, gray: set<Node>, pos: nat, z: Node)
    requires Inv(g, s, gray) && pos < |s.stack|
    requires forall x :: x in gray ==> x in s.indices && s.indices[x] <= s.indices[s.stack[pos]]
    requires forall m :: m in Succ(g, s.stack[pos]) ==> m in s.indices
    requires EdgesBounded(g, s, pos, s.indices[s.stack[pos]])
    requires Mutual(g, s.stack[pos], z)
    ensures z in s.stack[pos..]
  {
    var node, segment := s.stack[pos], Elements(s.stack[pos..]);
    assert s.stack[pos..][0] == node;
    var p: seq<Node> :| PathFromTo(g, p, node, z);
    if z !in segment {
      var i := Crossing(g, p, segment);
      ReachAlong(g, p, i + 1);
      ReachTrans(g, p[i + 1], z, node);
      EdgeStaysInSegment(g, s, gray, pos, p[i], p[i + 1]);
    }
  }

  lemma SegmentIsScc(g: Graph<Node>, s: Snap, gray: set<Node>, pos: nat)
    requires Inv(g, s, gray) && pos < |s.stack|
    requires forall x :: x in gray ==> x in s.indices && s.indices[x] <= s.indices[s.stack[pos]]
    requires forall m :: m in Succ(g, s.stack[pos]) ==> m in s.indices
    requires EdgesBounded(g, s, pos, s.indices[s.stack[pos]])
    ensures IsScc(g, Elements(s.stack[pos..]))
  {
    hide Reaches;
    var node, segment := s.stack[pos], Elements(s.stack[pos..]);
    assert s.stack[pos..][0] == node && node in segment;
    forall x | x in segment ensures Mutual(g, node, x) {
      var k :| 0 <= k < |s.stack[pos..]| && s.stack[pos..][k] == x;
      assert s.stack[pos + k] == x;
      SegmentReachesRoot(g, s, gray, pos, pos + k);
    }
    forall x, y | x in segment ensures y in segment <==> Mutual(g, x, y) {
      if y in segment {
        ReachTrans(g, x, node, y);
        ReachTrans(g, y, node, x);
      }
      if Mutual(g, x, y) {
        ReachTrans(g, node, x, y);
        ReachTrans(g, y, x, node);
        SegmentIsMaximal(g, s, gray, pos, y);
      }
    }
  }

  function Popped(s: Snap, pos: nat): Snap
    requires pos <= |s.stack|
  {
    s.(stack := s.stack[..pos], sccs := s.sccs + {Elements(s.stack[pos..])})
  }

  /** A stacked node is either in the popped segment or still below it. */
  lemma PoppedOrBelow(s: Snap, pos: nat, n: Node)
    requires Numbered(s) && pos <= |s.stack| && n in s.stack
    ensures n in s.stack[pos..] <==> n !in s.stack[..pos]
  {
    var k :| 0 <= k < |s.stack| && s.stack[k] == n;
    if k < pos {
      assert s.stack[..pos][k] == n;
    } else {
      assert s.stack[pos..][k - pos] == n;
    }
  }

  lemma BelowIffSmaller(s: Snap, pos: nat, n: Node)
    requires Numbered(s) && pos < |s.stack| && n in s.stack
    ensures n in s.stack[..pos] <==> s.indices[n] < s.indices[s.stack[pos]]
  {
    var k :| 0 <= k < |s.stack| && s.stack[k] == n;
    if k < pos {
      assert s.stack[..pos][k] == n;
    }
  }

  lemma PopKeepsRetired(g: Graph<Node>, s: Snap, pos: nat)
    requires Numbered(s) && Retired(g, s) && pos <= |s.stack|
    requires IsScc(g, Elements(s.stack[pos..]))
    ensures Retired(g, Popped(s, pos))
  {
    hide IsScc;
    var t, segment := Popped(s, pos), Elements(s.stack[pos..]);
    forall c, n | c in t.sccs && n in c ensures n in t.indices && n !in t.stack {
      if c == segment {
        PoppedOrBelow(s, pos, n);
      }
    }
    forall n {:trigger InRetired(t, n)} | n in t.indices && n !in t.stack ensures InRetired(t, n) {
      if n in s.stack {
        PoppedOrBelow(s, pos, n);
        assert n in segment && segment in t.sccs;
      } else {
        assert InRetired(s, n);
      }
    }
  }

  lemma PopKeepsLinked(g: Graph<Node>, s: Snap, gray: set<Node>, pos: nat)
    requires Numbered(s) && pos < |s.stack| && s.stack[pos] !in gray
    requires Linked(g, s, gray + {s.stack[pos]})
    requires forall x :: x in gray ==> x in s.indices && s.indices[x] < s.indices[s.stack[pos]]
    requires forall m :: m in Succ(g, s.stack[pos]) ==> m in s.indices
    ensures Numbered(Popped(s, pos)) && Linked(g, Popped(s, pos), gray)
  {
    hide Reaches;
    var node, t := s.stack[pos], Popped(s, pos);
    forall y {:trigger Anchored(g, t, gray, y)} | y in t.stack ensures Anchored(g, t, gray, y) {
      BelowIffSmaller(s, pos, y);
      assert Anchored(g, s, gray + {node}, y);
      var x :| x in gray + {node} && x in s.indices && s.indices[x] <= s.indices[y] && Reaches(g, y, x);
      assert x != node;
    }
    forall x {:trigger OnStack(t, x)} | x in gray ensures OnStack(t, x) {
      assert OnStack(s, x);
      BelowIffSmaller(s, pos, x);
    }
  }

  /** Popping the segment of a root retires one whole component. */
  lemma PopKeepsInv(g: Graph<Node>, s: Snap, gray: set<Node>, pos: nat)
    requires pos < |s.stack| && s.stack[pos] !in gray
    requires Inv(g, s, gray + {s.stack[pos]})
    requires forall x :: x in gray ==> x in s.indices && s.indices[x] < s.indices[s.stack[pos]]
    requires forall m :: m in Succ(g, s.stack[pos]) ==> m in s.indices
    requires EdgesBounded(g, s, pos, s.indices[s.stack[pos]])
    ensures Inv(g, Popped(s, pos), gray)
  {
    SegmentIsScc(g, s, gray + {s.stack[pos]}, pos);
    hide Retired, Linked;
    PopKeepsRetired(g, s, pos);
    PopKeepsLinked(g, s, gray, pos);
  }

  /** A node that is not a root stays on the stack: it reaches an open node below it. */
  lemma KeepKeepsInv(g: Graph<Node>, s: Snap, gray: set<Node>, node: Node)
    requires Inv(g, s, gray + {node}) && node !in gray
    requires forall m :: m in Succ(g, node) ==> m in s.indices
    requires LowWitness(g, s, node) && s.low[node] < s.indices[node]
    ensures Inv(g, s, gray)
  {
    hide Reaches;
    var y0 :| y0 in s.stack && s.indices[y0] == s.low[node] && Reaches(g, node, y0);
    assert Anchored(g, s, gray + {node}, y0);
    var x0 :| x0 in gray + {node} && x0 in s.indices && s.indices[x0] <= s.indices[y0] && Reaches(g, y0, x0);
    forall y {:trigger Anchored(g, s, gray, y)} | y in s.stack ensures Anchored(g, s, gray, y) {
      assert Anchored(g, s, gray + {node}, y);
      var x :| x in gray + {node} && x in s.indices && s.indices[x] <= s.indices[y] && Reaches(g, y, x);
      if x == node {
        ReachTrans(g, y, node, y0);
        ReachTrans(g, y, y0, x0);
      }
    }
    forall n {:trigger OnStack(s, n)} | n in gray ensures OnStack(s, n) {
    }
  }

  // ------------------------------------------------------------------------------------------
  // Scanning the targets of an open node
  // ------------------------------------------------------------------------------------------

  /** What the edges seen so far say about the low-link of `node`, which sits at `base`: the edges of
      the nodes above it, and its own edges to the targets in `done`. */
  ghost predicate EdgesSeen(g: Graph<Node>, t: Snap, base: nat, low: nat, done: set<Node>)
    requires Numbered(t) && base < |t.stack|
  {
    && (forall i, j :: base < i < |t.stack| && 0 <= j < base && t.stack[j] in Succ(g, t.stack[i])
          ==> low <= t.indices[t.stack[j]])
    && (forall j :: 0 <= j < base && t.stack[j] in done ==> low <= t.indices[t.stack[j]])
  }

  /** `node` was pushed on top of `s0`, and the targets in `done` have been handled. */
  ghost predicate Scanning(g: Graph<Node>, s0: Snap, t: Snap, gray: set<Node>, node: Node, done: set<Node>) {
    && Inv(g, t, gray + {node}) && Extends(s0, t) && s0.stack + [node] <= t.stack
    && node !in s0.low && node in t.indices && t.indices[node] == |s0.indices| && LowWitness(g, t, node)
    && done <= t.indices.Keys
    && EdgesSeen(g, t, |s0.stack|, t.low[node], done)
  }

  lemma ScanStarts(g: Graph<Node>, s0: Snap, gray: set<Node>, node: Node)
    requires Inv(g, s0, gray) && node !in s0.indices
    requires forall x :: x in gray ==> Reaches(g, x, node)
    ensures Scanning(g, s0, Pushed(s0, node), gray, node, {})
  {
    PushKeepsInv(g, s0, gray, node);
    ReachRefl(g, node);
    hide Reaches, Inv;
    assert Pushed(s0, node).stack[|s0.stack|] == node;
  }

  function Lowered(t: Snap, node: Node, bound: nat): Snap
    requires node in t.low
  {
    t.(low := t.low[node := if bound < t.low[node] then bound else t.low[node]])
  }

  /** Only the key sets of the low-links matter to the invariant. */
  lemma LoweredKeepsInv(g: Graph<Node>, t: Snap, gray: set<Node>, node: Node, bound: nat)
    requires Inv(g, t, gray) && node in t.low
    ensures Inv(g, Lowered(t, node, bound), gray)
  {
    hide Reaches, IsScc;
    var u := Lowered(t, node, bound);
    assert u.low.Keys == t.low.Keys;
    forall n {:trigger InRetired(u, n)} | n in u.indices && n !in u.stack ensures InRetired(u, n) {
      assert InRetired(t, n);
    }
    forall n {:trigger OnStack(u, n)} | n in gray ensures OnStack(u, n) {
      assert OnStack(t, n);
    }
    forall y {:trigger Anchored(g, u, gray, y)} | y in u.stack ensures Anchored(g, u, gray, y) {
      assert Anchored(g, t, gray, y);
    }
  }

  /** Lowering a link keeps it witnessed, provided the new bound is witnessed. */
  lemma LoweredWitness(g: Graph<Node>, t: Snap, node: Node, bound: nat)
    requires Numbered(t) && LowWitness(g, t, node)
    requires bound < t.low[node] ==> exists y :: y in t.stack && t.indices[y] == bound && Reaches(g, node, y)
    ensures LowWitness(g, Lowered(t, node, bound), node)
  {
    hide Reaches;
    var u := Lowered(t, node, bound);
    if bound < t.low[node] {
      var y :| y in t.stack && t.indices[y] == bound && Reaches(g, node, y);
      assert y in u.stack;
    } else {
      var y :| y in t.stack && t.indices[y] == t.low[node] && Reaches(g, node, y);
      assert y in u.stack;
    }
  }

  lemma InvNumbered(g: Graph<Node>, t: Snap, gray: set<Node>)
    requires Inv(g, t, gray)
    ensures Numbered(t)
  {
  }

  lemma ExtendsKeeps(t: Snap, u: Snap)
    requires Extends(t, u)
    ensures t.stack <= u.stack && forall n :: n in t.indices ==> n in u.indices && u.indices[n] == t.indices[n]
  {
  }

  lemma VisitKeepsExtension(s0: Snap, t: Snap, u: Snap, node: Node, bound: nat, done: set<Node>)
    requires Extends(s0, t) && Extends(t, u) && s0.stack + [node] <= t.stack && done <= t.indices.Keys
    requires node !in s0.low && node in t.low && node in t.indices
    ensures node in u.low && u.low[node] == t.low[node] && done <= u.indices.Keys
    ensures node in u.indices && u.indices[node] == t.indices[node]
    ensures Extends(s0, Lowered(u, node, bound)) && s0.stack + [node] <= u.stack
  {
  }

  lemma SeenIgnoresLow(g: Graph<Node>, u: Snap, v: Snap, base: nat, low: nat, done: set<Node>)
    requires Numbered(u) && base < |u.stack| && EdgesSeen(g, u, base, low, done)
    requires Numbered(v) && v.stack == u.stack && v.indices == u.indices
    ensures EdgesSeen(g, v, base, low, done)
  {
  }

  lemma SeenOnStack(g: Graph<Node>, t: Snap, base: nat, low: nat, done: set<Node>, target: Node)
    requires Numbered(t) && base < |t.stack| && EdgesSeen(g, t, base, low, done) && target in t.indices
    ensures EdgesSeen(g, t, base, if t.indices[target] < low then t.indices[target] else low, done + {target})
  {
  }

  /** An edge to a node still on the stack. */
  lemma ScanActive(g: Graph<Node>, s0: Snap, t: Snap, gray: set<Node>, node: Node, done: set<Node>, target: Node)
    requires Scanning(g, s0, t, gray, node, done)
    requires target in Succ(g, node) && target in t.indices && target in t.stack
    ensures Scanning(g, s0, Lowered(t, node, t.indices[target]), gray, node, done + {target})
  {
    LoweredKeepsInv(g, t, gray + {node}, node, t.indices[target]);
    ReachEdge(g, node, target);
    LoweredWitness(g, t, node, t.indices[target]);
    VisitKeepsExtension(s0, t, t, node, t.indices[target], done);
    SeenOnStack(g, t, |s0.stack|, t.low[node], done, target);
    var v := Lowered(t, node, t.indices[target]);
    SeenIgnoresLow(g, t, v, |s0.stack|, v.low[node], done + {target});
    hide Inv, Extends, LowWitness, EdgesSeen, Succ;
  }

  /** An edge into a retired component. */
  lemma ScanRetired(g: Graph<Node>, s0: Snap, t: Snap, gray: set<Node>, node: Node, done: set<Node>, target: Node)
    requires Scanning(g, s0, t, gray, node, done)
    requires target in t.indices && target !in t.stack
    ensures Scanning(g, s0, t, gray, node, done + {target})
  {
    hide Inv, LowWitness;
  }

  /** A visit on top of the stack adds only edges that its own low-link bounds. */
  lemma VisitKeepsSeen(g: Graph<Node>, t: Snap, u: Snap, base: nat, low: nat, bound: nat, done: set<Node>, target: Node)
    requires Numbered(t) && Numbered(u) && base < |t.stack| && target !in t.indices
    requires t.stack <= u.stack && forall n :: n in t.indices ==> n in u.indices && u.indices[n] == t.indices[n]
    requires EdgesSeen(g, t, base, low, done) && EdgesBounded(g, u, |t.stack|, bound)
    ensures EdgesSeen(g, u, base, if bound < low then bound else low, done + {target})
  {
    hide Succ;
    assert forall j :: 0 <= j < |t.stack| ==> u.stack[j] == t.stack[j];
  }

  lemma VisitKeepsWitness(g: Graph<Node>, t: Snap, u: Snap, node: Node, target: Node)
    requires Numbered(t) && Numbered(u) && Extends(t, u) && LowWitness(g, t, node)
    requires target in Succ(g, node) && target in u.indices && target !in t.indices
    requires u.indices[target] >= |t.indices| && (target in u.stack ==> LowWitness(g, u, target))
    requires target !in u.stack ==> u.low[target] == u.indices[target]
    ensures LowWitness(g, Lowered(u, node, u.low[target]), node)
  {
    hide Reaches;
    assert LowWitness(g, u, node) by {
      var y :| y in t.stack && t.indices[y] == t.low[node] && Reaches(g, node, y);
      assert y in u.stack;
    }
    if u.low[target] < u.low[node] {
      var y :| y in u.stack && u.indices[y] == u.low[target] && Reaches(g, target, y);
      ReachEdge(g, node, target);
      ReachTrans(g, node, target, y);
    }
    LoweredWitness(g, u, node, u.low[target]);
  }

  /** An edge to a node whose visit took the search from `t` to `u`. */
  lemma ScanVisited(g: Graph<Node>, s0: Snap, t: Snap, u: Snap, gray: set<Node>, node: Node, done: set<Node>,
        target: Node)
    requires Scanning(g, s0, t, gray, node, done)
    requires target in Succ(g, node) && target !in t.indices
    requires Inv(g, u, gray + {node}) && Extends(t, u)
    requires target in u.indices && u.indices[target] == |t.indices| && u.low[target] <= u.indices[target]
    requires target in u.stack ==> LowWitness(g, u, target)
    requires target !in u.stack ==> u.low[target] == u.indices[target]
    requires EdgesBounded(g, u, |t.stack|, u.low[target])
    ensures node in u.low
    ensures Scanning(g, s0, Lowered(u, node, u.low[target]), gray, node, done + {target})
  {
    hide Inv, Extends, LowWitness, EdgesSeen, EdgesBounded, Reaches, Succ;
    ExtendsKeeps(t, u);
    InvNumbered(g, t, gray + {node});
    InvNumbered(g, u, gray + {node});
    VisitKeepsExtension(s0, t, u, node, u.low[target], done);
    LoweredKeepsInv(g, u, gray + {node}, node, u.low[target]);
    VisitKeepsWitness(g, t, u, node, target);
    VisitKeepsSeen(g, t, u, |s0.stack|, t.low[node], u.low[target], done, target);
    var v := Lowered(u, node, u.low[target]);
    SeenIgnoresLow(g, u, v, |s0.stack|, v.low[node], done + {target});
  }

  lemma ScanningFacts(g: Graph<Node>, s0: Snap, t: Snap, gray: set<Node>, node: Node, done: set<Node>)
    requires Scanning(g, s0, t, gray, node, done)
    ensures Inv(g, t, gray + {node}) && Numbered(t) && node in t.indices && node in t.low && Extends(s0, t)
    ensures t.indices[node] == |s0.indices| && t.low[node] <= t.indices[node]
  {
  }

  /** What a recursive visit needs: every open node reaches its start, and fewer nodes are unnumbered. */
  lemma ScanningAllowsVisit(g: Graph<Node>, s0: Snap, t: Snap, gray: set<Node>, node: Node, done: set<Node>,
        target: Node)
    requires Scanning(g, s0, t, gray, node, done) && node !in s0.indices && node in Nodes(g)
    requires target in Succ(g, node)
    requires forall x :: x in gray ==> Reaches(g, x, node)
    ensures forall x :: x in gray + {node} ==> Reaches(g, x, target)
    ensures Nodes(g) - t.indices.Keys < Nodes(g) - s0.indices.Keys
    ensures target in Nodes(g)
  {
    ReachEdge(g, node, target);
    hide Reaches, Inv, LowWitness, EdgesSeen;
    forall x | x in gray ensures Reaches(g, x, target) {
      ReachTrans(g, x, node, target);
    }
    assert node in Nodes(g) - s0.indices.Keys && node !in Nodes(g) - t.indices.Keys;
  }

  /** After the last target, every edge out of the segment is accounted for. */
  lemma ScanEnds(g: Graph<Node>, s0: Snap, t: Snap, gray: set<Node>, node: Node)
    requires Scanning(g, s0, t, gray, node, Succ(g, node))
    ensures Numbered(t) && node in t.low && EdgesBounded(g, t, |s0.stack|, t.low[node])
    ensures |s0.stack| < |t.stack| && t.stack[|s0.stack|] == node && s0.stack == t.stack[..|s0.stack|]
    ensures forall m :: m in Succ(g, node) ==> m in t.indices
  {
    hide Reaches, Retired, Linked, LowWitness;
  }

  /** The open nodes other than the top one lie below it. */
  lemma GrayBelow(g: Graph<Node>, s0: Snap, t: Snap, gray: set<Node>, node: Node)
    requires Inv(g, s0, gray) && node !in s0.indices
    requires Scanning(g, s0, t, gray, node, Succ(g, node))
    ensures node !in gray
    ensures forall x :: x in gray ==> x in t.indices && t.indices[x] < t.indices[node]
  {
    hide Reaches, Retired, LowWitness, EdgesSeen;
    forall x | x in gray ensures x in t.indices && t.indices[x] < t.indices[node] && x != node {
      assert OnStack(s0, x);
    }
  }

  /** A root: its segment is one component, and nothing of it stays. */
  lemma RootCloses(g: Graph<Node>, s0: Snap, t: Snap, gray: set<Node>, node: Node)
    requires Inv(g, s0, gray) && node !in s0.indices
    requires Scanning(g, s0, t, gray, node, Succ(g, node)) && t.low[node] == t.indices[node]
    ensures Inv(g, Popped(t, |s0.stack|), gray) && Extends(s0, Popped(t, |s0.stack|))
    ensures IsScc(g, Elements(t.stack[|s0.stack|..])) && node in t.stack[|s0.stack|..] && node !in t.stack[..|s0.stack|]
    ensures Elements(t.stack[|s0.stack|..]) !in t.sccs
  {
    hide Reaches, IsScc, Inv, Scanning, LowWitness, EdgesSeen, EdgesBounded, Extends, Elements;
    var pos := |s0.stack|;
    ScanningFacts(g, s0, t, gray, node, Succ(g, node));
    ScanEnds(g, s0, t, gray, node);
    GrayBelow(g, s0, t, gray, node);
    PopKeepsInv(g, t, gray, pos);
    SegmentIsScc(g, t, gray + {node}, pos);
    ComponentIsNew(g, t, gray + {node}, pos);
    PopExtends(s0, t, pos);
    assert t.stack[pos..][0] == node && node in t.stack;
    PoppedOrBelow(t, pos, node);
  }

  lemma ComponentIsNew(g: Graph<Node>, t: Snap, gray: set<Node>, pos: nat)
    requires Inv(g, t, gray) && pos < |t.stack|
    ensures Elements(t.stack[pos..]) !in t.sccs
  {
    hide Reaches, IsScc, Linked;
    assert t.stack[pos..][0] == t.stack[pos];
    assert t.stack[pos] in Elements(t.stack[pos..]) && t.stack[pos] in t.stack;
  }

  lemma PopExtends(s0: Snap, t: Snap, pos: nat)
    requires Extends(s0, t) && pos <= |t.stack| && s0.stack == t.stack[..pos]
    ensures Extends(s0, Popped(t, pos))
  {
  }

  /** Not a root: the node stays on the stack for an earlier one. */
  lemma NonRootStays(g: Graph<Node>, s0: Snap, t: Snap, gray: set<Node>, node: Node)
    requires Inv(g, s0, gray) && node !in s0.indices
    requires Scanning(g, s0, t, gray, node, Succ(g, node)) && t.low[node] < t.indices[node]
    ensures Inv(g, t, gray) && Extends(s0, t) && node in t.stack && LowWitness(g, t, node)
    ensures EdgesBounded(g, t, |s0.stack|, t.low[node])
  {
    ScanEnds(g, s0, t, gray, node);
    GrayBelow(g, s0, t, gray, node);
    KeepKeepsInv(g, t, gray, node);
    hide Reaches, Retired, Linked;
  }

  // ------------------------------------------------------------------------------------------
  // The search itself
  // ------------------------------------------------------------------------------------------

  /** A group is reported under its sorted spelling when it is cyclic. */
  ghost predicate Reports(g: Graph<Node>, found: seq<seq<Node>>, sccs: set<set<Node>>) {
    && (forall i :: 0 <= i < |found| ==> Sorted(StringLeq, found[i]) && Distinct(found[i]))
    && (forall i :: 0 <= i < |found| ==> Elements(found[i]) in sccs && Cyclic(g, Elements(found[i])))
    && (forall i, j :: 0 <= i < j < |found| ==> Elements(found[i]) != Elements(found[j]))
    && (forall c :: c in sccs && Cyclic(g, c) ==> exists i :: 0 <= i < |found| && Elements(found[i]) == c)
  }

  lemma ReportsAfterCyclic(g: Graph<Node>, found: seq<seq<Node>>, sccs: set<set<Node>>, group: seq<Node>)
    requires Reports(g, found, sccs) && Elements(group) !in sccs && Cyclic(g, Elements(group))
    requires Sorted(StringLeq, group) && Distinct(group)
    ensures Reports(g, found + [group], sccs + {Elements(group)})
  {
    hide Cyclic, Sorted, Distinct, Elements;
    var more, all := found + [group], sccs + {Elements(group)};
    forall c | c in all && Cyclic(g, c) ensures exists i :: 0 <= i < |more| && Elements(more[i]) == c {
      if c in sccs {
        var i :| 0 <= i < |found| && Elements(found[i]) == c;
        assert more[i] == found[i];
      } else {
        assert more[|found|] == group;
      }
    }
  }

  lemma ReportsAfterTrivial(g: Graph<Node>, found: seq<seq<Node>>, sccs: set<set<Node>>, c: set<Node>)
    requires Reports(g, found, sccs) && !Cyclic(g, c)
    ensures Reports(g, found, sccs + {c})
  {
    hide Cyclic, Sorted, Distinct, Elements;
  }

  lemma SamePlace(stack: seq<Node>, i: nat, j: nat)
    requires Distinct(stack) && i < |stack| && j < |stack| && stack[i] == stack[j]
    ensures i == j
  {
  }

  lemma PopOne(before: seq<Node>, stack: seq<Node>, group: seq<Node>)
    requires stack != [] && |stack| <= |before| && stack == before[..|stack|] && Distinct(stack)
    requires multiset(group) == multiset(before[|stack|..])
    ensures var top, target := |stack| - 1, stack[|stack| - 1];
      && multiset(group + [target]) == multiset(before[top..]) && stack[..top] == before[..top]
      && Distinct(stack[..top]) && Elements(stack[..top]) == Elements(stack) - {target}
  {
    var top, target := |stack| - 1, stack[|stack| - 1];
    assert before[top..] == [target] + before[top + 1..];
    assert stack == stack[..top] + [target];
  }

  /** The test the search makes on a popped group decides whether the component has a cycle. */
  lemma GroupTest(g: Graph<Node>, group: seq<Node>, node: Node)
    requires Distinct(group) && node in group
    ensures (|group| > 1 || node in Succ(g, node)) <==> Cyclic(g, Elements(group))
  {
    DistinctLength(group);
    if |group| == 1 {
      assert group == [node];
      assert Elements(group) == {node};
    }
  }

  lemma GroupIsDistinct(s: Snap, pos: nat, group: seq<Node>)
    requires Numbered(s) && pos <= |s.stack| && multiset(group) == multiset(s.stack[pos..])
    ensures Distinct(group)
  {
    DistinctIsPermutationInvariant(s.stack[pos..], group);
  }

  lemma SortedGroup(group: seq<Node>)
    requires Distinct(group)
    ensures Sorted(StringLeq, SortBy(StringLeq, group)) && Distinct(SortBy(StringLeq, group))
    ensures Elements(SortBy(StringLeq, group)) == Elements(group)
  {
    StringLeqIsTotalOrder();
    SortBySorts(StringLeq, group);
    DistinctIsPermutationInvariant(group, SortBy(StringLeq, group));
    SameElements(group, SortBy(StringLeq, group));
  }

  lemma BoundedNothing(g: Graph<Node>, s: Snap, bound: nat)
    requires Numbered(s)
    ensures EdgesBounded(g, s, |s.stack|, bound)
  {
  }

  lemma StackDistinct(s: Snap)
    requires Numbered(s)
    ensures Distinct(s.stack)
  {
  }

  class Search {
    const adjacency: Graph<Node>
    var indices: map<Node, nat>
    var low: map<Node, nat>
    var stack: seq<Node>
    var active: set<Node>
    var found: seq<seq<Node>>
    ghost var sccs: set<set<Node>>

    ghost function Now(): Snap
      reads this
    {
      Snap(indices, low, stack, sccs)
    }

    ghost predicate Valid(gray: set<Node>)
      reads this
    {
      && Inv(adjacency, Now(), gray)
      && indices.Keys <= Nodes(adjacency)
      && active == Elements(stack)
      && Reports(adjacency, found, sccs)
    }

    constructor (adjacency: Graph<Node>)
      ensures this.adjacency == adjacency
      ensures Valid({}) && indices == map[] && stack == []
    {
      this.adjacency := adjacency;
      indices, low, stack, active, found, sccs := map[], map[], [], {}, [], {};
    }

    /** Pop the stack down to and including `node`. */
    method PopGroup(node: Node, ghost pos: nat) returns (group: seq<Node>)
      requires pos < |stack| && stack[pos] == node && Distinct(stack) && active == Elements(stack)
      modifies this`stack, this`active
      ensures stack == old(stack)[..pos] && active == Elements(stack)
      ensures multiset(group) == multiset(old(stack)[pos..])
    {
      hide Distinct, Elements;
      ghost var before := stack;
      group := [];
      while true
        invariant pos < |stack| <= |before| && stack == before[..|stack|]
        invariant active == Elements(stack) && Distinct(stack)
        invariant multiset(group) == multiset(before[|stack|..])
        decreases |stack|
      {
        var target := stack[|stack| - 1];
        PopOne(before, stack, group);
        stack := stack[..|stack| - 1];
        active := active - {target};
        group := group + [target];
        if target == node {
          SamePlace(before, |stack|, pos);
          break;
        }
      }
    }

    /** The end of a visit: a root pops and perhaps reports its component, any other node stays. */
    method Close(node: Node, ghost s0: Snap, ghost gray: set<Node>)
      requires Inv(adjacency, s0, gray) && node !in s0.indices
      requires Scanning(adjacency, s0, Now(), gray, node, Succ(adjacency, node))
      requires indices.Keys <= Nodes(adjacency) && active == Elements(stack) && Reports(adjacency, found, sccs)
      modifies this
      ensures Valid(gray) && Extends(s0, Now())
      ensures node in indices && indices[node] == |s0.indices| && low[node] <= indices[node]
      ensures node in stack ==> LowWitness(adjacency, Now(), node)
      ensures node !in stack ==> low[node] == indices[node]
      ensures EdgesBounded(adjacency, Now(), |s0.stack|, low[node])
    {
      hide Inv, Scanning, Extends, LowWitness, EdgesBounded, Reports, Reaches,
          Sorted, Distinct, Cyclic, IsScc, SortBy, Numbered, Nodes, Succ, StringLeq;
      ghost var t := Now();
      ScanEnds(adjacency, s0, t, gray, node);
      ScanningFacts(adjacency, s0, t, gray, node, Succ(adjacency, node));
      if low[node] == indices[node] {
        RootCloses(adjacency, s0, t, gray, node);
        StackDistinct(t);
        var group := PopGroup(node, |s0.stack|);
        ghost var c := Elements(t.stack[|s0.stack|..]);
        SameElements(group, t.stack[|s0.stack|..]);
        GroupIsDistinct(t, |s0.stack|, group);
        assert node in Elements(group);
        GroupTest(adjacency, group, node);
        if |group| > 1 || node in Succ(adjacency, node) {
          ghost var was := found;
          SortedGroup(group);
          found := found + [SortBy(StringLeq, group)];
          ReportsAfterCyclic(adjacency, was, sccs, SortBy(StringLeq, group));
        } else {
          ReportsAfterTrivial(adjacency, found, sccs, c);
        }
        sccs := sccs + {c};
        assert Now() == Popped(t, |s0.stack|);
        BoundedNothing(adjacency, Now(), low[node]);
      } else {
        NonRootStays(adjacency, s0, t, gray, node);
      }
      InvNumbered(adjacency, Now(), gray);
    }

    method Visit(node: Node, ghost gray: set<Node>)
      requires Valid(gray) && node in Nodes(adjacency) && node !in indices
      requires forall x :: x in gray ==> Reaches(adjacency, x, node)
      modifies this
      ensures Valid(gray) && Extends(old(Now()), Now())
      ensures node in indices && indices[node] == |old(indices)| && low[node] <= indices[node]
      ensures node in stack ==> LowWitness(adjacency, Now(), node)
      ensures node !in stack ==> low[node] == indices[node]
      ensures EdgesBounded(adjacency, Now(), |old(stack)|, low[node])
      decreases Nodes(adjacency) - indices.Keys, 0
    {
      hide Inv, Scanning, Extends, LowWitness, EdgesBounded, Reports, Reaches, Numbered, Sorted, Distinct, Nodes, Succ;
      ghost var s0 := Now();
      ScanStarts(adjacency, s0, gray, node);
      var number := |indices|;
      indices, low := indices[node := number], low[node := number];
      stack, active := stack + [node], active + {node};
      assert Now() == Pushed(s0, node);
      var targets := SortSet(Succ(adjacency, node));
      assert Elements(targets) == Succ(adjacency, node);
      var k := 0;
      assert Elements(targets[..k]) == {};
      while k < |targets|
        invariant k <= |targets|
        invariant Scanning(adjacency, s0, Now(), gray, node, Elements(targets[..k]))
        invariant indices.Keys <= Nodes(adjacency)
        invariant active == Elements(stack)
        invariant Reports(adjacency, found, sccs)
      {
        assert Elements(targets[..k + 1]) == Elements(targets[..k]) + {targets[k]};
        assert targets[k] in Elements(targets);
        Follow(node, targets[k], s0, gray, Elements(targets[..k]));
        k := k + 1;
      }
      assert targets[..k] == targets;
      Close(node, s0, gray);
    }

    /** One target of the open node `node`: visit it, or take its number into account, or ignore it. */
    method Follow(node: Node, target: Node, ghost s0: Snap, ghost gray: set<Node>, ghost done: set<Node>)
      requires Scanning(adjacency, s0, Now(), gray, node, done) && node !in s0.indices && node in Nodes(adjacency)
      requires target in Succ(adjacency, node)
      requires indices.Keys <= Nodes(adjacency) && active == Elements(stack) && Reports(adjacency, found, sccs)
      requires forall x :: x in gray ==> Reaches(adjacency, x, node)
      modifies this
      ensures Scanning(adjacency, s0, Now(), gray, node, done + {target})
      ensures indices.Keys <= Nodes(adjacency) && active == Elements(stack) && Reports(adjacency, found, sccs)
      decreases Nodes(adjacency) - s0.indices.Keys, 0, 0
    {
      hide Inv, Scanning, Extends, LowWitness, EdgesBounded, Reports, Reaches, Numbered, Nodes, Succ;
      ghost var t := Now();
      ScanningFacts(adjacency, s0, t, gray, node, done);
      if target !in indices {
        ScanningAllowsVisit(adjacency, s0, t, gray, node, done, target);
        Visit(target, gray + {node});
        InvNumbered(adjacency, Now(), gray + {node});
        ScanVisited(adjacency, s0, t, Now(), gray, node, done, target);
        low := low[node := if low[target] < low[node] then low[target] else low[node]];
      } else if target in active {
        ScanActive(adjacency, s0, t, gray, node, done, target);
        low := low[node := if indices[target] < low[node] then indices[target] else low[node]];
      } else {
        ScanRetired(adjacency, s0, t, gray, node, done, target);
      }
    }
  }

  // ------------------------------------------------------------------------------------------
  // The report
  // ------------------------------------------------------------------------------------------

  /** Once no node is open the stack is empty. */
  lemma NothingOpen(g: Graph<Node>, s: Snap)
    requires Inv(g, s, {})
    ensures s.stack == []
  {
    hide Reaches;
    assert s.stack == [] || Anchored(g, s, {}, s.stack[0]);
  }

  /** When every node is numbered and none is open, the retired sets are all the components. */
  lemma AllComponentsRetired(g: Graph<Node>, s: Snap, c: set<Node>)
    requires Inv(g, s, {}) && Nodes(g) <= s.indices.Keys
    requires IsScc(g, c) && Cyclic(g, c)
    ensures c in s.sccs
  {
    NothingOpen(g, s);
    var x :| x in c;
    CyclicIffOnCycle(g, c, x);
    var p: seq<Node> :| |p| > 1 && PathFromTo(g, p, x, x);
    assert p[1] in Succ(g, x);
    assert InRetired(s, x);
    var d :| d in s.sccs && x in d;
    SccIsClassOfMember(g, c, d, x);
  }

  /** The reported groups are the cyclic components, each spelled once, pairwise disjoint. */
  ghost predicate Complete(g: Graph<Node>, groups: seq<seq<Node>>) {
    && Distinct(groups)
    && (forall q :: q in groups ==>
        Sorted(StringLeq, q) && Distinct(q) && IsScc(g, Elements(q)) && Cyclic(g, Elements(q)))
    && (forall q, r :: q in groups && r in groups && q != r ==> Elements(q) !! Elements(r))
    && (forall c :: IsScc(g, c) && Cyclic(g, c) ==> exists q :: q in groups && Elements(q) == c)
  }

  lemma ReportsIsComplete(g: Graph<Node>, s: Snap, found: seq<seq<Node>>)
    requires Inv(g, s, {}) && Nodes(g) <= s.indices.Keys && Reports(g, found, s.sccs)
    ensures Complete(g, found)
  {
    hide Reaches, IsScc, Cyclic, Linked, Sorted, Numbered;
    assert Distinct(found);
    forall q, r | q in found && r in found && q != r ensures Elements(q) !! Elements(r) {
      assert Elements(q) != Elements(r);
      ComponentsDisjoint(g, Elements(q), Elements(r));
    }
    forall c | IsScc(g, c) && Cyclic(g, c) ensures exists q :: q in found && Elements(q) == c {
      AllComponentsRetired(g, s, c);
      var i :| 0 <= i < |found| && Elements(found[i]) == c;
      assert found[i] in found;
    }
  }

  /** Completeness is about the members of the list, not about their order. */
  lemma MembersDecide(g: Graph<Node>, found: seq<seq<Node>>, groups: seq<seq<Node>>)
    requires Complete(g, found) && Distinct(groups) && forall q :: q in groups <==> q in found
    ensures Complete(g, groups)
  {
    hide IsScc, Cyclic, Sorted, Distinct, Elements;
    forall c | IsScc(g, c) && Cyclic(g, c) ensures exists q :: q in groups && Elements(q) == c {
      var q :| q in found && Elements(q) == c;
      assert q in groups;
    }
  }

  lemma FoundIsDistinct(g: Graph<Node>, found: seq<seq<Node>>)
    requires Complete(g, found)
    ensures Distinct(found)
  {
  }

  lemma SortedIsComplete(g: Graph<Node>, found: seq<seq<Node>>)
    requires Complete(g, found)
    ensures Complete(g, SortBy(StringsLeq, found)) && Sorted(StringsLeq, SortBy(StringsLeq, found))
  {
    hide Complete, SortBy, Sorted, Distinct, StringsLeq;
    StringsLeqIsTotalOrder();
    SortBySorts(StringsLeq, found);
    FoundIsDistinct(g, found);
    hide TotalOrder;
    var groups := SortBy(StringsLeq, found);
    DistinctIsPermutationInvariant(found, groups);
    MembersDecide(g, found, groups);
  }

  /** The declared-package cycle list: one sorted group for every strongly connected set that
      contains a cycle, nothing else, each once, the list itself sorted. */
  method Cycles(adjacency: Graph<Node>) returns (groups: seq<seq<Node>>)
    ensures Complete(adjacency, groups) && Sorted(StringsLeq, groups)
  {
    hide Reaches, Inv, Reports, Sorted, Complete;
    var search := new Search(adjacency);
    var nodes := SortSet(Nodes(adjacency));
    var k := 0;
    while k < |nodes|
      invariant k <= |nodes|
      invariant fresh(search) && search.adjacency == adjacency && search.Valid({})
      invariant forall i :: 0 <= i < k ==> nodes[i] in search.indices
    {
      if nodes[k] !in search.indices {
        search.Visit(nodes[k], {});
      }
      k := k + 1;
    }
    ReportsIsComplete(adjacency, search.Now(), search.found);
    SortedIsComplete(adjacency, search.found);
    groups := SortBy(StringsLeq, search.found);
  }

  /** Read off the report: a node is listed exactly when it lies on a dependency cycle. */
  lemma ListedIffOnCycle(g: Graph<Node>, groups: seq<seq<Node>>, n: Node)
    requires Complete(g, groups)
    ensures (exists q :: q in groups && n in q) <==> OnCycle(g, n)
  {
    if q :| q in groups && n in q {
      CyclicIffOnCycle(g, Elements(q), n);
    }
    if OnCycle(g, n) {
      var c := ClassOf(g, n);
      CyclicIffOnCycle(g, c, n);
      var q :| q in groups && Elements(q) == c;
      assert n in Elements(q);
    }
  }

  /** The component of a node on a cycle is finite: its members are nodes of the graph. */
  lemma ClassOf(g: Graph<Node>, n: Node) returns (c: set<Node>)
    requires OnCycle(g, n)
    ensures IsScc(g, c) && n in c
  {
    c := set x | x in Nodes(g) && Mutual(g, n, x);
    ReachRefl(g, n);
    var p: seq<Node> :| |p| > 1 && PathFromTo(g, p, n, n);
    assert p[1] in Succ(g, n) && n in Nodes(g);
    assert n in c;
    forall x, y | x in c ensures y in c <==> Mutual(g, x, y) {
      if y in c {
        ReachTrans(g, x, n, y);
        ReachTrans(g, y, n, x);
      }
      if Mutual(g, x, y) {
        ReachTrans(g, n, x, y);
        ReachTrans(g, y, x, n);
        NodesClosed(g);
        ClosedContainsReachable(g, Nodes(g), n, y);
      }
    }
  }

  lemma NodesClosed(g: Graph<Node>)
    ensures forall x :: x in Nodes(g) ==> Succ(g, x) <= Nodes(g)
  {
  }

  /** The report depends on the graph only, not on the order of the search. */
  lemma ReportIsUnique(g: Graph<Node>, a: seq<seq<Node>>, b: seq<seq<Node>>)
    requires Complete(g, a) && Sorted(StringsLeq, a)
    requires Complete(g, b) && Sorted(StringsLeq, b)
    ensures a == b
  {
    StringsLeqIsTotalOrder();
    SameGroups(g, a, b);
    SameGroups(g, b, a);
    SameDistinctMembers(a, b);
    SortedIsUnique(StringsLeq, a, b);
  }

  lemma SameGroups(g: Graph<Node>, a: seq<seq<Node>>, b: seq<seq<Node>>)
    requires Complete(g, a) && Complete(g, b)
    ensures forall q :: q in a ==> q in b
  {
    hide IsScc, Cyclic;
    StringLeqIsTotalOrder();
    forall q | q in a ensures q in b {
      var r :| r in b && Elements(r) == Elements(q);
      forall x ensures x in q <==> x in r {
        assert x in Elements(q) <==> x in Elements(r);
      }
      SameDistinctMembers(q, r);
      SortedIsUnique(StringLeq, q, r);
    }
  }
}

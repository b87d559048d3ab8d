/**
 * The counting trie behind the sunburst view
 * (src/visualization/sunburst_server/hierarchical_data_counter.py).
 *
 * Every `Node` of the trie lives in one arena owned by the counter: node
 * `i` has a name, a value, the index of its parent and the indices of its
 * children in insertion order (the order of the Python `children` dict).
 * Node 0 is the root "TOTAL", whose id is the empty string; every other
 * node gets a fresh identifier, modelled as `Uuid(i)`.
 */
module HierarchyCounter {
  import opened Wrappers

  /** A node id: the root's `""` or a fresh `uuid4` string. */
  datatype NodeId = RootId | Uuid(n: nat)

  /** `Node.to_dict()`: the row a node contributes to the sunburst data frame. */
  datatype NodeRecord = NodeRecord(id: NodeId, parent: Option<NodeId>, name: string, value: nat)

  /** What `get_descendants_at_levels` raises: a failed `assert` or `levels[0]` on an empty list. */
  datatype LevelsError = AssertionError | IndexError

  /** `sorted(levels)[0]`. */
  function Smallest(levels: seq<int>): (r: int)
    requires |levels| > 0
    ensures r in levels && forall k :: 0 <= k < |levels| ==> r <= levels[k]
  {
    if |levels| == 1 then levels[0]
    else
      var m := Smallest(levels[1..]);
      if levels[0] <= m then levels[0] else m
  }

  /** `p` is a prefix of `h`. */
  predicate IsPrefix(p: seq<string>, h: seq<string>) {
    |p| <= |h| && h[..|p|] == p
  }

  /** The number of hierarchies in `hs` that start with `p`. */
  function CountPrefix(hs: seq<seq<string>>, p: seq<string>): nat {
    if |hs| == 0 then 0
    else CountPrefix(hs[..|hs| - 1], p) + (if IsPrefix(p, hs[|hs| - 1]) then 1 else 0)
  }

  lemma CountPrefixAppend(hs: seq<seq<string>>, h: seq<string>, p: seq<string>)
    ensures CountPrefix(hs + [h], p) == CountPrefix(hs, p) + (if IsPrefix(p, h) then 1 else 0)
  {
    assert (hs + [h])[..|hs|] == hs;
  }

  /** Every hierarchy starts with the empty path. */
  lemma {:induction false} CountEmptyPrefix(hs: seq<seq<string>>)
    ensures CountPrefix(hs, []) == |hs|
    decreases |hs|
  {
    if |hs| > 0 {
      CountEmptyPrefix(hs[..|hs| - 1]);
    }
  }

  function Reverse(s: seq<string>): (r: seq<string>)
    ensures |r| == |s| && forall i :: 0 <= i < |s| ==> r[i] == s[|s| - 1 - i]
  {
    seq(|s|, i requires 0 <= i < |s| => s[|s| - 1 - i])
  }

  predicate DistinctNats(s: seq<nat>) {
    forall i, j :: 0 <= i < j < |s| ==> s[i] != s[j]
  }

  /** Node 0 is the root "TOTAL" with the empty path; every other node extends its parent's path. */
  ghost predicate TreeLinks(names: seq<string>, parent: seq<nat>, paths: seq<seq<string>>) {
    var n := |names|;
    n >= 1 && |parent| == n && |paths| == n && names[0] == "TOTAL" && paths[0] == [] &&
    (forall i :: 0 < i < n ==> parent[i] < i && paths[i] == paths[parent[i]] + [names[i]])
  }

  /** Child lists hold distinct nodes, each listed under its own parent and nowhere else. */
  ghost predicate ChildLists(n: nat, parent: seq<nat>, children: seq<seq<nat>>) {
    |parent| == n && |children| == n &&
    (forall c :: 0 < c < n ==> parent[c] < c) &&
    (forall i :: 0 <= i < n ==> DistinctNats(children[i])) &&
    (forall i, k :: 0 <= i < n && 0 <= k < |children[i]| ==> 0 < children[i][k] < n && parent[children[i][k]] == i) &&
    (forall c :: 0 < c < n ==> c in children[parent[c]])
  }

  /** `index` maps each path to the one node that has it. */
  ghost predicate PathIndex(paths: seq<seq<string>>, index: map<seq<string>, nat>) {
    (forall p :: p in index ==> index[p] < |paths| && paths[index[p]] == p) &&
    (forall i :: 0 <= i < |paths| ==> paths[i] in index && index[paths[i]] == i)
  }

  ghost predicate TrieShape(names: seq<string>, values: seq<nat>, parent: seq<nat>, children: seq<seq<nat>>,
                            paths: seq<seq<string>>, index: map<seq<string>, nat>) {
    TreeLinks(names, parent, paths) && |values| == |names| &&
    ChildLists(|names|, parent, children) && PathIndex(paths, index)
  }

  lemma NewChildLinks(names: seq<string>, parent: seq<nat>, paths: seq<seq<string>>, cur: nat, name: string)
    requires TreeLinks(names, parent, paths) && cur < |names|
    ensures TreeLinks(names + [name], parent + [cur], paths + [paths[cur] + [name]])
  {
  }

  lemma NewChildLists(n: nat, parent: seq<nat>, children: seq<seq<nat>>, cur: nat)
    requires ChildLists(n, parent, children) && cur < n
    ensures ChildLists(n + 1, parent + [cur], children[cur := children[cur] + [n]] + [[]])
  {
    var parent', children' := parent + [cur], children[cur := children[cur] + [n]] + [[]];
    assert forall k :: 0 <= k < |children[cur]| ==> children[cur][k] < n;
    forall i, k | 0 <= i < n + 1 && 0 <= k < |children'[i]|
      ensures 0 < children'[i][k] < n + 1 && parent'[children'[i][k]] == i
    {
      if !(i == cur && k == |children[cur]|) {
        assert children'[i][k] == children[i][k];
      }
    }
    forall c | 0 < c < n + 1 ensures c in children'[parent'[c]] {
      if c < n {
        assert c in children[parent[c]];
      } else {
        assert children'[cur][|children[cur]|] == n;
      }
    }
  }

  lemma NewChildIndex(paths: seq<seq<string>>, index: map<seq<string>, nat>, p: seq<string>)
    requires PathIndex(paths, index) && p !in index
    ensures PathIndex(paths + [p], index[p := |paths|])
  {
  }

  /**
   * The node values while hierarchy `h` is being added and the walk has
   * gone past depth `d - 1`: the count over `hs`, plus one on every node
   * whose path is a prefix of `h` shorter than `d`.
   */
  ghost predicate CountedAbove(values: seq<nat>, paths: seq<seq<string>>, hs: seq<seq<string>>, h: seq<string>, d: nat) {
    |values| == |paths| &&
    forall i :: 0 <= i < |paths| ==>
      values[i] == CountPrefix(hs, paths[i]) + (if |paths[i]| < d && IsPrefix(paths[i], h) then 1 else 0)
  }

  lemma StartCounting(values: seq<nat>, paths: seq<seq<string>>, hs: seq<seq<string>>, h: seq<string>)
    requires |values| == |paths|
    requires forall i :: 0 <= i < |paths| ==> values[i] == CountPrefix(hs, paths[i])
    ensures CountedAbove(values, paths, hs, h, 0)
  {
  }

  /** Adding one to the node at depth `d` on the path of `h`. */
  lemma CountedStep(values: seq<nat>, paths: seq<seq<string>>, hs: seq<seq<string>>, h: seq<string>, d: nat, cur: nat)
    requires d <= |h| && cur < |paths| && paths[cur] == h[..d]
    requires forall i :: 0 <= i < |paths| && paths[i] == h[..d] ==> i == cur
    requires CountedAbove(values, paths, hs, h, d)
    ensures CountedAbove(values[cur := values[cur] + 1], paths, hs, h, d + 1)
  {
    forall i | 0 <= i < |paths| && |paths[i]| == d && IsPrefix(paths[i], h) ensures i == cur {
      assert paths[i] == h[..d];
    }
  }

  /** A fresh node with value 0 for the prefix of length `d + 1`. */
  lemma CountedNewNode(values: seq<nat>, paths: seq<seq<string>>, hs: seq<seq<string>>, h: seq<string>, d: nat)
    requires d < |h| && CountedAbove(values, paths, hs, h, d + 1)
    requires CountPrefix(hs, h[..d + 1]) == 0
    ensures CountedAbove(values + [0], paths + [h[..d + 1]], hs, h, d + 1)
  {
  }

  lemma FinishCounting(values: seq<nat>, paths: seq<seq<string>>, hs: seq<seq<string>>, h: seq<string>)
    requires CountedAbove(values, paths, hs, h, |h| + 1)
    ensures forall i :: 0 <= i < |paths| ==> values[i] == CountPrefix(hs + [h], paths[i])
  {
    forall i | 0 <= i < |paths| ensures values[i] == CountPrefix(hs + [h], paths[i]) {
      CountPrefixAppend(hs, h, paths[i]);
    }
  }

  // ---------------------------------------------------------------------
  // Traversals, stated over the arena's child lists

  /** Every child has a larger index than its parent, so walks terminate. */
  ghost predicate Ordered(children: seq<seq<nat>>) {
    forall i, k :: 0 <= i < |children| && 0 <= k < |children[i]| ==> i < children[i][k] < |children|
  }

  /** Children of `p`, each with a larger index than `p`. */
  ghost predicate Below(children: seq<seq<nat>>, cs: seq<nat>, p: nat) {
    p < |children| && forall k :: 0 <= k < |cs| ==> p < cs[k] < |children|
  }

  lemma ChildListsOrdered(n: nat, parent: seq<nat>, children: seq<seq<nat>>)
    requires ChildLists(n, parent, children)
    ensures Ordered(children)
  {
    forall i, k | 0 <= i < |children| && 0 <= k < |children[i]| ensures i < children[i][k] < |children| {
      assert parent[children[i][k]] == i;
    }
  }

  /**
   * `_get_all_descendants` of node `i`: for each child in order, the child
   * followed by its own descendants (pre-order).
   */
  function Descendants(children: seq<seq<nat>>, i: nat): seq<nat>
    requires Ordered(children) && i < |children|
    decreases |children| - i, 1
  {
    DescendantsOf(children, children[i], i)
  }

  /** The pre-order walk below the children `cs` of `p`, in order. */
  function DescendantsOf(children: seq<seq<nat>>, cs: seq<nat>, p: nat): seq<nat>
    requires Ordered(children) && Below(children, cs, p)
    decreases |children| - p, 0, |cs|
  {
    if |cs| == 0 then []
    else
      var c := cs[|cs| - 1];
      DescendantsOf(children, cs[..|cs| - 1], p) + [c] + Descendants(children, c)
  }

  /** Parents come before their children. */
  ghost predicate ParentsFirst(parent: seq<nat>) {
    forall c :: 0 < c < |parent| ==> parent[c] < c
  }

  /** `a` is a proper ancestor of `x`. */
  ghost predicate IsAncestor(parent: seq<nat>, a: nat, x: nat)
    requires ParentsFirst(parent) && x < |parent|
    decreases x
  {
    x > 0 && (parent[x] == a || IsAncestor(parent, a, parent[x]))
  }

  /** The depth of node `x`: the root is at depth 0, its children at depth 1. */
  function Depth(parent: seq<nat>, x: nat): nat
    requires ParentsFirst(parent) && x < |parent|
    decreases x
  {
    if x == 0 then 0 else Depth(parent, parent[x]) + 1
  }

  lemma {:induction false} AncestorSmaller(parent: seq<nat>, a: nat, x: nat)
    requires ParentsFirst(parent) && x < |parent| && IsAncestor(parent, a, x)
    ensures a < x
    decreases x
  {
    if parent[x] != a {
      AncestorSmaller(parent, a, parent[x]);
    }
  }

  lemma {:induction false} AncestorTrans(parent: seq<nat>, c: nat, x: nat)
    requires ParentsFirst(parent) && 0 < c < |parent| && x < |parent| && IsAncestor(parent, c, x)
    ensures IsAncestor(parent, parent[c], x)
    decreases x
  {
    if parent[x] != c {
      AncestorTrans(parent, c, parent[x]);
    }
  }

  lemma {:induction false} RootIsAncestor(parent: seq<nat>, x: nat)
    requires ParentsFirst(parent) && 0 < x < |parent|
    ensures IsAncestor(parent, 0, x)
    decreases x
  {
    if parent[x] != 0 {
      RootIsAncestor(parent, parent[x]);
    }
  }

  /** The child of `i` on the way down to a proper descendant `x`. */
  lemma {:induction false} ChildOnPath(parent: seq<nat>, i: nat, x: nat) returns (c: nat)
    requires ParentsFirst(parent) && x < |parent| && IsAncestor(parent, i, x)
    ensures 0 < c <= x && parent[c] == i && (c == x || IsAncestor(parent, c, x))
    decreases x
  {
    if parent[x] == i {
      c := x;
    } else {
      c := ChildOnPath(parent, i, parent[x]);
    }
  }

  /** Two different siblings cannot both lie on the path from the root to `x`. */
  lemma {:induction false} SiblingsApart(parent: seq<nat>, a: nat, b: nat, x: nat)
    requires ParentsFirst(parent) && 0 < a < |parent| && 0 < b < |parent| && x < |parent|
    requires parent[a] == parent[b] && a != b
    requires a == x || IsAncestor(parent, a, x)
    ensures b != x && !IsAncestor(parent, b, x)
    decreases x
  {
    if a == x {
      SiblingNotAncestor(parent, b, a);
    } else {
      SiblingNotAncestor(parent, a, b);
      SiblingsApart(parent, a, b, parent[x]);
    }
  }

  lemma SiblingNotAncestor(parent: seq<nat>, b: nat, a: nat)
    requires ParentsFirst(parent) && 0 < a < |parent| && 0 < b < |parent| && parent[a] == parent[b]
    ensures !IsAncestor(parent, b, a)
  {
    if IsAncestor(parent, b, a) {
      if parent[a] != b {
        AncestorSmaller(parent, b, parent[a]);
      }
    }
  }

  lemma {:induction false} DescendantsSound(n: nat, parent: seq<nat>, children: seq<seq<nat>>, i: nat)
    requires ChildLists(n, parent, children) && Ordered(children) && i < n
    ensures forall x :: x in Descendants(children, i) ==> x < n && IsAncestor(parent, i, x)
    decreases n - i, 1
  {
    DescendantsOfSound(n, parent, children, children[i], i);
  }

  lemma {:induction false} DescendantsOfSound(n: nat, parent: seq<nat>, children: seq<seq<nat>>, cs: seq<nat>, p: nat)
    requires ChildLists(n, parent, children) && Ordered(children) && Below(children, cs, p)
    requires forall k :: 0 <= k < |cs| ==> parent[cs[k]] == p
    ensures forall x :: x in DescendantsOf(children, cs, p) ==>
      x < n && IsAncestor(parent, p, x) &&
      exists k :: 0 <= k < |cs| && (cs[k] == x || IsAncestor(parent, cs[k], x))
    decreases n - p, 0, |cs|
  {
    if |cs| > 0 {
      var c, pre := cs[|cs| - 1], cs[..|cs| - 1];
      DescendantsOfSound(n, parent, children, pre, p);
      DescendantsSound(n, parent, children, c);
      forall x | x in DescendantsOf(children, cs, p)
        ensures x < n && IsAncestor(parent, p, x) &&
          exists k :: 0 <= k < |cs| && (cs[k] == x || IsAncestor(parent, cs[k], x))
      {
        if x in DescendantsOf(children, pre, p) {
          var k :| 0 <= k < |pre| && (pre[k] == x || IsAncestor(parent, pre[k], x));
          assert cs[k] == pre[k];
        } else if x == c {
          assert cs[|cs| - 1] == x;
        } else {
          assert x in Descendants(children, c);
          AncestorTrans(parent, c, x);
          assert cs[|cs| - 1] == c;
        }
      }
    }
  }

  lemma {:induction false} DescendantsComplete(n: nat, parent: seq<nat>, children: seq<seq<nat>>, i: nat, x: nat)
    requires ChildLists(n, parent, children) && Ordered(children) && i < n && x < n
    requires IsAncestor(parent, i, x)
    ensures x in Descendants(children, i)
    decreases n - i
  {
    var c := ChildOnPath(parent, i, x);
    assert c in children[i];
    var k :| 0 <= k < |children[i]| && children[i][k] == c;
    if c != x {
      DescendantsComplete(n, parent, children, c, x);
    }
    InDescendantsOf(children, children[i], i, k, x);
  }

  /** Whatever lies under the `k`-th child also lies under the whole list. */
  lemma {:induction false} InDescendantsOf(children: seq<seq<nat>>, cs: seq<nat>, p: nat, k: nat, x: nat)
    requires Ordered(children) && Below(children, cs, p) && k < |cs|
    requires x == cs[k] || x in Descendants(children, cs[k])
    ensures x in DescendantsOf(children, cs, p)
    decreases |cs|
  {
    if k < |cs| - 1 {
      var pre := cs[..|cs| - 1];
      assert pre[k] == cs[k];
      InDescendantsOf(children, pre, p, k, x);
    }
  }

  lemma DistinctConcat(a: seq<nat>, b: seq<nat>)
    requires DistinctNats(a) && DistinctNats(b)
    requires forall x :: x in a ==> x !in b
    ensures DistinctNats(a + b)
  {
    forall i, j | 0 <= i < j < |a + b| ensures (a + b)[i] != (a + b)[j] {
      if i < |a| && j >= |a| {
        assert (a + b)[i] in a && (a + b)[j] == b[j - |a|];
      }
    }
  }

  lemma {:induction false} DescendantsDistinct(n: nat, parent: seq<nat>, children: seq<seq<nat>>, i: nat)
    requires ChildLists(n, parent, children) && Ordered(children) && i < n
    ensures DistinctNats(Descendants(children, i))
    decreases n - i, 1
  {
    DescendantsOfDistinct(n, parent, children, children[i], i);
  }

  lemma {:induction false} DescendantsOfDistinct(n: nat, parent: seq<nat>, children: seq<seq<nat>>, cs: seq<nat>, p: nat)
    requires ChildLists(n, parent, children) && Ordered(children) && Below(children, cs, p)
    requires DistinctNats(cs) && forall k :: 0 <= k < |cs| ==> parent[cs[k]] == p
    ensures DistinctNats(DescendantsOf(children, cs, p))
    decreases n - p, 0, |cs|
  {
    if |cs| > 0 {
      var c, pre := cs[|cs| - 1], cs[..|cs| - 1];
      DescendantsOfDistinct(n, parent, children, pre, p);
      SubtreeDistinct(n, parent, children, c);
      var tail := [c] + Descendants(children, c);
      assert cs == pre + [c];
      EarlierSiblingsApart(n, parent, children, cs, p, pre, c);
      DistinctConcat(DescendantsOf(children, pre, p), tail);
      assert DescendantsOf(children, cs, p) == DescendantsOf(children, pre, p) + tail;
    }
  }

  /** A node followed by its descendants lists no node twice. */
  lemma {:induction false} SubtreeDistinct(n: nat, parent: seq<nat>, children: seq<seq<nat>>, c: nat)
    requires ChildLists(n, parent, children) && Ordered(children) && c < n
    ensures DistinctNats([c] + Descendants(children, c))
    decreases n - c, 2
  {
    DescendantsDistinct(n, parent, children, c);
    DescendantsSound(n, parent, children, c);
    forall x | x in Descendants(children, c) ensures x != c {
      AncestorSmaller(parent, c, x);
    }
    DistinctConcat([c], Descendants(children, c));
  }

  /** The subtrees of the earlier siblings do not meet the subtree of the last one. */
  lemma EarlierSiblingsApart(n: nat, parent: seq<nat>, children: seq<seq<nat>>, cs: seq<nat>, p: nat,
                              pre: seq<nat>, c: nat)
    requires ChildLists(n, parent, children) && Ordered(children) && Below(children, cs, p)
    requires cs == pre + [c] && c < n && Below(children, pre, p)
    requires DistinctNats(cs) && forall k :: 0 <= k < |cs| ==> parent[cs[k]] == p
    ensures forall x :: x in DescendantsOf(children, pre, p) ==> x !in [c] + Descendants(children, c)
  {
    assert forall k :: 0 <= k < |pre| ==> parent[pre[k]] == p by {
      assert forall k :: 0 <= k < |pre| ==> pre[k] == cs[k];
    }
    DescendantsSound(n, parent, children, c);
    DescendantsOfSound(n, parent, children, pre, p);
    forall x | x in DescendantsOf(children, pre, p) ensures x !in [c] + Descendants(children, c) {
      var k :| 0 <= k < |pre| && (pre[k] == x || IsAncestor(parent, pre[k], x));
      assert cs[k] == pre[k] && cs[|cs| - 1] == c && k < |cs| - 1;
      SiblingsApart(parent, pre[k], c, x);
    }
  }

  /**
   * `get_all_descendants` of the root holds every node except the root,
   * each exactly once.
   */
  lemma AllDescendantsExactlyOnce(n: nat, parent: seq<nat>, children: seq<seq<nat>>)
    requires ChildLists(n, parent, children) && Ordered(children) && n >= 1
    ensures forall x: nat :: x in Descendants(children, 0) <==> 0 < x < n
    ensures DistinctNats(Descendants(children, 0))
  {
    DescendantsSound(n, parent, children, 0);
    forall x: nat | 0 < x < n ensures x in Descendants(children, 0) {
      RootIsAncestor(parent, x);
      DescendantsComplete(n, parent, children, 0, x);
    }
    DescendantsDistinct(n, parent, children, 0);
  }

  /**
   * `_get_descendants_at_levels` of node `i` at `current_level` `d`: for
   * each child in order, the child when `d` is one of `levels`, followed
   * by the walk below it one level deeper.
   */
  function LevelWalk(children: seq<seq<nat>>, i: nat, d: int, levels: seq<int>): (r: seq<nat>)
    requires Ordered(children) && i < |children|
    ensures forall k :: 0 <= k < |r| ==> r[k] < |children|
    decreases |children| - i, 1
  {
    LevelWalkOf(children, children[i], i, d, levels)
  }

  function LevelWalkOf(children: seq<seq<nat>>, cs: seq<nat>, p: nat, d: int, levels: seq<int>): (r: seq<nat>)
    requires Ordered(children) && Below(children, cs, p)
    ensures forall k :: 0 <= k < |r| ==> r[k] < |children|
    decreases |children| - p, 0, |cs|
  {
    if |cs| == 0 then []
    else
      var c := cs[|cs| - 1];
      LevelWalkOf(children, cs[..|cs| - 1], p, d, levels) + (if d in levels then [c] else []) +
      LevelWalk(children, c, d + 1, levels)
  }

  lemma LevelWalkOfStep(children: seq<seq<nat>>, cs: seq<nat>, p: nat, k: nat, d: int, levels: seq<int>)
    requires Ordered(children) && Below(children, cs, p) && k < |cs|
    ensures LevelWalkOf(children, cs[..k + 1], p, d, levels) ==
      LevelWalkOf(children, cs[..k], p, d, levels) + (if d in levels then [cs[k]] else []) +
      LevelWalk(children, cs[k], d + 1, levels)
  {
    assert cs[..k + 1][..k] == cs[..k];
  }

  lemma ConcatAssoc<T>(a: seq<T>, b: seq<T>, c: seq<T>, d: seq<T>)
    ensures a + b + c + d == a + (b + c + d)
  {
  }

  /** The nodes of `xs` whose depth is one of `levels`, in order. */
  function AtLevels(parent: seq<nat>, xs: seq<nat>, levels: seq<int>): seq<nat>
    requires ParentsFirst(parent)
  {
    if |xs| == 0 then []
    else
      var x := xs[|xs| - 1];
      AtLevels(parent, xs[..|xs| - 1], levels) + (if x < |parent| && Depth(parent, x) in levels then [x] else [])
  }

  lemma {:induction false} AtLevelsMembers(parent: seq<nat>, xs: seq<nat>, levels: seq<int>)
    requires ParentsFirst(parent)
    ensures forall x :: x in AtLevels(parent, xs, levels) <==> x in xs && x < |parent| && Depth(parent, x) in levels
    decreases |xs|
  {
    if |xs| > 0 {
      AtLevelsMembers(parent, xs[..|xs| - 1], levels);
      assert xs == xs[..|xs| - 1] + [xs[|xs| - 1]];
    }
  }

  lemma {:induction false} AtLevelsAppend(parent: seq<nat>, xs: seq<nat>, ys: seq<nat>, levels: seq<int>)
    requires ParentsFirst(parent)
    ensures AtLevels(parent, xs + ys, levels) == AtLevels(parent, xs, levels) + AtLevels(parent, ys, levels)
    decreases |ys|
  {
    if |ys| > 0 {
      assert (xs + ys)[..|xs + ys| - 1] == xs + ys[..|ys| - 1];
      AtLevelsAppend(parent, xs, ys[..|ys| - 1], levels);
    } else {
      assert xs + ys == xs;
    }
  }

  lemma {:induction false} AtLevelsDistinct(parent: seq<nat>, xs: seq<nat>, levels: seq<int>)
    requires ParentsFirst(parent) && DistinctNats(xs)
    ensures DistinctNats(AtLevels(parent, xs, levels))
    decreases |xs|
  {
    if |xs| > 0 {
      var pre, x := xs[..|xs| - 1], xs[|xs| - 1];
      AtLevelsDistinct(parent, pre, levels);
      AtLevelsMembers(parent, pre, levels);
      forall y | y in AtLevels(parent, pre, levels) ensures y !in [x] {
        var j :| 0 <= j < |pre| && pre[j] == y;
        assert xs[j] == y;
      }
      DistinctConcat(AtLevels(parent, pre, levels), if x < |parent| && Depth(parent, x) in levels then [x] else []);
    }
  }

  /**
   * The level walk started at depth `Depth(i) + 1` is the pre-order walk
   * restricted to the requested depths.
   */
  lemma {:induction false} LevelWalkIsAtLevels(n: nat, parent: seq<nat>, children: seq<seq<nat>>, i: nat, levels: seq<int>)
    requires ChildLists(n, parent, children) && Ordered(children) && i < n
    ensures LevelWalk(children, i, Depth(parent, i) + 1, levels) == AtLevels(parent, Descendants(children, i), levels)
    decreases n - i, 1
  {
    LevelWalkOfIsAtLevels(n, parent, children, children[i], i, levels);
  }

  lemma {:induction false} LevelWalkOfIsAtLevels(n: nat, parent: seq<nat>, children: seq<seq<nat>>, cs: seq<nat>, p: nat, levels: seq<int>)
    requires ChildLists(n, parent, children) && Ordered(children) && Below(children, cs, p)
    requires forall k :: 0 <= k < |cs| ==> parent[cs[k]] == p
    ensures LevelWalkOf(children, cs, p, Depth(parent, p) + 1, levels) == AtLevels(parent, DescendantsOf(children, cs, p), levels)
    decreases n - p, 0, |cs|
  {
    if |cs| > 0 {
      var c, pre := cs[|cs| - 1], cs[..|cs| - 1];
      LevelWalkOfIsAtLevels(n, parent, children, pre, p, levels);
      LevelWalkIsAtLevels(n, parent, children, c, levels);
      assert Depth(parent, c) == Depth(parent, p) + 1;
      AtLevelsAppend(parent, DescendantsOf(children, pre, p) + [c], Descendants(children, c), levels);
      AtLevelsAppend(parent, DescendantsOf(children, pre, p), [c], levels);
      assert AtLevels(parent, [c], levels) == (if Depth(parent, c) in levels then [c] else []) by {
        assert [c][..0] == [];
      }
    }
  }

  /**
   * `get_descendants_at_levels` from the root selects exactly the nodes
   * whose depth is requested, each once (root children are at depth 1).
   */
  lemma AtLevelsExactlyOnce(n: nat, parent: seq<nat>, children: seq<seq<nat>>, levels: seq<int>)
    requires ChildLists(n, parent, children) && Ordered(children) && n >= 1
    ensures forall x: nat :: x in LevelWalk(children, 0, 1, levels) <==> 0 < x < n && Depth(parent, x) in levels
    ensures DistinctNats(LevelWalk(children, 0, 1, levels))
  {
    LevelWalkIsAtLevels(n, parent, children, 0, levels);
    AllDescendantsExactlyOnce(n, parent, children);
    AtLevelsMembers(parent, Descendants(children, 0), levels);
    AtLevelsDistinct(parent, Descendants(children, 0), levels);
  }

  // ---------------------------------------------------------------------
  // A node's value bounds the values of its children

  /** The number of hierarchies that continue `p` with each name of `ns`, summed. */
  function SumExtensions(hs: seq<seq<string>>, p: seq<string>, ns: seq<string>): nat {
    if |ns| == 0 then 0
    else SumExtensions(hs, p, ns[..|ns| - 1]) + CountPrefix(hs, p + [ns[|ns| - 1]])
  }

  /** How many names of `ns` extend `p` along `h`. */
  function Hits(h: seq<string>, p: seq<string>, ns: seq<string>): nat {
    if |ns| == 0 then 0
    else Hits(h, p, ns[..|ns| - 1]) + (if IsPrefix(p + [ns[|ns| - 1]], h) then 1 else 0)
  }

  predicate DistinctNames(ns: seq<string>) {
    forall i, j :: 0 <= i < j < |ns| ==> ns[i] != ns[j]
  }

  lemma {:induction false} NoHits(h: seq<string>, p: seq<string>, ns: seq<string>)
    requires forall k :: 0 <= k < |ns| ==> !IsPrefix(p + [ns[k]], h)
    ensures Hits(h, p, ns) == 0
    decreases |ns|
  {
    if |ns| > 0 {
      NoHits(h, p, ns[..|ns| - 1]);
    }
  }

  /** With distinct names, a hierarchy continues `p` along at most one of them, and only if it starts with `p`. */
  lemma {:induction false} HitsAtMostOne(h: seq<string>, p: seq<string>, ns: seq<string>)
    requires DistinctNames(ns)
    ensures Hits(h, p, ns) <= (if IsPrefix(p, h) then 1 else 0)
    decreases |ns|
  {
    if |ns| > 0 {
      var pre, m := ns[..|ns| - 1], ns[|ns| - 1];
      if IsPrefix(p + [m], h) {
        assert h[..|p|] == (p + [m])[..|p|];
        forall k | 0 <= k < |pre| ensures !IsPrefix(p + [pre[k]], h) {
          assert ns[k] != m;
          assert (p + [pre[k]])[|p|] == pre[k];
        }
        NoHits(h, p, pre);
      } else {
        HitsAtMostOne(h, p, pre);
      }
    }
  }

  lemma {:induction false} SumExtensionsAppend(hs: seq<seq<string>>, h: seq<string>, p: seq<string>, ns: seq<string>)
    ensures SumExtensions(hs + [h], p, ns) == SumExtensions(hs, p, ns) + Hits(h, p, ns)
    decreases |ns|
  {
    if |ns| > 0 {
      SumExtensionsAppend(hs, h, p, ns[..|ns| - 1]);
      CountPrefixAppend(hs, h, p + [ns[|ns| - 1]]);
    }
  }

  /** Each hierarchy counted below `p` under distinct names is also counted at `p`. */
  lemma {:induction false} ExtensionsBounded(hs: seq<seq<string>>, p: seq<string>, ns: seq<string>)
    requires DistinctNames(ns)
    ensures SumExtensions(hs, p, ns) <= CountPrefix(hs, p)
    decreases |hs|
  {
    if |hs| == 0 {
      ZeroExtensions(p, ns);
    } else {
      var pre, h := hs[..|hs| - 1], hs[|hs| - 1];
      assert hs == pre + [h];
      ExtensionsBounded(pre, p, ns);
      SumExtensionsAppend(pre, h, p, ns);
      HitsAtMostOne(h, p, ns);
      CountPrefixAppend(pre, h, p);
    }
  }

  lemma {:induction false} ZeroExtensions(p: seq<string>, ns: seq<string>)
    ensures SumExtensions([], p, ns) == 0
    decreases |ns|
  {
    if |ns| > 0 {
      ZeroExtensions(p, ns[..|ns| - 1]);
    }
  }

  /** The Python list handed to `Node.add`, which pops its elements. */
  class PyList {
    var items: seq<string>

    constructor (items: seq<string>)
      ensures this.items == items
    {
      this.items := items;
    }

    /** `list.pop()`: removes and returns the last element. */
    method Pop() returns (x: string)
      requires |items| > 0
      modifies this
      ensures x == old(items)[|old(items)| - 1]
      ensures items == old(items)[..|old(items)| - 1]
    {
      x := items[|items| - 1];
      items := items[..|items| - 1];
    }
  }

  class Counter {
    var names: seq<string>
    var values: seq<nat>
    var parent: seq<nat>
    var children: seq<seq<nat>>
    /** The path of names from the root to each node. */
    ghost var paths: seq<seq<string>>
    /** The node reached by each path. */
    ghost var index: map<seq<string>, nat>
    /** The hierarchies counted so far, in their original (unreversed) order. */
    ghost var added: seq<seq<string>>

    ghost predicate Shape()
      reads this
    {
      TrieShape(names, values, parent, children, paths, index)
    }

    /** The arena's sequences have one entry per node, and parents come first. */
    ghost predicate Sized()
      reads this
    {
      |values| == |names| && |parent| == |names| && |children| == |names| && ParentsFirst(parent)
    }

    /** What the walks need: children larger than their parents, each recording its parent. */
    ghost predicate Walkable()
      reads this
    {
      Sized() && Ordered(children) &&
      forall i, k :: 0 <= i < |children| && 0 <= k < |children[i]| ==> parent[children[i][k]] == i
    }

    lemma ShapeWalkable()
      requires Shape()
      ensures Walkable()
    {
      ChildListsOrdered(|names|, parent, children);
    }

    ghost predicate Valid()
      reads this
    {
      Shape() &&
      (forall i :: 0 <= i < |names| ==> values[i] == CountPrefix(added, paths[i])) &&
      (forall h, k :: h in added && 0 <= k <= |h| ==> h[..k] in index)
    }

    /** The id of node `i`. */
    function Id(i: nat): NodeId {
      if i == 0 then RootId else Uuid(i)
    }

    /** `Node.to_dict()` of node `i`; only the root has no parent. */
    function ToDict(i: nat): (r: NodeRecord)
      reads this
      requires Sized() && i < |names|
      ensures r.name == names[i] && r.value == values[i] && r.id == Id(i)
      ensures i == 0 <==> r.parent.None?
      ensures i > 0 ==> r.parent == Some(Id(parent[i]))
    {
      NodeRecord(Id(i), if i == 0 then None else Some(Id(parent[i])), names[i], values[i])
    }

    /** The child of `i` named `name`, if any (`name in self.children`). */
    function FindChild(i: nat, name: string): (r: Option<nat>)
      reads this
      requires Shape() && i < |names|
      ensures r.Some? ==> r.value in children[i] && names[r.value] == name
      ensures r.None? ==> forall c :: c in children[i] ==> names[c] != name
    {
      FindIn(children[i], name)
    }

    function FindIn(cs: seq<nat>, name: string): (r: Option<nat>)
      reads this
      requires forall k :: 0 <= k < |cs| ==> cs[k] < |names|
      ensures r.Some? ==> r.value in cs && names[r.value] == name
      ensures r.None? ==> forall c :: c in cs ==> names[c] != name
    {
      if |cs| == 0 then None
      else if names[cs[0]] == name then Some(cs[0])
      else FindIn(cs[1..], name)
    }

    /** `child.copy()` with `parent_id` set to `""`: a root-level copy of node `i`. */
    function TopCopy(i: nat): (r: NodeRecord)
      reads this
      requires Sized() && i < |names|
      ensures r == ToDict(i).(parent := Some(RootId))
    {
      NodeRecord(Id(i), Some(RootId), names[i], values[i])
    }

    /** The record the level walk appends for node `x`: a copy at depth `top`, the node itself elsewhere. */
    function LevelRecord(x: nat, top: int): (r: NodeRecord)
      reads this
      requires Sized() && x < |names|
      ensures Depth(parent, x) == top ==> r == TopCopy(x)
      ensures Depth(parent, x) != top ==> r == ToDict(x)
    {
      if Depth(parent, x) == top then TopCopy(x) else ToDict(x)
    }

    function LevelRecords(xs: seq<nat>, top: int): (r: seq<NodeRecord>)
      reads this
      requires Sized() && forall k :: 0 <= k < |xs| ==> xs[k] < |names|
      ensures |r| == |xs| && forall k :: 0 <= k < |xs| ==> r[k] == LevelRecord(xs[k], top)
    {
      if |xs| == 0 then [] else LevelRecords(xs[..|xs| - 1], top) + [LevelRecord(xs[|xs| - 1], top)]
    }

    lemma LevelRecordsAppend(xs: seq<nat>, ys: seq<nat>, top: int)
      requires Sized()
      requires forall k :: 0 <= k < |xs| ==> xs[k] < |names|
      requires forall k :: 0 <= k < |ys| ==> ys[k] < |names|
      ensures LevelRecords(xs + ys, top) == LevelRecords(xs, top) + LevelRecords(ys, top)
    {
      var l, a, b := LevelRecords(xs + ys, top), LevelRecords(xs, top), LevelRecords(ys, top);
      assert |l| == |a + b|;
      forall k | 0 <= k < |l| ensures l[k] == (a + b)[k] {
        if k >= |xs| {
          assert (xs + ys)[k] == ys[k - |xs|];
        }
      }
    }

    /** `tree.get_all_descendants()`: every node except the root, each once, in pre-order. */
    method GetAllDescendants() returns (r: seq<nat>)
      requires Shape()
      ensures r == Descendants(children, 0)
      ensures forall x: nat :: x in r <==> 0 < x < |names|
      ensures DistinctNats(r)
    {
      ShapeWalkable();
      r := CollectBelow(0, []);
      AllDescendantsExactlyOnce(|names|, parent, children);
    }

    /** `_get_all_descendants(result)` on node `i`: appends the walk below `i` to `acc`. */
    method CollectBelow(i: nat, acc: seq<nat>) returns (r: seq<nat>)
      requires Walkable() && i < |names|
      ensures r == acc + Descendants(children, i)
      decreases |names| - i
    {
      r := acc;
      var k := 0;
      while k < |children[i]|
        invariant 0 <= k <= |children[i]|
        invariant r == acc + DescendantsOf(children, children[i][..k], i)
      {
        var c := children[i][k];
        assert children[i][..k + 1][..k] == children[i][..k];
        r := r + [c];
        r := CollectBelow(c, r);
        k := k + 1;
      }
      assert children[i][..k] == children[i];
    }

    /** The levels `get_descendants_at_levels` accepts: all at least 1, none repeated. */
    predicate LevelsOk(levels: seq<int>) {
      (forall k :: 0 <= k < |levels| ==> levels[k] >= 1) &&
      (forall j, k :: 0 <= j < k < |levels| ==> levels[j] != levels[k])
    }

    /**
     * `tree.get_descendants_at_levels(levels)`: the nodes whose depth is
     * requested, in pre-order, those at the shallowest requested depth as
     * root-level copies.
     */
    method GetDescendantsAtLevels(levels: seq<int>) returns (r: Result<seq<NodeRecord>, LevelsError>)
      requires Shape()
      ensures r == Failure(AssertionError) <==> !LevelsOk(levels)
      ensures r == Failure(IndexError) <==> LevelsOk(levels) && |levels| == 0 && |children[0]| > 0
      ensures r.Success? && |levels| == 0 ==> r.value == []
      ensures r.Success? && |levels| > 0 ==>
        r.value == LevelRecords(LevelWalk(children, 0, 1, levels), Smallest(levels))
    {
      if !LevelsOk(levels) {
        return Failure(AssertionError);
      }
      if |levels| == 0 {
        if |children[0]| > 0 {
          return Failure(IndexError);
        }
        return Success([]);
      }
      var top := Smallest(levels);
      ShapeWalkable();
      var nodes := WalkLevels(0, levels, top, 1, []);
      assert nodes == WalkBelow(0, 1, levels, top);
      r := Success(nodes);
    }

    /** The records of the level walk below node `i`, whose children sit at depth `d`. */
    ghost function WalkBelow(i: nat, d: int, levels: seq<int>, top: int): seq<NodeRecord>
      reads this
      requires Walkable() && i < |names|
    {
      LevelRecords(LevelWalk(children, i, d, levels), top)
    }

    /** The records of the level walk through the first `k` children of node `i`. */
    ghost function WalkPrefix(i: nat, k: nat, d: int, levels: seq<int>, top: int): seq<NodeRecord>
      reads this
      requires Walkable() && i < |names| && k <= |children[i]|
    {
      LevelRecords(LevelWalkOf(children, children[i][..k], i, d, levels), top)
    }

    /** `_get_descendants_at_levels(levels, result, d)` on node `i`, which sits at depth `d - 1`. */
    method WalkLevels(i: nat, levels: seq<int>, top: int, d: int, acc: seq<NodeRecord>) returns (r: seq<NodeRecord>)
      requires Walkable() && i < |names|
      requires d == Depth(parent, i) + 1 && top in levels
      ensures r == acc + WalkBelow(i, d, levels, top)
      decreases |names| - i, 1
    {
      r := acc;
      var k := 0;
      while k < |children[i]|
        invariant 0 <= k <= |children[i]|
        invariant r == acc + WalkPrefix(i, k, d, levels, top)
      {
        r := WalkChild(i, k, levels, top, d, acc, r);
        k := k + 1;
      }
      assert children[i][..k] == children[i];
    }

    /** One pass of the loop in `_get_descendants_at_levels`: the `k`-th child of `i`. */
    method WalkChild(i: nat, k: nat, levels: seq<int>, top: int, d: int, ghost acc: seq<NodeRecord>, r0: seq<NodeRecord>)
      returns (r: seq<NodeRecord>)
      requires Walkable() && i < |names| && k < |children[i]|
      requires d == Depth(parent, i) + 1 && top in levels
      requires r0 == acc + WalkPrefix(i, k, d, levels, top)
      ensures r == acc + WalkPrefix(i, k + 1, d, levels, top)
      decreases |names| - i, 0
    {
      var c := children[i][k];
      WalkStep(i, k, d, levels, top);
      var here := Here(c, d, top, levels);
      r := WalkLevels(c, levels, top, d + 1, r0 + here);
      ConcatAssoc(acc, WalkPrefix(i, k, d, levels, top), here, WalkBelow(c, d + 1, levels, top));
    }

    /** The record the loop appends for child `c` at `current_level` `d`, if any. */
    method Here(c: nat, d: int, top: int, levels: seq<int>) returns (here: seq<NodeRecord>)
      requires Sized() && c < |names| && Depth(parent, c) == d && top in levels
      ensures here == if d in levels then [LevelRecord(c, top)] else []
    {
      here := [];
      if d == top {
        here := [TopCopy(c)];
      } else if d in levels {
        here := [ToDict(c)];
      }
    }

    /** One child of the level walk: its own record when its level is requested, then the walk below it. */
    lemma WalkStep(i: nat, k: nat, d: int, levels: seq<int>, top: int)
      requires Walkable() && i < |names| && k < |children[i]|
      requires d == Depth(parent, i) + 1
      ensures var c := children[i][k];
        c < |names| && Depth(parent, c) == d && c > i &&
        WalkPrefix(i, k + 1, d, levels, top) ==
        WalkPrefix(i, k, d, levels, top) + (if d in levels then [LevelRecord(c, top)] else []) +
        WalkBelow(c, d + 1, levels, top)
    {
      var c := children[i][k];
      ChildDepth(i, k);
      LevelWalkOfStep(children, children[i], i, k, d, levels);
      var before := LevelWalkOf(children, children[i][..k], i, d, levels);
      var here: seq<nat> := if d in levels then [c] else [];
      var after := LevelWalk(children, c, d + 1, levels);
      LevelRecordsAppend3(before, here, after, top);
      assert WalkPrefix(i, k + 1, d, levels, top) == LevelRecords(before + here + after, top);
      assert LevelRecords(here, top) == if d in levels then [LevelRecord(c, top)] else [];
    }

    /** A child sits one level below its parent. */
    lemma ChildDepth(i: nat, k: nat)
      requires Walkable() && i < |names| && k < |children[i]|
      ensures i < children[i][k] < |names| && Depth(parent, children[i][k]) == Depth(parent, i) + 1
    {
      assert parent[children[i][k]] == i;
    }

    lemma LevelRecordsAppend3(xs: seq<nat>, ys: seq<nat>, zs: seq<nat>, top: int)
      requires Sized()
      requires forall k :: 0 <= k < |xs| ==> xs[k] < |names|
      requires forall k :: 0 <= k < |ys| ==> ys[k] < |names|
      requires forall k :: 0 <= k < |zs| ==> zs[k] < |names|
      ensures LevelRecords(xs + ys + zs, top) == LevelRecords(xs, top) + LevelRecords(ys, top) + LevelRecords(zs, top)
    {
      LevelRecordsAppend(xs, ys, top);
      LevelRecordsAppend(xs + ys, zs, top);
    }

    /** After construction the root counts every hierarchy. */
    lemma RootCountsAll()
      requires Valid()
      ensures values[0] == |added|
    {
      CountEmptyPrefix(added);
    }

    /** The node reached by a path counts the hierarchies that start with that path; a path without a node starts none. */
    lemma ValueOfPath(p: seq<string>)
      requires Valid()
      ensures p in index ==> values[index[p]] == CountPrefix(added, p)
      ensures p !in index ==> CountPrefix(added, p) == 0
    {
      if p !in index {
        CountZeroWhenAbsent(added, p);
      }
    }

    /** No node has two children with the same name. */
    lemma ChildNamesUnique()
      requires Shape()
      ensures forall i, j, k :: 0 <= i < |names| && 0 <= j < k < |children[i]| ==>
        names[children[i][j]] != names[children[i][k]]
    {
      forall i, j, k | 0 <= i < |names| && 0 <= j < k < |children[i]|
        ensures names[children[i][j]] != names[children[i][k]]
      {
        var a, b := children[i][j], children[i][k];
        assert a != b;
        assert paths[a] == paths[i] + [names[a]] && paths[b] == paths[i] + [names[b]];
        assert index[paths[a]] == a && index[paths[b]] == b;
      }
    }

    /** The names of nodes `cs`. */
    function NamesOf(cs: seq<nat>): (r: seq<string>)
      reads this
      requires forall k :: 0 <= k < |cs| ==> cs[k] < |names|
      ensures |r| == |cs| && forall k :: 0 <= k < |cs| ==> r[k] == names[cs[k]]
    {
      if |cs| == 0 then [] else NamesOf(cs[..|cs| - 1]) + [names[cs[|cs| - 1]]]
    }

    /** The sum of the values of nodes `cs`. */
    function SumValues(cs: seq<nat>): nat
      reads this
      requires forall k :: 0 <= k < |cs| ==> cs[k] < |values|
    {
      if |cs| == 0 then 0 else SumValues(cs[..|cs| - 1]) + values[cs[|cs| - 1]]
    }

    /** A node's value is at least the sum of its children's values. */
    lemma ValueBoundsChildren(i: nat)
      requires Valid() && i < |names|
      ensures values[i] >= SumValues(children[i])
    {
      var cs := children[i];
      var ns := NamesOf(cs);
      ChildNamesUnique();
      assert DistinctNames(ns);
      SumValuesAsExtensions(i, cs);
      ExtensionsBounded(added, paths[i], ns);
    }

    lemma {:induction false} SumValuesAsExtensions(i: nat, cs: seq<nat>)
      requires Valid() && i < |names|
      requires forall k :: 0 <= k < |cs| ==> 0 < cs[k] < |names| && parent[cs[k]] == i
      ensures SumValues(cs) == SumExtensions(added, paths[i], NamesOf(cs))
      decreases |cs|
    {
      if |cs| > 0 {
        var pre, c := cs[..|cs| - 1], cs[|cs| - 1];
        SumValuesAsExtensions(i, pre);
        assert NamesOf(cs)[..|cs| - 1] == NamesOf(pre);
        assert paths[c] == paths[i] + [names[c]];
      }
    }

    /** `HierarchicalDataCounter(hierarchies)`: counts every hierarchy into a fresh trie. */
    constructor (hierarchies: seq<seq<string>>)
      ensures Valid()
      ensures added == hierarchies
    {
      names, values, parent, children := ["TOTAL"], [0], [0], [[]];
      paths, index, added := [[]], map[[] := 0], [];
      new;
      var j := 0;
      while j < |hierarchies|
        invariant 0 <= j <= |hierarchies|
        invariant Valid() && added == hierarchies[..j]
      {
        AddHierarchy(hierarchies[j]);
        assert hierarchies[..j + 1] == hierarchies[..j] + [hierarchies[j]];
        j := j + 1;
      }
    }

    /** One pass of the constructor's loop: `self.add(hierarchy[::-1])`. */
    method AddHierarchy(h: seq<string>)
      requires Valid()
      modifies this
      ensures Valid() && added == old(added) + [h]
    {
      var list := new PyList(Reverse(h));
      assert Reverse(list.items) == h;
      Add(list);
    }

    /**
     * `tree.add(hierarchy)` for a list holding one hierarchy reversed: the
     * root and every node along the hierarchy gain one, missing nodes are
     * created, and the list ends up empty.
     */
    method Add(list: PyList)
      requires Valid()
      modifies this, list
      ensures Valid()
      ensures added == old(added) + [Reverse(old(list.items))]
      ensures list.items == []
    {
      ghost var h := Reverse(list.items);
      ghost var old0 := added;
      StartCounting(values, paths, old0, h);
      AddAt(0, list, h, 0, old0);
      added := old0 + [h];
      FinishCounting(values, paths, old0, h);
      forall g, k | g in added && 0 <= k <= |g| ensures g[..k] in index {
        if g !in old0 {
          assert g == h;
        }
      }
    }

    /**
     * `Node.add` on node `cur`, whose path is the first `d` names of `h`;
     * the list holds the rest of `h`, reversed.
     */
    method AddAt(cur: nat, list: PyList, ghost h: seq<string>, ghost d: nat, ghost old0: seq<seq<string>>)
      requires Shape() && cur < |paths| && d <= |h| && paths[cur] == h[..d]
      requires |list.items| == |h| - d
      requires forall j :: 0 <= j < |list.items| ==> list.items[j] == h[|h| - 1 - j]
      requires CountedAbove(values, paths, old0, h, d)
      requires forall g, k :: g in old0 && 0 <= k <= |g| ==> g[..k] in index
      requires forall k :: 0 <= k <= d ==> h[..k] in index
      modifies this, list
      ensures Shape() && CountedAbove(values, paths, old0, h, |h| + 1)
      ensures forall g, k :: g in old0 && 0 <= k <= |g| ==> g[..k] in index
      ensures forall k :: 0 <= k <= |h| ==> h[..k] in index
      ensures list.items == [] && added == old(added)
      decreases |list.items|
    {
      Bump(cur, h, d, old0);
      if |list.items| == 0 {
        return;
      }
      var name := list.Pop();
      var child := Child(cur, name, h, d, old0);
      AddAt(child, list, h, d + 1, old0);
    }

    /** `self.value += 1` on node `cur`, whose path is the first `d` names of `h`. */
    method Bump(cur: nat, ghost h: seq<string>, ghost d: nat, ghost old0: seq<seq<string>>)
      requires Shape() && cur < |paths| && d <= |h| && paths[cur] == h[..d]
      requires CountedAbove(values, paths, old0, h, d)
      modifies this
      ensures Shape() && CountedAbove(values, paths, old0, h, d + 1)
      ensures values == old(values)[cur := old(values)[cur] + 1]
      ensures names == old(names) && parent == old(parent) && children == old(children)
      ensures paths == old(paths) && index == old(index) && added == old(added)
    {
      assert index[paths[cur]] == cur;
      CountedStep(values, paths, old0, h, d, cur);
      values := values[cur := values[cur] + 1];
    }

    /**
     * `self.children[name]`, created as `Node(name, self.id)` when absent.
     */
    method Child(cur: nat, name: string, ghost h: seq<string>, ghost d: nat, ghost old0: seq<seq<string>>) returns (next: nat)
      requires Shape() && cur < |names| && d < |h| && h[d] == name
      requires paths[cur] == h[..d]
      requires CountedAbove(values, paths, old0, h, d + 1)
      requires forall g, k :: g in old0 && 0 <= k <= |g| ==> g[..k] in index
      requires forall k :: 0 <= k <= d ==> h[..k] in index
      modifies this
      ensures Shape() && next < |names| && paths[next] == h[..d + 1]
      ensures CountedAbove(values, paths, old0, h, d + 1)
      ensures forall g, k :: g in old0 && 0 <= k <= |g| ==> g[..k] in index
      ensures forall k :: 0 <= k <= d + 1 ==> h[..k] in index
      ensures added == old(added)
    {
      assert h[..d + 1] == h[..d] + [name];
      var found := FindChild(cur, name);
      if found.Some? {
        next := found.value;
        assert paths[next] == h[..d + 1];
      } else {
        NewPathAbsent(cur, name);
        CountZeroWhenAbsent(old0, h[..d + 1]);
        ghost var v0, p0, i0 := values, paths, index;
        next := NewChild(cur, name, h[..d + 1]);
        CountedNewNode(v0, p0, old0, h, d);
        assert forall g, k :: g in old0 && 0 <= k <= |g| ==> g[..k] in i0;
        assert forall k :: 0 <= k <= d ==> h[..k] in i0;
      }
      assert h[..d + 1] in index by {
        assert paths[next] in index;
      }
    }

    /** `Node(name, self.id)` stored as a new child of `cur`, with value 0. */
    method NewChild(cur: nat, name: string, ghost p: seq<string>) returns (next: nat)
      requires Shape() && cur < |names|
      requires p == paths[cur] + [name] && p !in index
      modifies this
      ensures Shape()
      ensures next == old(|names|)
      ensures names == old(names) + [name] && values == old(values) + [0]
      ensures paths == old(paths) + [p] && index == old(index)[p := next]
      ensures added == old(added)
    {
      next := |names|;
      NewChildLinks(names, parent, paths, cur, name);
      NewChildLists(|names|, parent, children, cur);
      NewChildIndex(paths, index, p);
      names := names + [name];
      values := values + [0];
      parent := parent + [cur];
      children := children[cur := children[cur] + [next]] + [[]];
      paths := paths + [p];
      index := index[p := next];
    }

    /** A path one longer than an existing path, with a new last name, has no node yet. */
    lemma NewPathAbsent(cur: nat, name: string)
      requires Shape() && cur < |names|
      requires forall c :: c in children[cur] ==> names[c] != name
      ensures paths[cur] + [name] !in index
    {
      var p := paths[cur] + [name];
      forall j | 0 <= j < |names| ensures paths[j] != p {
        if j > 0 {
          var q := paths[j];
          assert q[..|q| - 1] == paths[parent[j]] && q[|q| - 1] == names[j];
          if parent[j] == cur {
            assert j in children[cur];
          } else {
            assert index[paths[parent[j]]] != index[paths[cur]];
            if |q| == |p| {
              assert p[..|p| - 1] == paths[cur];
            }
          }
        }
      }
    }

    /** No hierarchy counted yet has a prefix without a node. */
    lemma {:induction false} CountZeroWhenAbsent(hs: seq<seq<string>>, p: seq<string>)
      requires forall g, k :: g in hs && 0 <= k <= |g| ==> g[..k] in index
      requires p !in index
      ensures CountPrefix(hs, p) == 0
      decreases |hs|
    {
      if |hs| > 0 {
        var g := hs[|hs| - 1];
        assert g in hs;
        if |p| <= |g| {
          assert g[..|p|] in index;
        }
        assert forall g' :: g' in hs[..|hs| - 1] ==> g' in hs;
        CountZeroWhenAbsent(hs[..|hs| - 1], p);
      }
    }
  }
}

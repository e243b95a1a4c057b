/**
 * Building the chapter forest from the flat chapter list the backend sends
 * (`buildTreeFromFlatData`). The nodes are shared objects: node `i` of the flat
 * list is identified by its index, its `children` array by `children[i]`.
 * A node goes under the LAST node carrying its parent id as key (that is the
 * one left in the key map), and becomes a root when its parent id is null,
 * empty or names no key.
 */
module TreeBuild {
  import opened Cells
  import opened ChapterTree

  /** A chapter as the flat list carries it, before its children are attached. */
  datatype FlatNode = FlatNode(key: string, num: string, caption: string, parentId: Option<string>)

  /** The index the key map holds for `k` after the first `n` nodes were entered: the last one with that key. */
  function LastWithKey(flat: seq<FlatNode>, n: nat, k: string): (r: Option<nat>)
    requires n <= |flat|
    ensures r.Some? ==> r.value < n && flat[r.value].key == k
  {
    if n == 0 then None
    else if flat[n - 1].key == k then Some(n - 1)
    else LastWithKey(flat, n - 1, k)
  }

  /** The key map keeps the last node with a key, and has no entry for a key no node carries. */
  lemma {:induction false} LastWithKeyMeaning(flat: seq<FlatNode>, n: nat, k: string)
    requires n <= |flat|
    ensures LastWithKey(flat, n, k).Some? ==> forall i :: LastWithKey(flat, n, k).value < i < n ==> flat[i].key != k
    ensures LastWithKey(flat, n, k).None? <==> forall i :: 0 <= i < n ==> flat[i].key != k
  {
    if n > 0 {
      LastWithKeyMeaning(flat, n - 1, k);
    }
  }

  /** The node that `flat[i]` is attached to, or `None` when it is a root. */
  function ParentOf(flat: seq<FlatNode>, i: nat): (r: Option<nat>)
    requires i < |flat|
    ensures r.Some? ==> r.value < |flat|
  {
    match flat[i].parentId
    case None => None
    case Some(p) => if p == "" then None else LastWithKey(flat, |flat|, p)
  }

  /** The roots among the first `n` nodes, in input order. */
  function RootsUpTo(flat: seq<FlatNode>, n: nat): (r: seq<nat>)
    requires n <= |flat|
    ensures forall i :: 0 <= i < |r| ==> r[i] < n
  {
    if n == 0 then []
    else RootsUpTo(flat, n - 1) + (if ParentOf(flat, n - 1).None? then [n - 1] else [])
  }

  /** The children of node `j` among the first `n` nodes, in input order. */
  function ChildrenUpTo(flat: seq<FlatNode>, n: nat, j: nat): (r: seq<nat>)
    requires n <= |flat|
    ensures forall i :: 0 <= i < |r| ==> r[i] < n
  {
    if n == 0 then []
    else ChildrenUpTo(flat, n - 1, j) + (if ParentOf(flat, n - 1) == Some(j) then [n - 1] else [])
  }

  function Roots(flat: seq<FlatNode>): seq<nat>
  {
    RootsUpTo(flat, |flat|)
  }

  function ChildrenOf(flat: seq<FlatNode>, j: nat): seq<nat>
  {
    ChildrenUpTo(flat, |flat|, j)
  }

  /** A strictly increasing list of indices: input order, each index once. */
  predicate Increasing(s: seq<nat>)
  {
    forall a, b :: 0 <= a < b < |s| ==> s[a] < s[b]
  }

  /** An index above every index of an increasing list extends it. */
  lemma {:induction false} IncreasingPush(s: seq<nat>, x: nat)
    requires Increasing(s) && forall a :: 0 <= a < |s| ==> s[a] < x
    ensures Increasing(s + [x])
  {
  }

  lemma {:induction false} RootsUpToMeaning(flat: seq<FlatNode>, n: nat)
    requires n <= |flat|
    ensures Increasing(RootsUpTo(flat, n))
    ensures forall i: nat :: i in RootsUpTo(flat, n) <==> i < n && ParentOf(flat, i).None?
  {
    if n > 0 {
      RootsUpToMeaning(flat, n - 1);
      var prev := RootsUpTo(flat, n - 1);
      if ParentOf(flat, n - 1).None? {
        IncreasingPush(prev, n - 1);
        assert RootsUpTo(flat, n) == prev + [n - 1];
      } else {
        assert RootsUpTo(flat, n) == prev + [] == prev;
      }
    }
  }

  lemma {:induction false} ChildrenUpToMeaning(flat: seq<FlatNode>, n: nat, j: nat)
    requires n <= |flat|
    ensures Increasing(ChildrenUpTo(flat, n, j))
    ensures forall i: nat :: i in ChildrenUpTo(flat, n, j) <==> i < n && ParentOf(flat, i) == Some(j)
  {
    if n > 0 {
      ChildrenUpToMeaning(flat, n - 1, j);
      var prev := ChildrenUpTo(flat, n - 1, j);
      if ParentOf(flat, n - 1) == Some(j) {
        IncreasingPush(prev, n - 1);
        assert ChildrenUpTo(flat, n, j) == prev + [n - 1];
      } else {
        assert ChildrenUpTo(flat, n, j) == prev + [] == prev;
      }
    }
  }

  /**
   * Every node is placed exactly once: as a root when it has no parent, in its
   * parent's children otherwise; both lists keep input order.
   */
  lemma {:induction false} BuildPlacement(flat: seq<FlatNode>, i: nat, j: nat)
    requires i < |flat|
    ensures Increasing(Roots(flat)) && Increasing(ChildrenOf(flat, j))
    ensures i in Roots(flat) <==> ParentOf(flat, i).None?
    ensures i in ChildrenOf(flat, j) <==> ParentOf(flat, i) == Some(j)
  {
    RootsUpToMeaning(flat, |flat|);
    ChildrenUpToMeaning(flat, |flat|, j);
  }

  /** A node that is not the last one with its key never receives children. */
  lemma {:induction false} ShadowedHasNoChildren(flat: seq<FlatNode>, j: nat, i: nat)
    requires j < i < |flat| && flat[i].key == flat[j].key
    ensures forall c: nat :: c !in ChildrenOf(flat, j)
  {
    ChildrenUpToMeaning(flat, |flat|, j);
    forall c: nat | c < |flat|
      ensures ParentOf(flat, c) != Some(j)
    {
      if flat[c].parentId.Some? && flat[c].parentId.value != "" {
        var k := flat[c].parentId.value;
        var r := LastWithKey(flat, |flat|, k);
        LastWithKeyMeaning(flat, |flat|, k);
        var ki := flat[i].key;
        assert r == Some(j) ==> ki != k;
      }
    }
  }

  /** A root's parent id is null, empty, or names no key of the list. */
  lemma {:induction false} RootMeaning(flat: seq<FlatNode>, i: nat)
    requires i < |flat|
    ensures i in Roots(flat) <==>
      (flat[i].parentId.None? || flat[i].parentId.value == ""
       || forall j :: 0 <= j < |flat| ==> flat[j].key != flat[i].parentId.value)
  {
    RootsUpToMeaning(flat, |flat|);
    if flat[i].parentId.Some? {
      LastWithKeyMeaning(flat, |flat|, flat[i].parentId.value);
    }
  }

  /** The key map holds, for each key, the last of the first `n` nodes carrying it. */
  ghost predicate MapsLast(flat: seq<FlatNode>, n: nat, nodeMap: map<string, nat>)
    requires n <= |flat|
  {
    forall k :: LastWithKey(flat, n, k) == if k in nodeMap then Some(nodeMap[k]) else None
  }

  /** The second pass's test on the key map decides the parent `ParentOf` names. */
  lemma {:induction false} ParentByMap(flat: seq<FlatNode>, nodeMap: map<string, nat>, i: nat)
    requires i < |flat| && MapsLast(flat, |flat|, nodeMap)
    ensures var pid := flat[i].parentId;
      ParentOf(flat, i) == if pid.Some? && pid.value != "" && pid.value in nodeMap then Some(nodeMap[pid.value]) else None
  {
    var pid := flat[i].parentId;
    if pid.Some? {
      assert LastWithKey(flat, |flat|, pid.value) == if pid.value in nodeMap then Some(nodeMap[pid.value]) else None;
    }
  }

  /** One step of the second pass keeps the roots and children lists equal to their specifications. */
  lemma {:induction false} PlaceStep(flat: seq<FlatNode>, i: nat, next: nat, kids: seq<seq<nat>>, roots: seq<nat>)
    requires next == i + 1 <= |flat| && |kids| == |flat|
    requires roots == RootsUpTo(flat, i)
    requires forall j :: 0 <= j < |flat| ==> kids[j] == ChildrenUpTo(flat, i, j)
    ensures ParentOf(flat, i).None? ==>
      roots + [i] == RootsUpTo(flat, next) && forall j :: 0 <= j < |flat| ==> ChildrenUpTo(flat, next, j) == kids[j]
    ensures ParentOf(flat, i).Some? ==>
      roots == RootsUpTo(flat, next)
      && forall j :: 0 <= j < |flat| ==>
        ChildrenUpTo(flat, next, j) == kids[j] + (if j == ParentOf(flat, i).value then [i] else [])
  {
  }

  /**
   * `buildTreeFromFlatData`: the first pass clears every node's children and
   * enters it in the key map, the second attaches each node to its parent or
   * to the roots. Two linear passes, whatever the parent ids.
   */
  method BuildTreeFromFlatData(flat: seq<FlatNode>) returns (roots: seq<nat>, children: seq<seq<nat>>)
    ensures roots == Roots(flat)
    ensures |children| == |flat|
    ensures forall j :: 0 <= j < |flat| ==> children[j] == ChildrenOf(flat, j)
  {
    var kids: seq<seq<nat>> := seq(|flat|, _ => []);
    var nodeMap: map<string, nat> := map[];
    var i := 0;
    while i < |flat|
      invariant 0 <= i <= |flat|
      invariant |kids| == |flat|
      invariant forall j :: 0 <= j < i ==> kids[j] == []
      invariant MapsLast(flat, i, nodeMap)
    {
      kids := kids[i := []];
      nodeMap := nodeMap[flat[i].key := i];
      i := i + 1;
    }
    roots := [];
    i := 0;
    while i < |flat|
      invariant 0 <= i <= |flat|
      invariant |kids| == |flat|
      invariant roots == RootsUpTo(flat, i)
      invariant forall j :: 0 <= j < |flat| ==> kids[j] == ChildrenUpTo(flat, i, j)
    {
      ParentByMap(flat, nodeMap, i);
      PlaceStep(flat, i, i + 1, kids, roots);
      var node := flat[i];
      if node.parentId.Some? && node.parentId.value != "" && node.parentId.value in nodeMap {
        var p := nodeMap[node.parentId.value];
        kids := kids[p := kids[p] + [i]];
      } else {
        roots := roots + [i];
      }
      i := i + 1;
    }
    children := kids;
  }

  // ---------------------------------------------------------------------------
  // The forest reachable from the roots
  // ---------------------------------------------------------------------------

  /**
   * The nested chapters below the nodes `idx`, following the children lists at
   * most `fuel` levels deep. The source follows the shared objects without a
   * bound; `Forest` below shows that `|flat|` levels always suffice.
   */
  function Unfold(flat: seq<FlatNode>, idx: seq<nat>, fuel: nat): seq<Node>
    requires forall k :: 0 <= k < |idx| ==> idx[k] < |flat|
    decreases fuel
  {
    if fuel == 0 then []
    else
      seq(|idx|, k requires 0 <= k < |idx| =>
        var f := flat[idx[k]];
        Node(f.key, f.num, f.caption, f.parentId, Unfold(flat, ChildrenOf(flat, idx[k]), fuel - 1)))
  }

  /** The forest `buildTreeFromFlatData` returns, as nested chapters. */
  function Forest(flat: seq<FlatNode>): seq<Node>
  {
    Unfold(flat, Roots(flat), |flat|)
  }

  /** The `k`-th ancestor of node `x`, following parent links. */
  function Up(flat: seq<FlatNode>, x: nat, k: nat): (r: Option<nat>)
    requires x < |flat|
    ensures r.Some? ==> r.value < |flat|
    decreases k
  {
    if k == 0 then Some(x)
    else match ParentOf(flat, x)
      case None => None
      case Some(p) => Up(flat, p, k - 1)
  }

  /** Node `x` hangs `d` levels below a root. */
  predicate AtDepth(flat: seq<FlatNode>, x: nat, d: nat)
    requires x < |flat|
  {
    Up(flat, x, d).Some? && ParentOf(flat, Up(flat, x, d).value).None?
  }

  lemma {:induction false} UpAdd(flat: seq<FlatNode>, x: nat, a: nat, k: nat)
    requires x < |flat|
    ensures Up(flat, x, a + k) == match Up(flat, x, a) case None => None case Some(y) => Up(flat, y, k)
    decreases a
  {
    if a > 0 && ParentOf(flat, x).Some? {
      UpAdd(flat, ParentOf(flat, x).value, a - 1, k);
    }
  }

  /** Above a root there is nothing. */
  lemma {:induction false} UpPastRoot(flat: seq<FlatNode>, r: nat, m: nat)
    requires r < |flat| && ParentOf(flat, r).None? && m > 0
    ensures Up(flat, r, m).None?
  {
  }

  lemma {:induction false} UpDefined(flat: seq<FlatNode>, x: nat, a: nat, d: nat)
    requires x < |flat| && a <= d && Up(flat, x, d).Some?
    ensures Up(flat, x, a).Some?
  {
    UpAdd(flat, x, a, d - a);
  }

  /** The ancestors of a node that hangs below a root are pairwise distinct. */
  lemma {:induction false} ChainDistinct(flat: seq<FlatNode>, x: nat, d: nat, a: nat, b: nat)
    requires x < |flat| && AtDepth(flat, x, d) && a < b <= d
    ensures Up(flat, x, a) != Up(flat, x, b)
  {
    UpDefined(flat, x, a, d);
    UpDefined(flat, x, b, d);
    var r := Up(flat, x, d).value;
    UpAdd(flat, x, a, d - a);
    UpAdd(flat, x, b, d - a);
    UpAdd(flat, x, d, b - a);
    UpPastRoot(flat, r, b - a);
  }

  predicate Distinct(s: seq<nat>)
  {
    forall i, j :: 0 <= i < j < |s| ==> s[i] != s[j]
  }

  /** `s` without the value `v`. */
  function Remove(s: seq<nat>, v: nat): (t: seq<nat>)
    ensures forall x :: x in t <==> x in s && x != v
    ensures Distinct(s) ==> Distinct(t) && |s| <= |t| + 1
    ensures v !in s ==> |t| == |s|
  {
    if s == [] then []
    else
      assert forall x :: x in s[1..] ==> x in s;
      assert Distinct(s) ==> s[0] !in s[1..] && Distinct(s[1..]);
      (if s[0] == v then [] else [s[0]]) + Remove(s[1..], v)
  }

  /** Pigeonhole: distinct values below `n` number at most `n`. */
  lemma {:induction false} DistinctBound(s: seq<nat>, n: nat)
    requires Distinct(s) && forall x :: x in s ==> x < n
    ensures |s| <= n
    decreases n
  {
    if s != [] {
      assert s[0] in s;
      var t := Remove(s, n - 1);
      DistinctBound(t, n - 1);
    }
  }

  /** A node that hangs below a root is fewer than `|flat|` levels deep. */
  lemma {:induction false} DepthBound(flat: seq<FlatNode>, x: nat, d: nat)
    requires x < |flat| && AtDepth(flat, x, d)
    ensures d < |flat|
  {
    forall a | 0 <= a <= d
      ensures Up(flat, x, a).Some?
    {
      UpDefined(flat, x, a, d);
    }
    var chain := seq(d + 1, a requires 0 <= a <= d => Up(flat, x, a).value);
    forall i, j | 0 <= i < j < |chain|
      ensures chain[i] != chain[j]
    {
      ChainDistinct(flat, x, d, i, j);
    }
    DistinctBound(chain, |flat|);
  }

  /** The children of a node at depth `d` are at depth `d + 1`. */
  lemma {:induction false} ChildDepth(flat: seq<FlatNode>, x: nat, d: nat, c: nat)
    requires x < |flat| && AtDepth(flat, x, d) && c in ChildrenOf(flat, x)
    ensures c < |flat| && AtDepth(flat, c, d + 1)
  {
    ChildrenUpToMeaning(flat, |flat|, x);
  }

  /** Unfolding nodes at depth `d` one level deeper than `|flat| - d` changes nothing. */
  lemma {:induction false} UnfoldStable(flat: seq<FlatNode>, idx: seq<nat>, f: nat, d: nat)
    requires forall k :: 0 <= k < |idx| ==> idx[k] < |flat| && AtDepth(flat, idx[k], d)
    requires d + f >= |flat|
    ensures Unfold(flat, idx, f) == Unfold(flat, idx, f + 1)
    decreases f
  {
    if f == 0 {
      if idx != [] {
        DepthBound(flat, idx[0], d);
        assert false;
      }
    } else {
      forall k | 0 <= k < |idx|
        ensures Unfold(flat, ChildrenOf(flat, idx[k]), f - 1) == Unfold(flat, ChildrenOf(flat, idx[k]), f)
      {
        var ch := ChildrenOf(flat, idx[k]);
        forall k' | 0 <= k' < |ch|
          ensures ch[k'] < |flat| && AtDepth(flat, ch[k'], d + 1)
        {
          ChildDepth(flat, idx[k], d, ch[k']);
        }
        UnfoldStable(flat, ch, f - 1, d + 1);
      }
    }
  }

  /**
   * Following the children lists from the roots always ends: every node reached
   * lies fewer than `|flat|` levels down, so no deeper unfolding adds anything.
   * Nodes whose parent links form a cycle are never reached.
   */
  lemma {:induction false} ForestComplete(flat: seq<FlatNode>, f: nat)
    requires f >= |flat|
    ensures Unfold(flat, Roots(flat), f) == Forest(flat)
    decreases f
  {
    if f > |flat| {
      ForestComplete(flat, f - 1);
      RootsUpToMeaning(flat, |flat|);
      UnfoldStable(flat, Roots(flat), f - 1, 0);
    }
  }

  /** The roots of the forest are the root nodes in input order, each with its children below it. */
  lemma {:induction false} ForestRoots(flat: seq<FlatNode>, k: nat)
    requires k < |Roots(flat)|
    ensures |Forest(flat)| == |Roots(flat)|
    ensures Forest(flat)[k].key == flat[Roots(flat)[k]].key
    ensures Forest(flat)[k].children == Unfold(flat, ChildrenOf(flat, Roots(flat)[k]), |flat| - 1)
  {
  }
}

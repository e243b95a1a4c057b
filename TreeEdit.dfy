/**
 * The pure edits the Metre page applies to its chapter tree (MetreArbo.tsx):
 * dotted renumbering of children, editing a node's number and caption,
 * deleting a node with its subtree, adding a child or a main chapter, and
 * looking up a node's heading.
 */
module TreeEdit {
  import opened Cells
  import opened ChapterTree

  // ---------------------------------------------------------------------------
  // Shapes and numberings
  // ---------------------------------------------------------------------------

  /** The number of the child at 0-based position `i` under `parentNum`. */
  function ChildNum(parentNum: string, i: nat): string
  {
    parentNum + "." + NatToString(i + 1)
  }

  /** The number a node at relative path `q` receives when its top ancestor is numbered `top`. */
  function DottedNum(top: string, q: seq<nat>): string
    requires |q| > 0
    decreases |q|
  {
    if |q| == 1 then ChildNum(top, q[0]) else DottedNum(ChildNum(top, q[0]), q[1..])
  }

  /** Every child is numbered `parentNum.<position+1>`, and so on down the subtree. */
  predicate NumberedUnder(parentNum: string, cs: seq<Node>)
    decreases cs
  {
    forall i :: 0 <= i < |cs| ==>
      cs[i].num == ChildNum(parentNum, i) && NumberedUnder(cs[i].num, cs[i].children)
  }

  /** Same keys, captions and parent ids at the same positions, at every depth; numbers may differ. */
  predicate SameShape(a: seq<Node>, b: seq<Node>)
    decreases a
  {
    |a| == |b|
    && forall i :: 0 <= i < |a| ==>
      a[i].key == b[i].key && a[i].caption == b[i].caption && a[i].parentId == b[i].parentId
      && SameShape(a[i].children, b[i].children)
  }

  /** Same keys and parent ids at the same positions, at every depth; numbers and captions may differ. */
  predicate SameKeys(a: seq<Node>, b: seq<Node>)
    decreases a
  {
    |a| == |b|
    && forall i :: 0 <= i < |a| ==>
      a[i].key == b[i].key && a[i].parentId == b[i].parentId && SameKeys(a[i].children, b[i].children)
  }

  lemma {:induction false} SameShapeRefl(a: seq<Node>)
    ensures SameShape(a, a)
    decreases a
  {
    forall i | 0 <= i < |a| ensures SameShape(a[i].children, a[i].children) {
      SameShapeRefl(a[i].children);
    }
  }

  lemma {:induction false} SameShapeKeys(a: seq<Node>, b: seq<Node>)
    requires SameShape(a, b)
    ensures SameKeys(a, b)
    decreases a
  {
    forall i | 0 <= i < |a| ensures SameKeys(a[i].children, b[i].children) {
      SameShapeKeys(a[i].children, b[i].children);
    }
  }

  /** Forests of the same shape have the same valid paths, and the nodes there agree on key and caption. */
  lemma {:induction false} SameShapeAt(a: seq<Node>, b: seq<Node>, q: seq<nat>)
    requires SameShape(a, b) && ValidPath(a, q)
    ensures ValidPath(b, q)
    ensures NodeAt(b, q).key == NodeAt(a, q).key && NodeAt(b, q).caption == NodeAt(a, q).caption
    ensures SameShape(NodeAt(a, q).children, NodeAt(b, q).children)
    decreases |q|
  {
    if |q| > 1 {
      SameShapeAt(a[q[0]].children, b[q[0]].children, q[1..]);
    }
  }

  lemma {:induction false} SameKeysAt(a: seq<Node>, b: seq<Node>, q: seq<nat>)
    requires SameKeys(a, b) && ValidPath(a, q)
    ensures ValidPath(b, q) && NodeAt(b, q).key == NodeAt(a, q).key
    decreases |q|
  {
    if |q| > 1 {
      SameKeysAt(a[q[0]].children, b[q[0]].children, q[1..]);
    }
  }

  /** In a forest numbered under `top`, the node at relative path `q` is numbered `DottedNum(top, q)`. */
  lemma {:induction false} NumberedAt(top: string, cs: seq<Node>, q: seq<nat>)
    requires NumberedUnder(top, cs) && ValidPath(cs, q)
    ensures NodeAt(cs, q).num == DottedNum(top, q)
    decreases |q|
  {
    if |q| > 1 {
      NumberedAt(cs[q[0]].num, cs[q[0]].children, q[1..]);
    }
  }

  // ---------------------------------------------------------------------------
  // updateChildNums
  // ---------------------------------------------------------------------------

  /** `updateChildNums(parentNum, children)`: renumber every child from its position, recursively. */
  function UpdateChildNums(parentNum: string, cs: seq<Node>): (r: seq<Node>)
    ensures SameShape(cs, r) && SameKeys(cs, r)
    ensures NumberedUnder(parentNum, r)
    decreases cs
  {
    seq(|cs|, i requires 0 <= i < |cs| =>
      cs[i].(num := ChildNum(parentNum, i), children := UpdateChildNums(ChildNum(parentNum, i), cs[i].children)))
  }

  /** Shape and numbering determine a forest: any two forests of the shape of `cs` numbered under `p` are equal. */
  lemma {:induction false} NumberingDetermines(p: string, cs: seq<Node>, r1: seq<Node>, r2: seq<Node>)
    requires SameShape(cs, r1) && SameShape(cs, r2)
    requires NumberedUnder(p, r1) && NumberedUnder(p, r2)
    ensures r1 == r2
    decreases cs
  {
    forall i | 0 <= i < |cs| ensures r1[i] == r2[i] {
      NumberingDetermines(r1[i].num, cs[i].children, r1[i].children, r2[i].children);
    }
  }

  /** Renumbering is the only forest of that shape with that numbering, so renumbering twice changes nothing. */
  lemma {:induction false} UpdateChildNumsIdempotent(p: string, cs: seq<Node>)
    ensures UpdateChildNums(p, UpdateChildNums(p, cs)) == UpdateChildNums(p, cs)
  {
    var r := UpdateChildNums(p, cs);
    SameShapeRefl(r);
    NumberingDetermines(p, r, r, UpdateChildNums(p, r));
  }

  /** A forest already numbered under `p` is left as it is. */
  lemma {:induction false} UpdateChildNumsNumbered(p: string, cs: seq<Node>)
    requires NumberedUnder(p, cs)
    ensures UpdateChildNums(p, cs) == cs
  {
    SameShapeRefl(cs);
    NumberingDetermines(p, cs, cs, UpdateChildNums(p, cs));
  }

  /** The node at relative path `q` keeps its key and caption and is numbered `DottedNum(p, q)`. */
  lemma {:induction false} UpdateChildNumsAt(p: string, cs: seq<Node>, q: seq<nat>)
    requires ValidPath(cs, q)
    ensures ValidPath(UpdateChildNums(p, cs), q)
    ensures NodeAt(UpdateChildNums(p, cs), q).key == NodeAt(cs, q).key
    ensures NodeAt(UpdateChildNums(p, cs), q).caption == NodeAt(cs, q).caption
    ensures NodeAt(UpdateChildNums(p, cs), q).num == DottedNum(p, q)
  {
    SameShapeAt(cs, UpdateChildNums(p, cs), q);
    NumberedAt(p, UpdateChildNums(p, cs), q);
  }

  // ---------------------------------------------------------------------------
  // Keys along a path
  // ---------------------------------------------------------------------------

  /** A node and every key below it occur in the forest. */
  lemma {:induction false} KeysOfChild(ns: seq<Node>, i: nat)
    requires i < |ns|
    ensures ns[i].key in Keys(ns)
    ensures Keys(ns[i].children) <= Keys(ns)
  {
    FlattenSplit(ns, i);
  }

  lemma {:induction false} PrefixPath(ns: seq<Node>, p: seq<nat>, k: nat)
    requires ValidPath(ns, p) && 1 <= k <= |p|
    ensures ValidPath(ns, p[..k])
    decreases |p|
  {
    if k > 1 {
      PrefixPath(ns[p[0]].children, p[1..], k - 1);
      assert p[..k][1..] == p[1..][..k - 1];
    }
  }

  /**
   * The depth (1-based) of the first node on the way down to `p`, `p`'s own node
   * included, that carries `key`; `None` when no node on the way does.
   */
  function MatchDepth(ns: seq<Node>, p: seq<nat>, key: string): (r: Option<nat>)
    requires ValidPath(ns, p)
    ensures r.Some? ==> 1 <= r.value <= |p|
    decreases |p|
  {
    if ns[p[0]].key == key then Some(1)
    else if |p| == 1 then None
    else match MatchDepth(ns[p[0]].children, p[1..], key)
      case None => None
      case Some(d) => Some(d + 1)
  }

  /** `MatchDepth` finds the shallowest ancestor-or-self of the node at `p` that carries `key`. */
  lemma {:induction false} MatchDepthMeaning(ns: seq<Node>, p: seq<nat>, key: string, k: nat)
    requires ValidPath(ns, p) && 1 <= k <= |p|
    ensures ValidPath(ns, p[..k])
    ensures MatchDepth(ns, p, key).None? ==> NodeAt(ns, p[..k]).key != key
    ensures MatchDepth(ns, p, key) == Some(k) ==> NodeAt(ns, p[..k]).key == key
    ensures MatchDepth(ns, p, key).Some? && k < MatchDepth(ns, p, key).value ==> NodeAt(ns, p[..k]).key != key
    decreases |p|
  {
    PrefixPath(ns, p, k);
    if k > 1 {
      assert p[..k][1..] == p[1..][..k - 1];
      MatchDepthMeaning(ns[p[0]].children, p[1..], key, k - 1);
    }
  }

  // ---------------------------------------------------------------------------
  // updateNodeInfo
  // ---------------------------------------------------------------------------

  /**
   * `updateNodeInfo(key, newNum, newLabel, nodes)`: the node with `key` gets the
   * new number and caption and its children are renumbered from `newNum`; the
   * search does not continue below a matching node.
   */
  function UpdateNodeInfo(key: string, newNum: string, newCaption: string, ns: seq<Node>): (r: seq<Node>)
    ensures SameKeys(ns, r)
    decreases ns
  {
    seq(|ns|, i requires 0 <= i < |ns| =>
      if ns[i].key == key then
        ns[i].(num := newNum, caption := newCaption, children := UpdateChildNums(newNum, ns[i].children))
      else ns[i].(children := UpdateNodeInfo(key, newNum, newCaption, ns[i].children)))
  }

  /**
   * Node by node, along the path to it: a node with no match on its path keeps
   * its number and caption; the shallowest match on the path gets the new
   * number and caption; below it, every node keeps its caption and is
   * renumbered from `newNum` by its relative position.
   */
  lemma {:induction false} UpdateNodeInfoAt(key: string, newNum: string, newCaption: string, ns: seq<Node>, p: seq<nat>)
    requires ValidPath(ns, p)
    ensures ValidPath(UpdateNodeInfo(key, newNum, newCaption, ns), p)
    ensures NodeAt(UpdateNodeInfo(key, newNum, newCaption, ns), p).key == NodeAt(ns, p).key
    ensures MatchDepth(ns, p, key).None? ==>
      NodeAt(UpdateNodeInfo(key, newNum, newCaption, ns), p).num == NodeAt(ns, p).num
      && NodeAt(UpdateNodeInfo(key, newNum, newCaption, ns), p).caption == NodeAt(ns, p).caption
    ensures MatchDepth(ns, p, key) == Some(|p|) ==>
      NodeAt(UpdateNodeInfo(key, newNum, newCaption, ns), p).num == newNum
      && NodeAt(UpdateNodeInfo(key, newNum, newCaption, ns), p).caption == newCaption
    ensures MatchDepth(ns, p, key).Some? && MatchDepth(ns, p, key).value < |p| ==>
      NodeAt(UpdateNodeInfo(key, newNum, newCaption, ns), p).num == DottedNum(newNum, p[MatchDepth(ns, p, key).value..])
      && NodeAt(UpdateNodeInfo(key, newNum, newCaption, ns), p).caption == NodeAt(ns, p).caption
    decreases |p|
  {
    var r := UpdateNodeInfo(key, newNum, newCaption, ns);
    var i := p[0];
    if |p| > 1 {
      if ns[i].key == key {
        UpdateChildNumsAt(newNum, ns[i].children, p[1..]);
      } else {
        UpdateNodeInfoAt(key, newNum, newCaption, ns[i].children, p[1..]);
        match MatchDepth(ns[i].children, p[1..], key)
        case None =>
        case Some(d) =>
          assert p[d + 1..] == p[1..][d..];
      }
    }
  }

  /** Editing a key that occurs nowhere leaves the tree unchanged. */
  lemma {:induction false} UpdateNodeInfoAbsent(key: string, newNum: string, newCaption: string, ns: seq<Node>)
    requires key !in Keys(ns)
    ensures UpdateNodeInfo(key, newNum, newCaption, ns) == ns
    decreases ns
  {
    var r := UpdateNodeInfo(key, newNum, newCaption, ns);
    forall i | 0 <= i < |ns| ensures r[i] == ns[i] {
      KeysOfChild(ns, i);
      UpdateNodeInfoAbsent(key, newNum, newCaption, ns[i].children);
    }
  }

  // ---------------------------------------------------------------------------
  // deleteNode
  // ---------------------------------------------------------------------------

  /** `nodes.filter(node => node.key !== key)`. */
  function Without(key: string, ns: seq<Node>): (r: seq<Node>)
    ensures forall n :: n in r ==> n in ns && n.key != key
    ensures |r| <= |ns|
  {
    if ns == [] then [] else (if ns[0].key == key then [] else [ns[0]]) + Without(key, ns[1..])
  }

  /** `deleteNode(key, nodes)`: drop the nodes with `key` at every depth, with their subtrees. */
  function DeleteNode(key: string, ns: seq<Node>): seq<Node>
    decreases ns
  {
    var kept := Without(key, ns);
    seq(|kept|, i requires 0 <= i < |kept| => kept[i].(children := DeleteNode(key, kept[i].children)))
  }

  /** The label fields of a node, which the edits carry along unchanged. */
  function Entry(n: Node): (string, string, string)
  {
    (n.key, n.num, n.caption)
  }

  function Entries(s: seq<Node>): seq<(string, string, string)>
  {
    seq(|s|, i requires 0 <= i < |s| => Entry(s[i]))
  }

  /** `a` is `b` with some elements left out, the rest in the same order. */
  predicate IsSubseq<T(==)>(a: seq<T>, b: seq<T>)
    decreases |b|
  {
    a == [] || (b != [] && ((a[0] == b[0] && IsSubseq(a[1..], b[1..])) || IsSubseq(a, b[1..])))
  }

  lemma {:induction false} SubseqConcat<T>(a1: seq<T>, b1: seq<T>, a2: seq<T>, b2: seq<T>)
    requires IsSubseq(a1, b1) && IsSubseq(a2, b2)
    ensures IsSubseq(a1 + a2, b1 + b2)
    decreases |b1|
  {
    if b1 == [] {
      assert a1 == [];
      assert a1 + a2 == a2 && b1 + b2 == b2;
    } else if a1 != [] && a1[0] == b1[0] && IsSubseq(a1[1..], b1[1..]) {
      SubseqConcat(a1[1..], b1[1..], a2, b2);
      assert (a1 + a2)[1..] == a1[1..] + a2 && (b1 + b2)[1..] == b1[1..] + b2;
    } else {
      if a1 == [] {
        SubseqOfSuffix(a2, b1, b2);
        assert a1 + a2 == a2;
      } else {
        SubseqConcat(a1, b1[1..], a2, b2);
        assert (b1 + b2)[1..] == b1[1..] + b2;
      }
    }
  }

  lemma {:induction false} SubseqOfSuffix<T>(a: seq<T>, b1: seq<T>, b2: seq<T>)
    requires IsSubseq(a, b2)
    ensures IsSubseq(a, b1 + b2)
    decreases |b1|
  {
    if b1 == [] {
      assert b1 + b2 == b2;
    } else {
      SubseqOfSuffix(a, b1[1..], b2);
      assert (b1 + b2)[1..] == b1[1..] + b2;
    }
  }

  lemma {:induction false} SubseqRefl<T>(a: seq<T>)
    ensures IsSubseq(a, a)
    decreases |a|
  {
    if a != [] {
      SubseqRefl(a[1..]);
    }
  }

  lemma {:induction false} EntriesConcat(a: seq<Node>, b: seq<Node>)
    ensures Entries(a + b) == Entries(a) + Entries(b)
  {
  }

  /** One step of `DeleteNode`: the first node goes, or stays with its own subtree cleaned. */
  lemma {:induction false} DeleteNodeCons(key: string, ns: seq<Node>)
    requires ns != []
    ensures DeleteNode(key, ns) ==
      (if ns[0].key == key then [] else [ns[0].(children := DeleteNode(key, ns[0].children))])
      + DeleteNode(key, ns[1..])
  {
    var tail := Without(key, ns[1..]);
    var rest := DeleteNode(key, ns[1..]);
    if ns[0].key == key {
      assert Without(key, ns) == [] + tail == tail;
    } else {
      assert Without(key, ns) == [ns[0]] + tail;
      var d := DeleteNode(key, ns);
      var hd := [ns[0].(children := DeleteNode(key, ns[0].children))];
      assert |d| == 1 + |rest|;
      forall i | 0 <= i < |d|
        ensures d[i] == (hd + rest)[i]
      {
        if i > 0 {
          assert ([ns[0]] + tail)[i] == tail[i - 1];
        }
      }
    }
  }

  lemma {:induction false} SubseqIn<T>(a: seq<T>, b: seq<T>, x: T)
    requires IsSubseq(a, b) && x in a
    ensures x in b
    decreases |b|
  {
    if a[0] == b[0] && IsSubseq(a[1..], b[1..]) {
      if x != a[0] {
        SubseqIn(a[1..], b[1..], x);
      }
    } else {
      SubseqIn(a, b[1..], x);
    }
  }

  /**
   * Deleting keeps the other nodes in their pre-order (a subsequence, by key,
   * number and caption) and leaves no node with the key anywhere.
   */
  lemma {:induction false} DeleteNodeOrder(key: string, ns: seq<Node>)
    ensures IsSubseq(Entries(Flatten(DeleteNode(key, ns))), Entries(Flatten(ns)))
    ensures forall n :: n in Flatten(DeleteNode(key, ns)) ==> n.key != key
    decreases ns
  {
    if ns == [] {
      assert DeleteNode(key, ns) == [];
    } else {
      var n0 := ns[0];
      DeleteNodeCons(key, ns);
      DeleteNodeOrder(key, ns[1..]);
      DeleteNodeOrder(key, n0.children);
      var head := if n0.key == key then [] else [n0.(children := DeleteNode(key, n0.children))];
      FlattenConcat(head, DeleteNode(key, ns[1..]));
      var restD := Flatten(DeleteNode(key, ns[1..]));
      var rest := Flatten(ns[1..]);
      var below := Flatten(n0.children);
      EntriesConcat([n0] + below, rest);
      EntriesConcat([n0], below);
      if n0.key == key {
        assert Flatten(head) == [];
        assert Flatten(DeleteNode(key, ns)) == restD;
        SubseqOfSuffix(Entries(restD), Entries([n0] + below), Entries(rest));
      } else {
        var belowD := Flatten(DeleteNode(key, n0.children));
        FlattenSingle(n0.(children := DeleteNode(key, n0.children)));
        assert Flatten(DeleteNode(key, ns)) == [n0.(children := DeleteNode(key, n0.children))] + belowD + restD;
        EntriesConcat([n0.(children := DeleteNode(key, n0.children))] + belowD, restD);
        EntriesConcat([n0.(children := DeleteNode(key, n0.children))], belowD);
        var e := Entries([n0]);
        assert Entries([n0.(children := DeleteNode(key, n0.children))]) == e;
        SubseqRefl(e);
        SubseqConcat(e, e, Entries(belowD), Entries(below));
        SubseqConcat(e + Entries(belowD), e + Entries(below), Entries(restD), Entries(rest));
      }
    }
  }

  /** Deleting removes the key from the tree and adds no key. */
  lemma {:induction false} DeleteNodeKeys(key: string, ns: seq<Node>)
    ensures key !in Keys(DeleteNode(key, ns))
    ensures Keys(DeleteNode(key, ns)) <= Keys(ns)
  {
    DeleteNodeOrder(key, ns);
    forall k | k in Keys(DeleteNode(key, ns)) ensures k in Keys(ns) && k != key {
      var n :| n in Flatten(DeleteNode(key, ns)) && n.key == k;
      var i :| 0 <= i < |Flatten(DeleteNode(key, ns))| && Flatten(DeleteNode(key, ns))[i] == n;
      assert Entries(Flatten(DeleteNode(key, ns)))[i] == Entry(n);
      SubseqIn(Entries(Flatten(DeleteNode(key, ns))), Entries(Flatten(ns)), Entry(n));
      var j :| 0 <= j < |Flatten(ns)| && Entries(Flatten(ns))[j] == Entry(n);
      assert Flatten(ns)[j] in Flatten(ns);
    }
  }

  /** Deleting a key that occurs nowhere leaves the tree unchanged. */
  lemma {:induction false} DeleteNodeAbsent(key: string, ns: seq<Node>)
    requires key !in Keys(ns)
    ensures DeleteNode(key, ns) == ns
    decreases ns
  {
    if ns != [] {
      DeleteNodeCons(key, ns);
      KeysOfChild(ns, 0);
      FlattenSplit(ns, 0);
      assert ns[..0] == [];
      assert Keys(ns[1..]) <= Keys(ns);
      DeleteNodeAbsent(key, ns[0].children);
      DeleteNodeAbsent(key, ns[1..]);
      assert ns == [ns[0]] + ns[1..];
    }
  }

  lemma {:induction false} WithoutConcat(key: string, a: seq<Node>, b: seq<Node>)
    ensures Without(key, a + b) == Without(key, a) + Without(key, b)
    decreases |a|
  {
    if a == [] {
      assert a + b == b;
    } else {
      assert (a + b)[1..] == a[1..] + b;
      WithoutConcat(key, a[1..], b);
    }
  }

  /** A node without the key keeps its place among the nodes that the filter keeps. */
  lemma {:induction false} WithoutAt(key: string, ns: seq<Node>, i: nat)
    requires i < |ns| && ns[i].key != key
    ensures |Without(key, ns[..i])| < |Without(key, ns)|
    ensures Without(key, ns)[|Without(key, ns[..i])|] == ns[i]
  {
    assert ns == ns[..i] + [ns[i]] + ns[i + 1..];
    WithoutConcat(key, ns[..i] + [ns[i]], ns[i + 1..]);
    WithoutConcat(key, ns[..i], [ns[i]]);
    assert Without(key, [ns[i]]) == [ns[i]];
  }

  /** A non-empty prefix is its first element followed by a prefix of the rest. */
  lemma {:induction false} PrefixCons<T>(s: seq<T>, i: nat)
    requires 0 < i <= |s|
    ensures s[..i] == [s[0]] + s[1..][..i - 1]
  {
  }

  /** Every node the filter keeps comes from some position of the input. */
  lemma {:induction false} WithoutOnto(key: string, ns: seq<Node>, j: nat) returns (i: nat)
    requires j < |Without(key, ns)|
    ensures i < |ns| && ns[i].key != key && |Without(key, ns[..i])| == j
    decreases |ns|
  {
    var head := if ns[0].key == key then [] else [ns[0]];
    assert Without(key, ns) == head + Without(key, ns[1..]);
    assert ns[..0] == [];
    if ns[0].key != key && j == 0 {
      i := 0;
    } else {
      var j' := if ns[0].key == key then j else j - 1;
      var i' := WithoutOnto(key, ns[1..], j');
      i := i' + 1;
      var rest := ns[1..][..i'];
      PrefixCons(ns, i);
      WithoutConcat(key, [ns[0]], rest);
      assert [ns[0]][1..] == [];
      assert Without(key, [ns[0]]) == head;
    }
  }

  lemma {:induction false} DeleteNodeLength(key: string, ns: seq<Node>)
    ensures |DeleteNode(key, ns)| == |Without(key, ns)|
  {
  }

  lemma {:induction false} DeleteNodeIndex(key: string, ns: seq<Node>, j: nat)
    requires j < |Without(key, ns)|
    ensures |DeleteNode(key, ns)| == |Without(key, ns)|
    ensures DeleteNode(key, ns)[j] == Without(key, ns)[j].(children := DeleteNode(key, Without(key, ns)[j].children))
  {
  }

  /** Where the node at `p` lands after deleting `key`, when no node on the way carries the key. */
  function KeptPath(key: string, ns: seq<Node>, p: seq<nat>): (q: seq<nat>)
    requires ValidPath(ns, p) && MatchDepth(ns, p, key).None?
    ensures |q| == |p|
    decreases |p|
  {
    [|Without(key, ns[..p[0]])|] + (if |p| == 1 then [] else KeptPath(key, ns[p[0]].children, p[1..]))
  }

  /** A node with no key on its way down survives the deletion, with its own subtree cleaned. */
  lemma {:induction false} DeleteNodeKeeps(key: string, ns: seq<Node>, p: seq<nat>)
    requires ValidPath(ns, p) && MatchDepth(ns, p, key).None?
    ensures ValidPath(DeleteNode(key, ns), KeptPath(key, ns, p))
    ensures NodeAt(DeleteNode(key, ns), KeptPath(key, ns, p))
      == NodeAt(ns, p).(children := DeleteNode(key, NodeAt(ns, p).children))
    decreases |p|
  {
    var i := p[0];
    WithoutAt(key, ns, i);
    var q := KeptPath(key, ns, p);
    assert DeleteNode(key, ns)[q[0]] == ns[i].(children := DeleteNode(key, ns[i].children));
    if |p| > 1 {
      DeleteNodeKeeps(key, ns[i].children, p[1..]);
      assert q[1..] == KeptPath(key, ns[i].children, p[1..]);
    }
  }

  /** Every node after the deletion is a surviving node: no node on its original way down had the key. */
  lemma {:induction false} DeleteNodeFrom(key: string, ns: seq<Node>, q: seq<nat>) returns (p: seq<nat>)
    requires ValidPath(DeleteNode(key, ns), q)
    ensures ValidPath(ns, p) && MatchDepth(ns, p, key).None?
    ensures KeptPath(key, ns, p) == q
    decreases |q|
  {
    var d := DeleteNode(key, ns);
    DeleteNodeLength(key, ns);
    var i := WithoutOnto(key, ns, q[0]);
    WithoutAt(key, ns, i);
    DeleteNodeIndex(key, ns, q[0]);
    assert d[q[0]] == ns[i].(children := DeleteNode(key, ns[i].children));
    if |q| == 1 {
      p := [i];
    } else {
      assert ValidPath(d[q[0]].children, q[1..]);
      var p' := DeleteNodeFrom(key, ns[i].children, q[1..]);
      KeptPathCons(key, ns, i, p');
      p := [i] + p';
      HeadTail(q);
    }
  }

  lemma {:induction false} HeadTail(q: seq<nat>)
    requires q != []
    ensures q == [q[0]] + q[1..]
  {
  }

  /** A way down through a node without the key, and where it lands. */
  lemma {:induction false} KeptPathCons(key: string, ns: seq<Node>, i: nat, p': seq<nat>)
    requires i < |ns| && ns[i].key != key
    requires ValidPath(ns[i].children, p') && MatchDepth(ns[i].children, p', key).None?
    ensures ValidPath(ns, [i] + p') && MatchDepth(ns, [i] + p', key).None?
    ensures KeptPath(key, ns, [i] + p') == [|Without(key, ns[..i])|] + KeptPath(key, ns[i].children, p')
  {
    var p := [i] + p';
    assert p[0] == i && p[1..] == p';
  }

  // ---------------------------------------------------------------------------
  // addChildNode
  // ---------------------------------------------------------------------------

  /** The node `addChildNode` appends: caption 'Nouveau poste', no parent id, no children. */
  function NewPost(key: string, num: string): Node
  {
    Node(key, num, "Nouveau poste", None, [])
  }

  /**
   * `addChildNode(parentKey, nodes)`, with the key `uuidv4()` would draw passed
   * in as `newKey`: the node with `parentKey` gets one new last child numbered
   * after its position; the search does not continue below a matching node.
   */
  function AddChildNode(parentKey: string, newKey: string, ns: seq<Node>): seq<Node>
    decreases ns
  {
    seq(|ns|, i requires 0 <= i < |ns| =>
      if ns[i].key == parentKey then
        ns[i].(children := ns[i].children + [NewPost(newKey, ChildNum(ns[i].num, |ns[i].children|))])
      else ns[i].(children := AddChildNode(parentKey, newKey, ns[i].children)))
  }

  /**
   * Node by node: the first node with `parentKey` on a way down gets exactly one
   * new last child; nodes below it are untouched; nodes above it keep their
   * fields and only their children are searched.
   */
  lemma {:induction false} AddChildNodeAt(parentKey: string, newKey: string, ns: seq<Node>, p: seq<nat>)
    requires ValidPath(ns, p)
    ensures ValidPath(AddChildNode(parentKey, newKey, ns), p)
    ensures MatchDepth(ns, p, parentKey).None? ==>
      NodeAt(AddChildNode(parentKey, newKey, ns), p)
        == NodeAt(ns, p).(children := AddChildNode(parentKey, newKey, NodeAt(ns, p).children))
    ensures MatchDepth(ns, p, parentKey) == Some(|p|) ==>
      NodeAt(AddChildNode(parentKey, newKey, ns), p)
        == NodeAt(ns, p).(children := NodeAt(ns, p).children
             + [NewPost(newKey, ChildNum(NodeAt(ns, p).num, |NodeAt(ns, p).children|))])
    ensures MatchDepth(ns, p, parentKey).Some? && MatchDepth(ns, p, parentKey).value < |p| ==>
      NodeAt(AddChildNode(parentKey, newKey, ns), p) == NodeAt(ns, p)
    decreases |p|
  {
    var i := p[0];
    if |p| > 1 {
      if ns[i].key == parentKey {
        OldChildrenKept(ns[i].children, [NewPost(newKey, ChildNum(ns[i].num, |ns[i].children|))], p[1..]);
      } else {
        AddChildNodeAt(parentKey, newKey, ns[i].children, p[1..]);
      }
    }
  }

  lemma {:induction false} OldChildrenKept(a: seq<Node>, b: seq<Node>, q: seq<nat>)
    requires ValidPath(a, q)
    ensures ValidPath(a + b, q) && NodeAt(a + b, q) == NodeAt(a, q)
  {
    assert (a + b)[q[0]] == a[q[0]];
  }

  /** Adding under a key that occurs nowhere leaves the tree unchanged. */
  lemma {:induction false} AddChildNodeAbsent(parentKey: string, newKey: string, ns: seq<Node>)
    requires parentKey !in Keys(ns)
    ensures AddChildNode(parentKey, newKey, ns) == ns
    decreases ns
  {
    var r := AddChildNode(parentKey, newKey, ns);
    forall i | 0 <= i < |ns| ensures r[i] == ns[i] {
      KeysOfChild(ns, i);
      AddChildNodeAbsent(parentKey, newKey, ns[i].children);
    }
  }

  // ---------------------------------------------------------------------------
  // findTitleByKey
  // ---------------------------------------------------------------------------

  /** `findTitleByKey(key, nodes)`: the heading of the first node with `key`, depth first. */
  function FindTitleByKey(key: string, ns: seq<Node>): Option<string>
  {
    if ns == [] then None
    else if ns[0].key == key then Some(Heading(ns[0]))
    else match FindTitleByKey(key, ns[0].children)
      case Some(t) => Some(t)
      case None => FindTitleByKey(key, ns[1..])
  }

  /** The position of the first node carrying `key` in a list. */
  function FirstWithKey(s: seq<Node>, key: string): (r: Option<nat>)
    ensures r.Some? ==> r.value < |s| && s[r.value].key == key
    ensures r.Some? ==> forall j :: 0 <= j < r.value ==> s[j].key != key
    ensures r.None? ==> forall j :: 0 <= j < |s| ==> s[j].key != key
  {
    if s == [] then None
    else if s[0].key == key then Some(0)
    else match FirstWithKey(s[1..], key)
      case None => None
      case Some(k) => Some(k + 1)
  }

  lemma {:induction false} FirstWithKeyConcat(a: seq<Node>, b: seq<Node>, key: string)
    ensures FirstWithKey(a + b, key) ==
      if FirstWithKey(a, key).Some? then FirstWithKey(a, key)
      else match FirstWithKey(b, key) case None => None case Some(k) => Some(|a| + k)
    decreases |a|
  {
    if a == [] {
      assert a + b == b;
    } else {
      assert (a + b)[0] == a[0] && (a + b)[1..] == a[1..] + b;
      FirstWithKeyConcat(a[1..], b, key);
    }
  }

  /** `findTitleByKey` returns the heading of the first node with the key in pre-order. */
  lemma {:induction false} FindTitleByKeyFirst(key: string, ns: seq<Node>)
    ensures FindTitleByKey(key, ns) ==
      match FirstWithKey(Flatten(ns), key)
      case None => None
      case Some(k) => Some(Heading(Flatten(ns)[k]))
    decreases ns
  {
    if ns != [] {
      var n0 := ns[0];
      assert Flatten(ns) == [n0] + Flatten(n0.children) + Flatten(ns[1..]);
      if n0.key != key {
        FindTitleByKeyFirst(key, n0.children);
        FindTitleByKeyFirst(key, ns[1..]);
        FirstWithKeyConcat([n0] + Flatten(n0.children), Flatten(ns[1..]), key);
        FirstWithKeyConcat([n0], Flatten(n0.children), key);
      }
    }
  }

  /** `findTitleByKey` returns null exactly when the key occurs nowhere in the tree. */
  lemma {:induction false} FindTitleByKeyNone(key: string, ns: seq<Node>)
    ensures FindTitleByKey(key, ns).None? <==> key !in Keys(ns)
  {
    FindTitleByKeyFirst(key, ns);
    var s := Flatten(ns);
    if key in Keys(ns) {
      var n :| n in s && n.key == key;
      var j :| 0 <= j < |s| && s[j] == n;
    }
  }

  // ---------------------------------------------------------------------------
  // addMainChapter
  // ---------------------------------------------------------------------------

  /** `treeData.map(node => parseInt(node.num))`, with `None` for NaN. */
  function RootNums(roots: seq<Node>): (vs: seq<Option<int>>)
    ensures |vs| == |roots|
  {
    seq(|roots|, i requires 0 <= i < |roots| => ParseInt(roots[i].num))
  }

  /** The largest of the numbers that are not NaN, if any (`Math.max(...rootNums.filter(...))`). */
  function MaxParsed(vs: seq<Option<int>>): (m: Option<int>)
    ensures m.None? <==> forall i :: 0 <= i < |vs| ==> vs[i].None?
    ensures m.Some? ==> exists i :: 0 <= i < |vs| && vs[i] == m
    ensures m.Some? ==> forall i :: 0 <= i < |vs| && vs[i].Some? ==> vs[i].value <= m.value
  {
    if vs == [] then None
    else
      var rest := MaxParsed(vs[1..]);
      assert forall i :: 1 <= i < |vs| ==> vs[i] == vs[1..][i - 1];
      match vs[0]
      case None => rest
      case Some(v) => if rest.Some? && rest.value > v then rest else Some(v)
  }

  /** `maxNum + 1` over the parsed root numbers, with `maxNum` 0 when none parses. */
  function NextValue(vs: seq<Option<int>>): int
  {
    (match MaxParsed(vs) case None => 0 case Some(m) => m) + 1
  }

  function NextMainValue(roots: seq<Node>): int
  {
    NextValue(RootNums(roots))
  }

  /** `(maxNum + 1).toString()`. */
  function NextMainNum(roots: seq<Node>): string
  {
    IntToString(NextMainValue(roots))
  }

  /** The new main chapter: caption 'Nouveau chapitre', no parent id, no children. */
  function NewChapter(key: string, roots: seq<Node>): Node
  {
    Node(key, NextMainNum(roots), "Nouveau chapitre", None, [])
  }

  /**
   * The new main chapter's number is one more than the largest root number that
   * parses, or 1 when none does; so it exceeds every root number.
   */
  lemma {:induction false} NextValueSpec(vs: seq<Option<int>>)
    ensures forall i :: 0 <= i < |vs| && vs[i].Some? ==> vs[i].value < NextValue(vs)
    ensures (forall i :: 0 <= i < |vs| ==> vs[i].None?) ==> NextValue(vs) == 1
    ensures (exists i :: 0 <= i < |vs| && vs[i].Some?) ==> Some(NextValue(vs) - 1) in vs
  {
  }

  /** The text of the new number reads back as that number with `parseInt`. */
  lemma {:induction false} NextMainNumReadsBack(roots: seq<Node>)
    ensures ParseInt(NextMainNum(roots)) == Some(NextMainValue(roots))
  {
    ParseIntOfIntToString(NextMainValue(roots));
  }

  /** With root numbers "1" and "2" the next main chapter is "3". */
  lemma {:induction false} NextMainNumExample(a: Node, b: Node)
    requires a.num == "1" && b.num == "2"
    ensures NextMainNum([a, b]) == "3"
  {
    ParseIntOfDigits(a.num);
    ParseIntOfDigits(b.num);
    assert DigitsValue(b.num) == 2 by {
      assert b.num[..0] == [];
    }
    assert DigitsValue(a.num) == 1 by {
      assert a.num[..0] == [];
    }
    var vs := RootNums([a, b]);
    assert vs[0] == Some(1) && vs[1] == Some(2);
    assert vs == [Some(1), Some(2)];
    assert vs[1..] == [Some(2)];
    assert MaxParsed([Some(2)]) == Some(2) by {
      assert [Some(2)][1..] == [];
    }
    assert MaxParsed(vs) == Some(2);
  }
}

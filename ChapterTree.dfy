/**
 * The chapter tree shared by the Metre and Summary pages: nodes with a key, a
 * dotted number, a label, an optional parent id and ordered children; paths
 * that address a node by its child positions; and the pre-order flattening
 * the summary pages walk (`flattenTreeNodes`).
 */
module ChapterTree {
  import opened Cells

  /** A chapter node; an absent `children` array is the empty sequence. */
  datatype Node = Node(key: string, num: string, caption: string, parentId: Option<string>, children: seq<Node>)

  /** The heading `${num} - ${label}` of a chapter. */
  function Heading(n: Node): string
  {
    n.num + " - " + n.caption
  }

  /** `p` addresses a node: `p[0]` among `ns`, the rest of `p` among that node's children. */
  predicate ValidPath(ns: seq<Node>, p: seq<nat>)
    decreases |p|
  {
    |p| > 0 && p[0] < |ns| && (|p| == 1 || ValidPath(ns[p[0]].children, p[1..]))
  }

  function NodeAt(ns: seq<Node>, p: seq<nat>): Node
    requires ValidPath(ns, p)
    decreases |p|
  {
    if |p| == 1 then ns[p[0]] else NodeAt(ns[p[0]].children, p[1..])
  }

  /** The pre-order list of all nodes of a forest: each node, then its subtree, then its next sibling. */
  function Flatten(ns: seq<Node>): seq<Node>
  {
    if ns == [] then [] else [ns[0]] + Flatten(ns[0].children) + Flatten(ns[1..])
  }

  /** The keys occurring anywhere in a forest. */
  function Keys(ns: seq<Node>): set<string>
  {
    set n | n in Flatten(ns) :: n.key
  }

  lemma {:induction false} FlattenConcat(a: seq<Node>, b: seq<Node>)
    ensures Flatten(a + b) == Flatten(a) + Flatten(b)
  {
    if a == [] {
      assert a + b == b;
    } else {
      assert (a + b)[0] == a[0] && (a + b)[1..] == a[1..] + b;
      FlattenConcat(a[1..], b);
    }
  }

  lemma {:induction false} FlattenSplit(ns: seq<Node>, i: nat)
    requires i < |ns|
    ensures Flatten(ns) == Flatten(ns[..i]) + [ns[i]] + Flatten(ns[i].children) + Flatten(ns[i + 1..])
  {
    var rest := ns[i..];
    assert ns == ns[..i] + rest;
    FlattenConcat(ns[..i], rest);
    assert rest[0] == ns[i] && rest[1..] == ns[i + 1..];
    assert Flatten(rest) == [ns[i]] + Flatten(ns[i].children) + Flatten(ns[i + 1..]);
  }

  lemma {:induction false} FlattenPrefixGrows(ns: seq<Node>, i: nat, j: nat)
    requires i <= j <= |ns|
    ensures |Flatten(ns[..i])| <= |Flatten(ns[..j])|
  {
    assert ns[..j] == ns[..i] + ns[i..j];
    FlattenConcat(ns[..i], ns[i..j]);
  }

  lemma {:induction false} FlattenSingle(n: Node)
    ensures Flatten([n]) == [n] + Flatten(n.children)
  {
    assert [n][1..] == [];
  }

  /**
   * `flattenTreeNodes`: each node is pushed, then the flattening of its
   * children is appended, sibling after sibling.
   */
  method FlattenTreeNodes(nodes: seq<Node>) returns (result: seq<Node>)
    ensures result == Flatten(nodes)
    decreases nodes
  {
    result := [];
    for i := 0 to |nodes|
      invariant result == Flatten(nodes[..i])
    {
      assert nodes[..i + 1] == nodes[..i] + [nodes[i]];
      FlattenConcat(nodes[..i], [nodes[i]]);
      FlattenSingle(nodes[i]);
      result := result + [nodes[i]];
      if |nodes[i].children| > 0 {
        var sub := FlattenTreeNodes(nodes[i].children);
        result := result + sub;
      }
    }
    assert nodes[..|nodes|] == nodes;
  }

  /** The position of the node at `p` in the pre-order list. */
  function PreIndex(ns: seq<Node>, p: seq<nat>): nat
    requires ValidPath(ns, p)
    decreases |p|
  {
    |Flatten(ns[..p[0]])| + (if |p| == 1 then 0 else 1 + PreIndex(ns[p[0]].children, p[1..]))
  }

  /** The pre-order list holds the node at `p` at position `PreIndex(ns, p)`. */
  lemma {:induction false} FlattenAt(ns: seq<Node>, p: seq<nat>)
    requires ValidPath(ns, p)
    ensures PreIndex(ns, p) < |Flatten(ns)|
    ensures Flatten(ns)[PreIndex(ns, p)] == NodeAt(ns, p)
    decreases |p|
  {
    var i := p[0];
    FlattenSplit(ns, i);
    if |p| > 1 {
      FlattenAt(ns[i].children, p[1..]);
    }
  }

  /** Every position of the pre-order list holds the node of some path. */
  lemma {:induction false} FlattenOnto(ns: seq<Node>, k: nat) returns (p: seq<nat>)
    requires k < |Flatten(ns)|
    ensures ValidPath(ns, p) && PreIndex(ns, p) == k
    decreases ns
  {
    var c := Flatten(ns[0].children);
    assert ns[..0] == [];
    if k == 0 {
      p := [0];
    } else if k - 1 < |c| {
      var q := FlattenOnto(ns[0].children, k - 1);
      p := [0] + q;
      assert p[1..] == q;
    } else {
      var q := FlattenOnto(ns[1..], k - 1 - |c|);
      p := [q[0] + 1] + q[1..];
      assert ns[..q[0] + 1] == [ns[0]] + ns[1..][..q[0]];
      FlattenConcat([ns[0]], ns[1..][..q[0]]);
      FlattenSingle(ns[0]);
      assert ns[p[0]] == ns[1..][q[0]];
      if |q| > 1 {
        assert p[1..] == q[1..];
      }
    }
  }

  /** Pre-order on paths: a proper prefix first, otherwise the smaller index where they first differ. */
  predicate PathBefore(p: seq<nat>, q: seq<nat>)
    decreases |p|
  {
    |p| > 0 && |q| > 0
    && (p[0] < q[0]
        || (p[0] == q[0] && |q| > 1 && (|p| == 1 || PathBefore(p[1..], q[1..]))))
  }

  /** Distinct non-empty paths are ordered one way or the other. */
  lemma {:induction false} PathBeforeTotal(p: seq<nat>, q: seq<nat>)
    requires |p| > 0 && |q| > 0 && p != q
    ensures PathBefore(p, q) || PathBefore(q, p)
    decreases |p|
  {
    if p[0] == q[0] && |p| > 1 && |q| > 1 {
      assert p == [p[0]] + p[1..] && q == [q[0]] + q[1..];
      PathBeforeTotal(p[1..], q[1..]);
    }
  }

  /** The flattening lists the nodes in path pre-order: ancestors first, siblings in order. */
  lemma {:induction false} PreIndexOrder(ns: seq<Node>, p: seq<nat>, q: seq<nat>)
    requires ValidPath(ns, p) && ValidPath(ns, q) && PathBefore(p, q)
    ensures PreIndex(ns, p) < PreIndex(ns, q)
    decreases |p|
  {
    var i := p[0];
    if i < q[0] {
      if |p| > 1 {
        FlattenAt(ns[i].children, p[1..]);
      }
      FlattenPrefixGrows(ns, i + 1, q[0]);
      assert ns[..i + 1] == ns[..i] + [ns[i]];
      FlattenConcat(ns[..i], [ns[i]]);
      FlattenSingle(ns[i]);
    } else if |p| > 1 {
      PreIndexOrder(ns[i].children, p[1..], q[1..]);
    }
  }

  /** An ancestor comes before each of its descendants. */
  lemma {:induction false} AncestorFirst(ns: seq<Node>, p: seq<nat>, q: seq<nat>)
    requires |p| > 0 && |q| > 0 && ValidPath(ns, p + q) && ValidPath(ns, p)
    ensures PreIndex(ns, p) < PreIndex(ns, p + q)
  {
    PrefixBefore(p, q);
    PreIndexOrder(ns, p, p + q);
  }

  lemma {:induction false} PrefixBefore(p: seq<nat>, q: seq<nat>)
    requires |p| > 0 && |q| > 0
    ensures PathBefore(p, p + q)
    decreases |p|
  {
    if |p| > 1 {
      assert (p + q)[1..] == p[1..] + q;
      PrefixBefore(p[1..], q);
    }
  }

  /** Each node is listed exactly once: different paths have different positions. */
  lemma {:induction false} PreIndexInjective(ns: seq<Node>, p: seq<nat>, q: seq<nat>)
    requires ValidPath(ns, p) && ValidPath(ns, q) && p != q
    ensures PreIndex(ns, p) != PreIndex(ns, q)
  {
    PathBeforeTotal(p, q);
    if PathBefore(p, q) {
      PreIndexOrder(ns, p, q);
    } else {
      PreIndexOrder(ns, q, p);
    }
  }

  /** A key occurs in a forest exactly when some node of the pre-order list carries it. */
  lemma {:induction false} KeysAt(ns: seq<Node>, p: seq<nat>)
    requires ValidPath(ns, p)
    ensures NodeAt(ns, p).key in Keys(ns)
  {
    FlattenAt(ns, p);
  }
}

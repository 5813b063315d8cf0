/** A disjoint-set forest in an array, and the connections its unions add up to. */
module DisjointSets {

  /** A union that was made. */
  datatype Link = Link(u: int, v: int)

  ghost predicate Touching(links: set<Link>, u: int, v: int) {
    Link(u, v) in links || Link(v, u) in links
  }

  ghost predicate Chain(p: seq<int>, links: set<Link>) {
    p != [] && forall k :: 0 <= k < |p| - 1 ==> Touching(links, p[k], p[k + 1])
  }

  /** u and v are equal in the equivalence closure of the links. */
  ghost predicate Connected(links: set<Link>, u: int, v: int) {
    exists p :: Chain(p, links) && p[0] == u && p[|p| - 1] == v
  }

  lemma ConnectedSelf(links: set<Link>, u: int)
    ensures Connected(links, u, u)
  {
    assert Chain([u], links);
  }

  lemma ConnectedLink(links: set<Link>, u: int, v: int)
    requires Touching(links, u, v)
    ensures Connected(links, u, v)
  {
    assert Chain([u, v], links);
  }

  lemma ConnectedOn(links: set<Link>, u: int, v: int, w: int)
    requires Connected(links, u, v) && Connected(links, v, w)
    ensures Connected(links, u, w)
  {
    var p :| Chain(p, links) && p[0] == u && p[|p| - 1] == v;
    var q :| Chain(q, links) && q[0] == v && q[|q| - 1] == w;
    var r := p + q[1..];
    forall k | 0 <= k < |r| - 1
      ensures Touching(links, r[k], r[k + 1])
    {
      if k < |p| - 1 {
        assert r[k] == p[k] && r[k + 1] == p[k + 1];
      } else {
        assert r[k] == q[k - |p| + 1] && r[k + 1] == q[k - |p| + 2];
      }
    }
    assert Chain(r, links);
  }

  lemma ConnectedMore(links: set<Link>, more: set<Link>, u: int, v: int)
    requires Connected(links, u, v) && links <= more
    ensures Connected(more, u, v)
  {
    var p :| Chain(p, links) && p[0] == u && p[|p| - 1] == v;
    assert forall k :: 0 <= k < |p| - 1 ==> Touching(links, p[k], p[k + 1]);
    assert Chain(p, more);
  }

  // ---------- Forests ----------

  /** Following f from i leads to root[i], by way of ever smaller depths. */
  ghost predicate Forest(f: seq<int>, root: seq<int>, depth: seq<nat>) {
    && |f| == |root| == |depth|
    && (forall i {:trigger f[i]} :: 0 <= i < |f| ==> 0 <= f[i] < |f|)
    && (forall i {:trigger f[i]} :: 0 <= i < |f| ==>
         if f[i] == i then root[i] == i else root[i] == root[f[i]] && depth[f[i]] < depth[i])
    && (forall i {:trigger root[i]} :: 0 <= i < |f| ==> 0 <= root[i] < |f|)
    && (forall i {:trigger f[root[i]]} :: 0 <= i < |f| ==> f[root[i]] == root[i])
  }

  /** The tree of root b becomes part of the tree of root a. */
  ghost function Merged(root: seq<int>, a: int, b: int): (r: seq<int>)
    ensures |r| == |root| && forall i :: 0 <= i < |r| ==> r[i] == if root[i] == b then a else root[i]
  {
    seq(|root|, i requires 0 <= i < |root| => if root[i] == b then a else root[i])
  }

  ghost function Deeper(depth: seq<nat>, root: seq<int>, a: int, b: int): (r: seq<nat>)
    requires |depth| == |root| && 0 <= a < |depth|
    ensures |r| == |depth| && forall i :: 0 <= i < |r| ==>
      r[i] == if root[i] == b then depth[i] + depth[a] + 1 else depth[i]
  {
    seq(|depth|, i requires 0 <= i < |depth| => if root[i] == b then depth[i] + depth[a] + 1 else depth[i])
  }

  lemma UnionKeepsForest(f: seq<int>, root: seq<int>, depth: seq<nat>, a: int, b: int)
    requires Forest(f, root, depth) && 0 <= a < |f| && 0 <= b < |f| && a != b && f[a] == a && f[b] == b
    ensures Forest(f[b := a], Merged(root, a, b), Deeper(depth, root, a, b))
  {
    var g, r, d := f[b := a], Merged(root, a, b), Deeper(depth, root, a, b);
    forall i | 0 <= i < |f|
      ensures if g[i] == i then r[i] == i else r[i] == r[g[i]] && d[g[i]] < d[i]
      ensures g[r[i]] == r[i]
    {
      assert 0 <= f[i] < |f| && f[root[i]] == root[i];
    }
  }

  // ---------- Roots and connections ----------

  /** Linked nodes have the same root, and every node is connected to its root. */
  ghost predicate Faithful(root: seq<int>, links: set<Link>) {
    && (forall l :: l in links ==> 0 <= l.u < |root| && 0 <= l.v < |root| && root[l.u] == root[l.v])
    && (forall i :: 0 <= i < |root| ==> Connected(links, i, root[i]) && Connected(links, root[i], i))
  }

  lemma {:induction false} ChainKeepsRoot(root: seq<int>, links: set<Link>, p: seq<int>)
    requires Faithful(root, links) && Chain(p, links) && 0 <= p[0] < |root|
    ensures 0 <= p[|p| - 1] < |root| && root[p[0]] == root[p[|p| - 1]]
  {
    if |p| > 1 {
      assert Touching(links, p[0], p[1]);
      forall k | 0 <= k < |p| - 2
        ensures Touching(links, p[1..][k], p[1..][k + 1])
      {
        assert Touching(links, p[k + 1], p[k + 2]);
      }
      ChainKeepsRoot(root, links, p[1..]);
    }
  }

  /** Equal roots are exactly the equivalence closure of the unions made. */
  lemma SameRootIsConnected(root: seq<int>, links: set<Link>, i: int, j: int)
    requires Faithful(root, links) && 0 <= i < |root| && 0 <= j < |root|
    ensures root[i] == root[j] <==> Connected(links, i, j)
  {
    if root[i] == root[j] {
      ConnectedOn(links, i, root[i], j);
    }
    if Connected(links, i, j) {
      var p :| Chain(p, links) && p[0] == i && p[|p| - 1] == j;
      ChainKeepsRoot(root, links, p);
    }
  }

  lemma UnionKeepsFaithful(root: seq<int>, links: set<Link>, father: int, child: int)
    requires Faithful(root, links) && 0 <= father < |root| && 0 <= child < |root|
    ensures Faithful(Merged(root, root[father], root[child]), links + {Link(father, child)})
  {
    var more := links + {Link(father, child)};
    var a, b := root[father], root[child];
    var r := Merged(root, a, b);
    ConnectedLink(more, father, child);
    ConnectedLink(more, child, father);
    ConnectedMore(links, more, father, a);
    ConnectedMore(links, more, a, father);
    ConnectedMore(links, more, child, b);
    ConnectedMore(links, more, b, child);
    ConnectedOn(more, b, child, father);
    ConnectedOn(more, b, father, a);
    ConnectedOn(more, a, father, child);
    ConnectedOn(more, a, child, b);
    forall i | 0 <= i < |r|
      ensures Connected(more, i, r[i]) && Connected(more, r[i], i)
    {
      ConnectedMore(links, more, i, root[i]);
      ConnectedMore(links, more, root[i], i);
      if root[i] == b {
        ConnectedOn(more, i, b, a);
        ConnectedOn(more, a, b, i);
      }
    }
  }

  // ---------- The class ----------

  class DisjointSet {
    const f: array<int>
    const mSize: nat
    ghost var root: seq<int>
    ghost var depth: seq<nat>
    ghost var links: set<Link>

    ghost predicate Valid()
      reads this, f
    {
      f.Length == mSize && Forest(f[..], root, depth) && Faithful(root, links)
    }

    constructor (size: nat)
      ensures Valid() && fresh(f) && mSize == size && links == {}
    {
      f := new int[size](i => i);
      mSize := size;
      root := seq(size, i => i);
      depth := seq(size, i => 0);
      links := {};
      new;
      forall i | 0 <= i < size
        ensures Connected({}, i, i)
      {
        ConnectedSelf({}, i);
      }
    }

    function FindRoot(node: int): (r: int)
      requires Valid() && 0 <= node < mSize
      reads this, f
      ensures r == root[node] && f[r] == r
      decreases depth[node]
    {
      assert f[..][node] == f[node];
      if node == f[node] then node else FindRoot(f[node])
    }

    method UnionNums(father: int, child: int)
      requires Valid() && 0 <= father < mSize && 0 <= child < mSize
      modifies f, this
      ensures Valid() && links == old(links) + {Link(father, child)}
    {
      var fatherIdx := FindRoot(father);
      var childIdx := FindRoot(child);
      UnionKeepsFaithful(root, links, father, child);
      if fatherIdx != childIdx {
        UnionKeepsForest(f[..], root, depth, fatherIdx, childIdx);
        ghost var before := f[..];
        f[childIdx] := fatherIdx;
        assert f[..] == before[childIdx := fatherIdx];
        depth := Deeper(depth, root, fatherIdx, childIdx);
        root := Merged(root, fatherIdx, childIdx);
      } else {
        assert Merged(root, fatherIdx, childIdx) == root;
      }
      links := links + {Link(father, child)};
    }

    /** Two nodes have the same root exactly when the unions made so far connect them. */
    lemma FindRootTellsConnection(i: int, j: int)
      requires Valid() && 0 <= i < mSize && 0 <= j < mSize
      ensures FindRoot(i) == FindRoot(j) <==> Connected(links, i, j)
    {
      SameRootIsConnected(root, links, i, j);
    }
  }
}

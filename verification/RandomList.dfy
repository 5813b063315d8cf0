/** Copying a list whose nodes also point at random nodes of it. */
module RandomList {
  import opened Listings

  class Node {
    const val: int
    var next: Node?
    var random: Node?

    constructor (val: int)
      ensures this.val == val && next == null && random == null
    {
      this.val, next, random := val, null, null;
    }
  }

  function At(s: seq<Node>, i: int): Node? {
    if 0 <= i < |s| then s[i] else null
  }

  /** The next links from head run through s and end. */
  ghost predicate IsList(head: Node?, s: seq<Node>)
    reads s`next
  {
    && Unshared(s)
    && head == At(s, 0)
    && (forall i {:trigger s[i].next} :: 0 <= i < |s| ==> s[i].next == At(s, i + 1))
  }

  ghost predicate SameValues(s: seq<Node>, c: seq<Node>) {
    |c| == |s| && forall i :: 0 <= i < |s| ==> c[i].val == s[i].val
  }

  /** The mapping takes each node of s to the node of c at its place, and nothing else. */
  ghost predicate Maps(mapping: map<Node, Node>, s: seq<Node>, c: seq<Node>) {
    && |s| == |c|
    && (forall i :: 0 <= i < |s| ==> s[i] in mapping && mapping[s[i]] == c[i])
    && (forall x :: x in mapping ==> x in s)
  }

  /** The first k random links of c are those of s, carried over; links that leave s are dropped. */
  ghost predicate SameRandoms(s: seq<Node>, c: seq<Node>, k: nat)
    requires k <= |s| == |c|
    reads s`random, c`random
  {
    forall i :: 0 <= i < k ==> Carried(s, c, s[i].random, c[i].random)
  }

  ghost predicate Carried(s: seq<Node>, c: seq<Node>, x: Node?, y: Node?)
    requires |s| == |c|
  {
    && (forall j :: 0 <= j < |s| && x == s[j] ==> y == c[j])
    && (x == null || x !in s ==> y == null)
  }

  /** The value mapping[p] has in a std::map: null when p was never entered. */
  function Lookup(mapping: map<Node, Node>, p: Node?): Node? {
    if p != null && p in mapping then mapping[p] else null
  }

  lemma LookupCarries(mapping: map<Node, Node>, s: seq<Node>, c: seq<Node>, x: Node?)
    requires Maps(mapping, s, c)
    ensures Carried(s, c, x, Lookup(mapping, x))
  {
  }

  lemma MapsMore(mapping: map<Node, Node>, s: seq<Node>, c: seq<Node>, k: nat, q: Node)
    requires Unshared(s) && k < |s| && Maps(mapping, s[..k], c)
    ensures Maps(mapping[s[k] := q], s[..k + 1], c + [q])
  {
    UnsharedAt(s, k);
    assert s[..k + 1] == s[..k] + [s[k]];
  }

  /** One new node at the end of the copy. */
  lemma UnsharedMore(c: seq<Node>, q: Node)
    requires Unshared(c) && q !in c
    ensures Unshared(c + [q])
  {
    assert Inserted(c, |c|, q) == c + [q];
    InsertedMembers(c, |c|, q);
  }

  /** Copies values and next links; the mapping remembers which node copies which. */
  method CopyNodes(head: Node?, ghost nodes: seq<Node>)
    returns (first: Node?, mapping: map<Node, Node>, ghost copies: seq<Node>)
    requires IsList(head, nodes)
    ensures IsList(first, copies) && SameValues(nodes, copies) && Maps(mapping, nodes, copies)
    ensures fresh(copies)
  {
    mapping, copies := map[], [];
    var res := new Node(0);
    var prev, p := res, head;
    ghost var k := 0;
    while p != null
      invariant k <= |nodes| && p == At(nodes, k)
      invariant fresh(res) && res !in copies && fresh(copies)
      invariant |copies| == k && IsList(res.next, copies)
      invariant prev == if k == 0 then res else copies[k - 1]
      invariant SameValues(nodes[..k], copies) && Maps(mapping, nodes[..k], copies)
      decreases |nodes| - k
    {
      var q := new Node(p.val);
      MapsMore(mapping, nodes, copies, k, q);
      mapping := mapping[p := q];
      p := p.next;
      Link(res, prev, q, copies);
      prev := q;
      copies := copies + [q];
      k := k + 1;
    }
    assert nodes[..k] == nodes;
    first := res.next;
  }

  method Link(res: Node, prev: Node, q: Node, ghost copies: seq<Node>)
    requires IsList(res.next, copies) && res !in copies && q !in copies && q != res && q.next == null
    requires prev == if copies == [] then res else copies[|copies| - 1]
    modifies prev`next
    ensures IsList(res.next, copies + [q])
  {
    if copies != [] {
      UnsharedAt(copies, |copies| - 1);
    }
    UnsharedMore(copies, q);
    prev.next := q;
  }

  /** Fills the random links of the copy. */
  method FillRandoms(head: Node?, first: Node?, mapping: map<Node, Node>, ghost nodes: seq<Node>,
                     ghost copies: seq<Node>)
    requires IsList(head, nodes) && IsList(first, copies) && Maps(mapping, nodes, copies)
    requires forall x :: x in copies ==> x !in nodes
    modifies copies`random
    ensures SameRandoms(nodes, copies, |nodes|)
  {
    var p, q := head, first;
    ghost var k := 0;
    while p != null
      invariant k <= |nodes| && p == At(nodes, k) && q == At(copies, k)
      invariant SameRandoms(nodes, copies, k)
      decreases |nodes| - k
    {
      LookupCarries(mapping, nodes, copies, p.random);
      UnsharedAt(copies, k);
      q.random := Lookup(mapping, p.random);
      q := q.next;
      p := p.next;
      k := k + 1;
    }
  }

  /** A fresh list with the same values, the same shape and the same random links; nothing old is changed. */
  method CopyRandomList(head: Node?, ghost nodes: seq<Node>) returns (copy: Node?, ghost copies: seq<Node>)
    requires IsList(head, nodes)
    ensures fresh(copies)
    ensures IsList(copy, copies) && SameValues(nodes, copies) && SameRandoms(nodes, copies, |nodes|)
  {
    var mapping;
    copy, mapping, copies := CopyNodes(head, nodes);
    FillRandoms(head, copy, mapping, nodes, copies);
  }
}

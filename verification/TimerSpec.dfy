/**
 What a timer container means: a map from its pending timers to their deadlines.
 A tick fires the due timers, in the order of their deadlines, and keeps the others.
 */
module TimerSpec {
  import opened Listings

  /** fired lists exactly the timers of pending whose deadline has come, by ascending deadline. */
  ghost predicate FiresDue<T>(pending: map<T, int>, now: int, fired: seq<T>) {
    && Distinct(fired)
    && (forall t :: t in fired ==> t in pending && pending[t] <= now)
    && (forall t :: t in pending && pending[t] <= now ==> t in fired)
    && (forall i, j :: 0 <= i < j < |fired| ==> pending[fired[i]] <= pending[fired[j]])
  }

  /** The pending timers a tick leaves. */
  ghost function Later<T>(pending: map<T, int>, now: int): map<T, int> {
    map t | t in pending && now < pending[t] :: pending[t]
  }

  // ---------- Two containers in step ----------

  /** A renaming of the timers of one container to those of another with the same deadlines. */
  datatype Pairing<A, B> = Pairing(to: map<A, B>, back: map<B, A>)

  ghost predicate Paired<A, B>(p: map<A, int>, q: map<B, int>, pair: Pairing<A, B>) {
    && (forall a :: a in p ==> a in pair.to && pair.to[a] in q && q[pair.to[a]] == p[a])
    && (forall b :: b in q ==>
         b in pair.back && pair.back[b] in p && pair.back[b] in pair.to && pair.to[pair.back[b]] == b)
    && (forall a :: a in p ==> pair.to[a] in pair.back && pair.back[pair.to[a]] == a)
  }

  function WithPair<A, B>(pair: Pairing<A, B>, a: A, b: B): Pairing<A, B> {
    Pairing(pair.to[a := b], pair.back[b := a])
  }

  lemma AddKeepsPaired<A, B>(p: map<A, int>, q: map<B, int>, pair: Pairing<A, B>, a: A, b: B, deadline: int)
    requires Paired(p, q, pair) && a !in p && b !in q
    ensures Paired(p[a := deadline], q[b := deadline], WithPair(pair, a, b))
  {
  }

  lemma DelKeepsPaired<A, B>(p: map<A, int>, q: map<B, int>, pair: Pairing<A, B>, a: A)
    requires Paired(p, q, pair) && a in p
    ensures Paired(p - {a}, q - {pair.to[a]}, pair)
  {
  }

  ghost predicate ByDeadline<T>(s: seq<T>, d: map<T, int>) {
    && Distinct(s)
    && (forall i :: 0 <= i < |s| ==> s[i] in d)
    && (forall i, j :: 0 <= i < j < |s| ==> d[s[i]] <= d[s[j]])
  }

  lemma WithoutByDeadline<T>(s: seq<T>, d: map<T, int>, k: int)
    requires ByDeadline(s, d) && 0 <= k < |s|
    ensures ByDeadline(Without(s, k), d)
    ensures forall x :: x in Without(s, k) <==> x in s && x != s[k]
  {
    WithoutMembers(s, k);
  }

  /** Deadlines of s without one of its latest timers, put back last. */
  lemma LatestLast<T>(s: seq<T>, d: map<T, int>, k: int)
    requires ByDeadline(s, d) && 0 <= k < |s| && d[s[|s| - 1]] == d[s[k]]
    ensures forall i :: 0 <= i < |s| - 1 ==> Without(s, k)[i] in d && d[s[i]] == d[Without(s, k)[i]]
  {
    forall i | 0 <= i < |s| - 1
      ensures Without(s, k)[i] in d && d[s[i]] == d[Without(s, k)[i]]
    {
      if i >= k {
        assert d[s[k]] <= d[s[i + 1]] <= d[s[|s| - 1]];
        assert i > k ==> d[s[k]] <= d[s[i]];
      }
    }
  }

  lemma SameLatest<T>(s: seq<T>, t: seq<T>, d: map<T, int>) returns (k: nat)
    requires ByDeadline(s, d) && ByDeadline(t, d) && SameMembers(s, t) && s != []
    ensures k < |t| && t[k] == s[|s| - 1] && d[t[|t| - 1]] == d[t[k]]
  {
    assert s[|s| - 1] in t;
    k :| 0 <= k < |t| && t[k] == s[|s| - 1];
    assert t[|t| - 1] in s;
    var l :| 0 <= l < |s| && s[l] == t[|t| - 1];
  }

  /** Whatever the order of ties, two listings of the same timers by deadline show the same deadlines. */
  lemma {:induction false} SameDeadlines<T>(s: seq<T>, t: seq<T>, d: map<T, int>)
    requires ByDeadline(s, d) && ByDeadline(t, d) && SameMembers(s, t)
    ensures |s| == |t| && forall i :: 0 <= i < |s| ==> d[s[i]] == d[t[i]]
  {
    assert t != [] ==> t[0] in s;
    if s != [] {
      var k := SameLatest(s, t, d);
      WithoutByDeadline(t, d, k);
      WithoutByDeadline(s, d, |s| - 1);
      SameDeadlines(Without(s, |s| - 1), Without(t, k), d);
      LatestLast(t, d, k);
    }
  }

  /** Two containers with paired timers make the same calls at the same clock reading, and stay paired. */
  lemma TickKeepsPaired<A, B>(p: map<A, int>, q: map<B, int>, pair: Pairing<A, B>, now: int, called: seq<A>,
                              calledToo: seq<B>)
    requires Paired(p, q, pair) && FiresDue(p, now, called) && FiresDue(q, now, calledToo)
    ensures Paired(Later(p, now), Later(q, now), pair)
    ensures forall a :: a in p ==> (a in called <==> pair.to[a] in calledToo)
    ensures |called| == |calledToo| && forall i :: 0 <= i < |called| ==> p[called[i]] == q[calledToo[i]]
  {
    forall i | 0 <= i < |called|
      ensures called[i] in p && pair.to[called[i]] in q && q[pair.to[called[i]]] == p[called[i]]
    {
      assert called[i] in called;
    }
    var image := seq(|called|, i requires 0 <= i < |called| => pair.to[called[i]]);
    forall i, j | 0 <= i < j < |image|
      ensures image[i] != image[j]
    {
      assert pair.back[image[i]] == called[i] && pair.back[image[j]] == called[j];
    }
    forall b | b in calledToo
      ensures b in image
    {
      var i :| 0 <= i < |called| && called[i] == pair.back[b];
      assert image[i] == b;
    }
    SameDeadlines(image, calledToo, q);
  }

  // ---------- Whole runs ----------

  /** What happens to a container; a tick comes with the calls it made. */
  datatype Op<T> = Add(timer: T, deadline: int) | Del(timer: T) | Tick(now: int, calls: seq<T>)

  ghost predicate Allowed<T>(pending: map<T, int>, op: Op<T>) {
    match op
    case Add(t, _) => t !in pending
    case Del(t) => t in pending
    case Tick(now, calls) => FiresDue(pending, now, calls)
  }

  ghost function After<T>(pending: map<T, int>, op: Op<T>): map<T, int> {
    match op
    case Add(t, deadline) => pending[t := deadline]
    case Del(t) => pending - {t}
    case Tick(now, _) => Later(pending, now)
  }

  ghost predicate IsRun<T>(pending: map<T, int>, ops: seq<Op<T>>)
    decreases |ops|
  {
    ops == [] || (Allowed(pending, ops[0]) && IsRun(After(pending, ops[0]), ops[1..]))
  }

  ghost function DeadlinesOf<T>(pending: map<T, int>, calls: seq<T>): seq<int>
    requires forall t :: t in calls ==> t in pending
  {
    seq(|calls|, i requires 0 <= i < |calls| && calls[i] in pending => pending[calls[i]])
  }

  /** For each tick of a run, the deadlines of the timers it called, in the order of the calls. */
  ghost function Trace<T>(pending: map<T, int>, ops: seq<Op<T>>): seq<seq<int>>
    requires IsRun(pending, ops)
    decreases |ops|
  {
    if ops == [] then []
    else (if ops[0].Tick? then [DeadlinesOf(pending, ops[0].calls)] else []) + Trace(After(pending, ops[0]), ops[1..])
  }

  /** The same operation on the paired timer, or a tick at the same clock reading. */
  ghost predicate SameOp<A, B>(a: Op<A>, b: Op<B>, pair: Pairing<A, B>) {
    match a
    case Add(t, deadline) =>
      b.Add? && b.deadline == deadline && t in pair.to && pair.to[t] == b.timer && b.timer in pair.back
        && pair.back[b.timer] == t
    case Del(t) => b.Del? && t in pair.to && pair.to[t] == b.timer
    case Tick(now, _) => b.Tick? && b.now == now
  }

  lemma OpKeepsPaired<A, B>(p: map<A, int>, q: map<B, int>, pair: Pairing<A, B>, a: Op<A>, b: Op<B>)
    requires Paired(p, q, pair) && SameOp(a, b, pair) && Allowed(p, a) && Allowed(q, b)
    ensures Paired(After(p, a), After(q, b), pair)
    ensures a.Tick? ==> DeadlinesOf(p, a.calls) == DeadlinesOf(q, b.calls)
  {
    match a
    case Add(t, deadline) =>
      AddKeepsPaired(p, q, pair, t, b.timer, deadline);
      assert WithPair(pair, t, b.timer) == pair;
    case Del(t) =>
      DelKeepsPaired(p, q, pair, t);
    case Tick(now, calls) =>
      TickKeepsPaired(p, q, pair, now, calls, b.calls);
  }

  /**
   The same adds, deletes and clock readings make any two containers call timers with the same deadlines in
   the same order.
   */
  lemma {:induction false} RunsAgree<A, B>(p: map<A, int>, q: map<B, int>, pair: Pairing<A, B>, opsA: seq<Op<A>>,
                                           opsB: seq<Op<B>>)
    requires Paired(p, q, pair) && IsRun(p, opsA) && IsRun(q, opsB)
    requires |opsA| == |opsB| && forall i :: 0 <= i < |opsA| ==> SameOp(opsA[i], opsB[i], pair)
    ensures Trace(p, opsA) == Trace(q, opsB)
    decreases |opsA|
  {
    if opsA != [] {
      OpKeepsPaired(p, q, pair, opsA[0], opsB[0]);
      RunsAgree(After(p, opsA[0]), After(q, opsB[0]), pair, opsA[1..], opsB[1..]);
    }
  }
}

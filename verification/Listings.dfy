/** Sequences without repetitions, and what inserting and removing one place does to them. */
module Listings {

  ghost predicate Distinct<T>(s: seq<T>) {
    forall i, j :: 0 <= i < j < |s| ==> s[i] != s[j]
  }

  ghost predicate SameMembers<T>(s: seq<T>, t: seq<T>) {
    (forall x :: x in s ==> x in t) && (forall x :: x in t ==> x in s)
  }

  function Without<T>(s: seq<T>, k: int): seq<T>
    requires 0 <= k < |s|
  {
    s[..k] + s[k + 1..]
  }

  function Inserted<T>(s: seq<T>, k: int, x: T): seq<T>
    requires 0 <= k <= |s|
  {
    s[..k] + [x] + s[k..]
  }

  lemma WithoutMembers<T>(s: seq<T>, k: int)
    requires 0 <= k < |s| && Distinct(s)
    ensures Distinct(Without(s, k))
    ensures forall x :: x in Without(s, k) <==> x in s && x != s[k]
  {
    var r := Without(s, k);
    forall x | x in s && x != s[k]
      ensures x in r
    {
      var i :| 0 <= i < |s| && s[i] == x;
      assert r[if i < k then i else i - 1] == x;
    }
  }

  lemma DistinctConcat<T>(s: seq<T>, t: seq<T>)
    requires Distinct(s) && Distinct(t) && forall x :: x in s ==> x !in t
    ensures Distinct(s + t)
  {
    assert forall i :: 0 <= i < |s| ==> s[i] in s;
    assert forall i :: 0 <= i < |t| ==> t[i] in t;
  }

  // ---------- The same as Distinct, unfolded only where places are compared ----------

  ghost predicate Apart<T>(s: seq<T>, i: int, j: int)
    requires 0 <= i < |s| && 0 <= j < |s|
  {
    s[i] != s[j]
  }

  ghost predicate Unshared<T>(s: seq<T>) {
    forall i, j {:trigger Apart(s, i, j)} :: 0 <= i < j < |s| ==> Apart(s, i, j)
  }

  lemma UnsharedAt<T>(s: seq<T>, k: int)
    requires Unshared(s) && 0 <= k < |s|
    ensures forall i :: 0 <= i < |s| && i != k ==> s[i] != s[k]
  {
    forall i | 0 <= i < |s| && i != k
      ensures s[i] != s[k]
    {
      assert if i < k then Apart(s, i, k) else Apart(s, k, i);
    }
  }

  lemma UnsharedIsDistinct<T>(s: seq<T>)
    ensures Unshared(s) <==> Distinct(s)
  {
    if Unshared(s) {
      forall i, j | 0 <= i < j < |s|
        ensures s[i] != s[j]
      {
        assert Apart(s, i, j);
      }
    }
  }

  lemma InsertedMembers<T>(s: seq<T>, k: int, x: T)
    requires 0 <= k <= |s| && Unshared(s) && x !in s
    ensures Unshared(Inserted(s, k, x))
    ensures forall y :: y in Inserted(s, k, x) <==> y in s || y == x
  {
    var r := Inserted(s, k, x);
    forall y | y in s
      ensures y in r
    {
      var i :| 0 <= i < |s| && s[i] == y;
      assert r[if i < k then i else i + 1] == y;
    }
    assert r[k] == x;
    forall i, j | 0 <= i < j < |r|
      ensures Apart(r, i, j)
    {
      if i != k && j != k {
        assert Apart(s, if i < k then i else i - 1, if j < k then j else j - 1);
      }
    }
  }

  lemma RemovedMembers<T>(s: seq<T>, k: int)
    requires 0 <= k < |s| && Unshared(s)
    ensures Unshared(Without(s, k))
    ensures forall x :: x in Without(s, k) <==> x in s && x != s[k]
  {
    UnsharedIsDistinct(s);
    WithoutMembers(s, k);
    UnsharedIsDistinct(Without(s, k));
  }
}

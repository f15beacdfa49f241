/** The few MongoDB collection operations the handlers use, over a collection
    held as a sequence of documents in insertion (natural) order:
    `find` + `to_list(n)`, `find_one`, `update_one`, and `sort(key, -1)` +
    `limit(n)`. */
module Query {
  import opened Common

  /** No two documents of `s` share a `key`. */
  ghost predicate UniqueBy<T, K>(s: seq<T>, key: T -> K) {
    forall i, j :: 0 <= i < j < |s| ==> key(s[i]) != key(s[j])
  }

  /** `key` never increases along `s`: newest first. */
  ghost predicate Descending<T>(s: seq<T>, key: T -> nat) {
    forall i, j :: 0 <= i < j < |s| ==> key(s[i]) >= key(s[j])
  }

  /** `find(query)`: the documents satisfying `p`, in insertion order. */
  function Filter<T(!new)>(s: seq<T>, p: T -> bool): (r: seq<T>)
    ensures |r| <= |s|
    ensures forall x :: x in r <==> x in s && p(x)
  {
    if |s| == 0 then []
    else
      assert s == [s[0]] + s[1..];
      if p(s[0]) then [s[0]] + Filter(s[1..], p) else Filter(s[1..], p)
  }

  /** `Filter` keeps every matching document as often as it occurs, and
      nothing else. */
  lemma {:induction false} FilterCounts<T(!new)>(s: seq<T>, p: T -> bool)
    ensures forall x :: multiset(Filter(s, p))[x] == if p(x) then multiset(s)[x] else 0
  {
    if |s| > 0 {
      assert s == [s[0]] + s[1..];
      FilterCounts(s[1..], p);
    }
  }

  /** Filtering a concatenation filters each part. */
  lemma {:induction false} FilterAppend<T(!new)>(a: seq<T>, b: seq<T>, p: T -> bool)
    ensures Filter(a + b, p) == Filter(a, p) + Filter(b, p)
  {
    if |a| > 0 {
      assert (a + b)[1..] == a[1..] + b;
      FilterAppend(a[1..], b, p);
    } else {
      assert a + b == b;
    }
  }

  /** `find(query).to_list(cap)`: at most `cap` documents satisfying `p`,
      the first ones in insertion order. */
  function Select<T(!new)>(s: seq<T>, p: T -> bool, cap: nat): (r: seq<T>)
    ensures |r| == Min(cap, |Filter(s, p)|)
    ensures r == Filter(s, p)[..|r|]
    ensures forall x :: x in r ==> x in s && p(x)
    ensures |Filter(s, p)| <= cap ==> r == Filter(s, p)
  {
    var all := Filter(s, p);
    if |all| <= cap then all
    else
      assert forall x :: x in all[..cap] ==> x in all;
      all[..cap]
  }

  /** Index of the first document satisfying `p` (where `find_one` and
      `update_one` land), if any. */
  function FindFirst<T>(s: seq<T>, p: T -> bool): (r: Option<nat>)
    ensures r.Some? ==> r.value < |s| && p(s[r.value])
    ensures r.Some? ==> forall j :: 0 <= j < r.value ==> !p(s[j])
    ensures r.None? <==> forall i :: 0 <= i < |s| ==> !p(s[i])
  {
    if |s| == 0 then None
    else if p(s[0]) then Some(0)
    else
      match FindFirst(s[1..], p)
      case None => None
      case Some(i) => Some(i + 1)
  }

  /** `find_one(query)`: the first document satisfying `p`, if any. */
  function FindOne<T(!new)>(s: seq<T>, p: T -> bool): (r: Option<T>)
    ensures r.Some? ==> r.value in s && p(r.value)
    ensures r.None? <==> forall x :: x in s ==> !p(x)
  {
    match FindFirst(s, p)
    case None => None
    case Some(i) => Some(s[i])
  }

  /** `update_one(query, change)`: `f` rewrites the first document satisfying
      `p`; every other document keeps its place and value. */
  function UpdateFirst<T>(s: seq<T>, p: T -> bool, f: T -> T): (r: seq<T>)
    ensures |r| == |s|
    ensures forall i :: 0 <= i < |s| ==>
      r[i] == if p(s[i]) && (forall j :: 0 <= j < i ==> !p(s[j])) then f(s[i]) else s[i]
  {
    match FindFirst(s, p)
    case None => s
    case Some(i) => s[i := f(s[i])]
  }

  /** The first unique-key lookup lands on the one document with that key. */
  lemma {:induction false} FindFirstOfUnique<T(!new), K>(s: seq<T>, key: T -> K, p: T -> bool, k: nat)
    requires UniqueBy(s, key)
    requires k < |s| && p(s[k])
    requires forall x :: p(x) ==> key(x) == key(s[k])
    ensures FindFirst(s, p) == Some(k)
  {
  }

  /** Appending a document whose key is new keeps keys unique. */
  lemma {:induction false} UniqueAppend<T(!new), K>(s: seq<T>, key: T -> K, x: T)
    requires UniqueBy(s, key)
    requires forall y :: y in s ==> key(y) != key(x)
    ensures UniqueBy(s + [x], key)
  {
    var t := s + [x];
    forall i, j | 0 <= i < j < |t|
      ensures key(t[i]) != key(t[j])
    {
      if j == |s| {
        assert t[i] in s;
      }
    }
  }

  /** Replacing a document by one with the same key keeps keys unique. */
  lemma {:induction false} UniqueReplace<T, K>(s: seq<T>, key: T -> K, k: nat, x: T)
    requires UniqueBy(s, key)
    requires k < |s| && key(x) == key(s[k])
    ensures UniqueBy(s[k := x], key)
  {
    var t := s[k := x];
    forall i, j | 0 <= i < j < |t|
      ensures key(t[i]) != key(t[j])
    {
      assert key(t[i]) == key(s[i]) && key(t[j]) == key(s[j]);
    }
  }

  /** With unique ids, updating through the id of the document at `k`
      rewrites exactly that document. */
  lemma {:induction false} UpdateById<T(!new), K>(s: seq<T>, id: T -> K, k: nat, p: T -> bool, f: T -> T)
    requires UniqueBy(s, id) && k < |s|
    requires forall x :: p(x) <==> id(x) == id(s[k])
    ensures UpdateFirst(s, p, f) == s[k := f(s[k])]
  {
    FindFirstOfUnique(s, id, p, k);
  }

  /** A document that still matches after the update is found again in the
      same place. */
  lemma {:induction false} FindAfterUpdate<T>(s: seq<T>, p: T -> bool, f: T -> T)
    requires FindFirst(s, p).Some?
    requires forall x :: p(x) ==> p(f(x))
    ensures FindFirst(UpdateFirst(s, p, f), p) == FindFirst(s, p)
  {
    var k := FindFirst(s, p).value;
    var r := UpdateFirst(s, p, f);
    assert r == s[k := f(s[k])];
    assert p(r[k]);
  }

  /** Putting a document no older than the head in front of a newest-first
      sequence keeps it newest first. */
  lemma {:induction false} ConsDescending<T>(h: T, s: seq<T>, key: T -> nat)
    requires Descending(s, key)
    requires |s| > 0 ==> key(s[0]) <= key(h)
    ensures Descending([h] + s, key)
  {
    var r := [h] + s;
    forall i, j | 0 <= i < j < |r|
      ensures key(r[i]) >= key(r[j])
    {
      if i == 0 {
        assert r[j] == s[j - 1];
      } else {
        assert r[i] == s[i - 1] && r[j] == s[j - 1];
      }
    }
  }

  /** Insertion of one document into a newest-first sequence. */
  function InsertByKey<T(!new)>(x: T, s: seq<T>, key: T -> nat): (r: seq<T>)
    requires Descending(s, key)
    ensures |r| == |s| + 1
    ensures r[0] == x || (|s| > 0 && r[0] == s[0])
    ensures multiset(r) == multiset(s) + multiset{x}
    ensures Descending(r, key)
  {
    if |s| == 0 || key(s[0]) <= key(x) then
      ConsDescending(x, s, key);
      [x] + s
    else
      var tail := s[1..];
      assert s == [s[0]] + tail;
      assert Descending(tail, key) by {
        forall i, j | 0 <= i < j < |tail|
          ensures key(tail[i]) >= key(tail[j])
        {
          assert tail[i] == s[i + 1] && tail[j] == s[j + 1];
        }
      }
      var rest := InsertByKey(x, tail, key);
      assert key(rest[0]) <= key(s[0]) by {
        if rest[0] != x {
          assert rest[0] == tail[0] == s[1];
        }
      }
      ConsDescending(s[0], rest, key);
      [s[0]] + rest
  }

  /** `sort(key, -1)`: a newest-first permutation of `s`. */
  function SortByKey<T(!new)>(s: seq<T>, key: T -> nat): (r: seq<T>)
    ensures multiset(r) == multiset(s)
    ensures Descending(r, key)
  {
    if |s| == 0 then []
    else
      assert s == [s[0]] + s[1..];
      InsertByKey(s[0], SortByKey(s[1..], key), key)
  }

  /** `sort(key, -1).limit(n)`: the `limit` newest documents, newest first.
      MongoDB leaves the order of equal keys open; so does this contract. */
  function NewestFirst<T(!new)>(s: seq<T>, key: T -> nat, limit: nat): (r: seq<T>)
    ensures |r| == Min(limit, |s|)
    ensures Descending(r, key)
    ensures multiset(r) <= multiset(s)
    ensures forall x, y :: x in multiset(s) - multiset(r) && y in r ==> key(x) <= key(y)
  {
    var sorted := SortByKey(s, key);
    assert |sorted| == |multiset(s)| == |s|;
    var k := Min(limit, |s|);
    DescendingPrefixIsNewest(sorted, key, k);
    sorted[..k]
  }

  /** In a newest-first sequence, nothing after position `k` is newer than
      anything before it. */
  lemma {:induction false} DescendingPrefixIsNewest<T>(s: seq<T>, key: T -> nat, k: nat)
    requires Descending(s, key) && k <= |s|
    ensures Descending(s[..k], key)
    ensures multiset(s[..k]) <= multiset(s)
    ensures forall x, y :: x in multiset(s) - multiset(s[..k]) && y in s[..k] ==> key(x) <= key(y)
  {
    var r := s[..k];
    assert s == r + s[k..];
    assert multiset(s) == multiset(r) + multiset(s[k..]);
    forall x, y | x in multiset(s) - multiset(r) && y in r
      ensures key(x) <= key(y)
    {
      assert x in multiset(s[k..]);
      assert x in s[k..];
      var j :| k <= j < |s| && s[j] == x;
      var i :| 0 <= i < k && s[i] == y;
    }
  }

  /** `find(query).sort(key, -1).limit(n)`: the `limit` newest documents
      satisfying `p`, newest first. */
  function NewestMatching<T(!new)>(s: seq<T>, p: T -> bool, key: T -> nat, limit: nat): (r: seq<T>)
    ensures |r| == Min(limit, |Filter(s, p)|)
    ensures Descending(r, key)
    ensures multiset(r) <= multiset(Filter(s, p))
    ensures |Filter(s, p)| <= limit ==> multiset(r) == multiset(Filter(s, p))
    ensures forall x :: x in r ==> x in s && p(x)
    ensures forall x, y :: x in multiset(Filter(s, p)) - multiset(r) && y in r ==> key(x) <= key(y)
  {
    var mine := Filter(s, p);
    var r := NewestFirst(mine, key, limit);
    assert forall x :: x in r ==> x in mine by {
      forall x | x in r
        ensures x in mine
      {
        assert x in multiset(r);
      }
    }
    if |mine| <= limit then
      SubMultisetOfSameSize(multiset(r), multiset(mine));
      r
    else r
  }

  /** A sub-multiset as large as the whole is the whole. */
  lemma {:induction false} SubMultisetOfSameSize<T>(a: multiset<T>, b: multiset<T>)
    requires a <= b && |a| == |b|
    ensures a == b
  {
    assert b == a + (b - a);
    assert |b - a| == 0;
  }

  /** The newest document, when there is one: a one-document newest-first
      read. */
  lemma {:induction false} NewestIsFirst<T(!new)>(s: seq<T>, key: T -> nat)
    requires |s| > 0
    ensures var r := NewestFirst(s, key, 1);
      |r| == 1 && r[0] in s && forall x :: x in s ==> key(x) <= key(r[0])
  {
    var r := NewestFirst(s, key, 1);
    assert r[0] in multiset(s);
    forall x | x in s
      ensures key(x) <= key(r[0])
    {
      if x !in multiset(s) - multiset(r) {
        assert multiset(s)[x] <= multiset(r)[x];
        assert x in r;
      }
    }
  }
}

/** The order FAISS ranks by: ascending score, ties by number. One sort serves both the
    ranking of cells by the quantizer and the selection of the k best stored vectors. */
module Ranking {
  import opened Bytes

  datatype Hit = Hit(score: int, num: nat)

  predicate Before(a: Hit, b: Hit) {
    a.score < b.score || (a.score == b.score && a.num < b.num)
  }

  ghost predicate Ascending(s: seq<Hit>) {
    forall i, j | 0 <= i < j < |s| :: Before(s[i], s[j])
  }

  ghost predicate NoRepeats<T>(s: seq<T>) {
    forall i, j | 0 <= i < j < |s| :: s[i] != s[j]
  }

  function Insert(h: Hit, s: seq<Hit>): (r: seq<Hit>)
    ensures multiset(r) == multiset(s) + multiset{h}
  {
    if s == [] then [h]
    else if Before(h, s[0]) then [h] + s
    else
      assert s == [s[0]] + s[1..];
      [s[0]] + Insert(h, s[1..])
  }

  function Sort(s: seq<Hit>): (r: seq<Hit>)
    ensures multiset(r) == multiset(s)
    ensures |r| == |s|
  {
    if s == [] then []
    else
      assert s == [s[0]] + s[1..];
      var r := Insert(s[0], Sort(s[1..]));
      assert |r| == |multiset(r)| == |multiset(s)| == |s|;
      r
  }

  /** The k first of the sorted pool, fewer when the pool is smaller. */
  function Best(pool: seq<Hit>, k: nat): (r: seq<Hit>)
    ensures |r| == Min(k, |pool|)
  {
    Sort(pool)[..Min(k, |pool|)]
  }

  /** What "the k best of the pool" means, without reference to any sorting:
      in order, drawn from the pool, at most k, everything when fewer than k,
      and nothing left out comes before something taken. */
  ghost predicate IsBest(best: seq<Hit>, pool: set<Hit>, k: nat) {
    && Ascending(best)
    && (forall h | h in best :: h in pool)
    && |best| <= k
    && (|best| < k ==> forall h | h in pool :: h in best)
    && (forall b, h | b in best && h in pool && h !in best :: Before(b, h))
  }

  ghost function Pool(s: seq<Hit>): (r: set<Hit>) {
    set h | h in s
  }

  lemma {:induction false} InsertAscends(h: Hit, s: seq<Hit>)
    requires Ascending(s) && h !in s
    ensures Ascending(Insert(h, s))
  {
    if s != [] && !Before(h, s[0]) {
      assert s[0] in s;
      InsertAscends(h, s[1..]);
      var r := Insert(h, s[1..]);
      forall j | 0 <= j < |r|
        ensures Before(s[0], r[j])
      {
        assert r[j] in multiset(r);
        assert r[j] == h || r[j] in s[1..];
      }
    }
  }

  lemma {:induction false} SortAscends(s: seq<Hit>)
    requires NoRepeats(s)
    ensures Ascending(Sort(s))
  {
    if s != [] {
      SortAscends(s[1..]);
      var t := Sort(s[1..]);
      forall h | h in t
        ensures h in s[1..]
      {
        assert h in multiset(t);
      }
      InsertAscends(s[0], t);
    }
  }

  /** Sorting and cutting does select the k best. */
  lemma BestIsBest(pool: seq<Hit>, k: nat)
    requires NoRepeats(pool)
    ensures IsBest(Best(pool, k), Pool(pool), k)
  {
    SortAscends(pool);
    SameHits(pool);
    FrontIsBest(Sort(pool), Min(k, |pool|), k, Pool(pool));
  }

  lemma SameHits(pool: seq<Hit>)
    ensures forall h :: h in Sort(pool) <==> h in Pool(pool)
  {
    forall h
      ensures h in Sort(pool) <==> h in Pool(pool)
    {
      assert h in Sort(pool) <==> h in multiset(Sort(pool));
      assert h in pool <==> h in multiset(pool);
    }
  }

  lemma FrontIsBest(s: seq<Hit>, m: nat, k: nat, pool: set<Hit>)
    requires Ascending(s) && m == Min(k, |s|) && forall h :: h in s <==> h in pool
    ensures IsBest(s[..m], pool, k)
  {
    assert m < k ==> s[..m] == s;
    forall b, h | b in s[..m] && h in pool && h !in s[..m]
      ensures Before(b, h)
    {
      var j :| 0 <= j < |s| && s[j] == h;
      var i :| 0 <= i < m && s[i] == b;
      assert forall x | 0 <= x < m :: s[x] == s[..m][x];
    }
  }

  /** There is only one answer to "the k best". */
  lemma {:induction false} BestIsUnique(a: seq<Hit>, b: seq<Hit>, pool: set<Hit>, k: nat)
    requires IsBest(a, pool, k) && IsBest(b, pool, k)
    ensures a == b
    decreases k
  {
    assert a != [] ==> a[0] in a;
    assert b != [] ==> b[0] in b;
    if a != [] && b != [] {
      Head(a, b, pool, k);
      Tail(a, pool, k);
      Tail(b, pool, k);
      BestIsUnique(a[1..], b[1..], pool - {a[0]}, k - 1);
      assert a == [a[0]] + a[1..];
      assert b == [b[0]] + b[1..];
    }
  }

  lemma Head(a: seq<Hit>, b: seq<Hit>, pool: set<Hit>, k: nat)
    requires IsBest(a, pool, k) && IsBest(b, pool, k) && a != [] && b != []
    ensures a[0] == b[0]
  {
    Least(a, pool, k, b[0]);
    Least(b, pool, k, a[0]);
  }

  lemma Least(a: seq<Hit>, pool: set<Hit>, k: nat, h: Hit)
    requires IsBest(a, pool, k) && a != [] && h in pool
    ensures h == a[0] || Before(a[0], h)
  {
    assert a[0] in a;
    if h in a {
      var i :| 0 <= i < |a| && a[i] == h;
    }
  }

  lemma Tail(a: seq<Hit>, pool: set<Hit>, k: nat)
    requires IsBest(a, pool, k) && a != []
    ensures IsBest(a[1..], pool - {a[0]}, k - 1)
  {
    var rest := pool - {a[0]};
    assert forall h | h in a :: h == a[0] || h in a[1..];
    forall h | h in a[1..]
      ensures h in rest
    {
      var i :| 1 <= i < |a| && a[i] == h;
      assert Before(a[0], a[i]);
    }
    forall b, h | b in a[1..] && h in rest && h !in a[1..]
      ensures Before(b, h)
    {
      assert b in a && h !in a;
    }
  }
}

/**
 * The list the GET branch of `ReviewAnalyzerServer.__call__` (server.py)
 * assembles: one record per filtered review carrying its sentiment scores,
 * then `results.sort(key=compound, reverse=True)`, a stable sort in place.
 *
 * A stable sort in descending order of `compound` puts record `i` of the input
 * before record `j` exactly when `i`'s compound is larger, or the two are
 * equal and `i < j`. The sorted list is described by the permutation of
 * input positions it realises.
 */
module Listing {
  import opened Filtering
  import opened Subsequences

  /** The scores the sentiment analyser gives a text; only `compound` orders the list. */
  datatype Sentiment = Sentiment(neg: real, neu: real, pos: real, compound: real)

  /** One element of the GET response: a review's four fields and its sentiment. */
  datatype Record = Record(reviewId: string, reviewBody: string, location: string, timestamp: string,
                           sentiment: Sentiment)

  /** The review a record was made from: the record without its sentiment. */
  function ReviewOf(rec: Record): Review {
    Review(rec.reviewId, rec.reviewBody, rec.location, rec.timestamp)
  }

  /** The record of a review: its four fields unchanged, and the scores of its body. */
  function AsRecord(r: Review, score: string -> Sentiment): (rec: Record)
    ensures ReviewOf(rec) == r && rec.sentiment == score(r.reviewBody)
  {
    Record(r.reviewId, r.reviewBody, r.location, r.timestamp, score(r.reviewBody))
  }

  /** The records in filter order, before sorting: one per review, in the same order. */
  function Annotated(rs: seq<Review>, score: string -> Sentiment): (recs: seq<Record>)
    ensures |recs| == |rs|
    ensures forall k :: 0 <= k < |rs| ==> ReviewOf(recs[k]) == rs[k] && recs[k].sentiment == score(rs[k].reviewBody)
  {
    seq(|rs|, k requires 0 <= k < |rs| => AsRecord(rs[k], score))
  }

  /** Input record `i` goes before input record `j` in the stably sorted list. */
  predicate Ahead(inp: seq<Record>, i: int, j: int)
    requires 0 <= i < |inp| && 0 <= j < |inp|
  {
    inp[i].sentiment.compound > inp[j].sentiment.compound ||
    (inp[i].sentiment.compound == inp[j].sentiment.compound && i < j)
  }

  /** `perm` lists every position `0 .. n-1` exactly once. */
  ghost predicate IsIndexPermutation(perm: seq<int>, n: int) {
    |perm| == n &&
    (forall k :: 0 <= k < n ==> 0 <= perm[k] < n) &&
    (forall k, l :: 0 <= k < l < n ==> perm[k] != perm[l]) &&
    (forall i :: 0 <= i < n ==> i in perm)
  }

  /** `out` places input record `perm[k]` at position `k`, in the order `Ahead` prescribes. */
  ghost predicate StablyRanks(out: seq<Record>, inp: seq<Record>, perm: seq<int>) {
    |out| == |inp| && IsIndexPermutation(perm, |inp|) &&
    (forall k :: 0 <= k < |out| ==> out[k] == inp[perm[k]]) &&
    (forall k, l :: 0 <= k < l < |out| ==> Ahead(inp, perm[k], perm[l]))
  }

  /** `out` is what a stable sort of `inp` by descending `compound` produces. */
  ghost predicate IsStableSortDesc(out: seq<Record>, inp: seq<Record>) {
    exists perm :: StablyRanks(out, inp, perm)
  }

  /** The positions `0 .. n-1` in order. */
  function Positions(n: nat): (r: seq<int>)
    ensures |r| == n && forall k :: 0 <= k < n ==> r[k] == k
  {
    if n == 0 then [] else Positions(n - 1) + [n - 1]
  }

  /** `perm` lists each of the positions `0 .. n-1` exactly once. */
  ghost predicate CoversPositions(perm: seq<int>, n: nat) {
    multiset(perm) == multiset(Positions(n))
  }

  /** `s` holds input record `perm[k]` at each position `k`, and no position is used twice. */
  ghost predicate Tracks(s: seq<Record>, inp: seq<Record>, perm: seq<int>) {
    |s| == |inp| && |perm| == |inp| &&
    (forall k :: 0 <= k < |perm| ==> 0 <= perm[k] < |inp|) &&
    (forall k, l :: 0 <= k < l < |perm| ==> perm[k] != perm[l]) &&
    (forall k :: 0 <= k < |s| ==> s[k] == inp[perm[k]]) &&
    multiset(s) == multiset(inp)
  }

  /** Bookkeeping of the in-place sort: where each record of the input now is. */
  ghost predicate Arranges(s: seq<Record>, inp: seq<Record>, perm: seq<int>) {
    Tracks(s, inp, perm) && CoversPositions(perm, |inp|)
  }

  lemma SwapSameMultiset<T>(s: seq<T>, i: int, j: int)
    requires 0 <= i < |s| && 0 <= j < |s|
    ensures multiset(s[i := s[j]][j := s[i]]) == multiset(s)
  {
  }

  lemma SwapKeepsCover(perm: seq<int>, n: nat, j: int)
    requires CoversPositions(perm, n) && 0 < j < |perm|
    ensures CoversPositions(perm[j - 1 := perm[j]][j := perm[j - 1]], n)
  {
    SwapSameMultiset(perm, j - 1, j);
  }

  lemma SwapKeepsTracking(s: seq<Record>, inp: seq<Record>, perm: seq<int>, j: int)
    requires Tracks(s, inp, perm) && 0 < j < |s|
    ensures Tracks(s[j - 1 := s[j]][j := s[j - 1]], inp, perm[j - 1 := perm[j]][j := perm[j - 1]])
  {
    SwapSameMultiset(s, j - 1, j);
  }

  /** Exchanging two neighbours, in the array and in the permutation, keeps the bookkeeping. */
  lemma SwapKeepsArrangement(s: seq<Record>, inp: seq<Record>, perm: seq<int>, j: int)
    requires Arranges(s, inp, perm) && 0 < j < |s|
    ensures Arranges(s[j - 1 := s[j]][j := s[j - 1]], inp, perm[j - 1 := perm[j]][j := perm[j - 1]])
  {
    SwapKeepsTracking(s, inp, perm, j);
    SwapKeepsCover(perm, |inp|, j);
  }

  /**
   * Midway through inserting input record `i`: it sits at position `j`, the
   * other positions up to `i` hold the records already sorted, in order, and
   * it goes before everything to its right.
   */
  ghost predicate Inserting(inp: seq<Record>, perm: seq<int>, i: int, j: int) {
    0 <= j <= i < |perm| && i < |inp| &&
    (forall k :: 0 <= k <= i ==> 0 <= perm[k] < |inp|) &&
    perm[j] == i &&
    (forall k :: 0 <= k <= i && k != j ==> perm[k] < i) &&
    (forall k, l :: 0 <= k < l <= i && k != j && l != j ==> Ahead(inp, perm[k], perm[l])) &&
    (forall l :: j < l <= i ==> Ahead(inp, perm[j], perm[l]))
  }

  /** Moving the record one place left past a record of smaller compound keeps the order. */
  lemma InsertionStep(inp: seq<Record>, perm: seq<int>, i: int, j: int)
    requires Inserting(inp, perm, i, j) && 0 < j
    requires inp[perm[j - 1]].sentiment.compound < inp[perm[j]].sentiment.compound
    ensures Inserting(inp, perm[j - 1 := perm[j]][j := perm[j - 1]], i, j - 1)
  {
  }

  /** Once the record meets one of at least its compound, positions `0 .. i` are in order. */
  lemma InsertionDone(inp: seq<Record>, perm: seq<int>, i: int, j: int)
    requires Inserting(inp, perm, i, j)
    requires j > 0 ==> inp[perm[j - 1]].sentiment.compound >= inp[perm[j]].sentiment.compound
    ensures forall k, l :: 0 <= k < l <= i ==> Ahead(inp, perm[k], perm[l])
  {
    forall k | 0 <= k < j ensures Ahead(inp, perm[k], perm[j]) {
      if k < j - 1 {
        assert Ahead(inp, perm[k], perm[j - 1]);
      }
    }
  }

  /**
   * One step of the insertion sort: the record at position `i` moves left past
   * every record of strictly smaller compound, so that positions `0 .. i` are
   * in `Ahead` order.
   */
  method InsertLeft(a: array<Record>, i: int, ghost inp: seq<Record>, ghost perm0: seq<int>)
    returns (ghost perm: seq<int>)
    requires 0 <= i < a.Length
    requires Arranges(a[..], inp, perm0)
    requires forall k :: i <= k < a.Length ==> perm0[k] == k
    requires forall k :: 0 <= k < i ==> perm0[k] < i
    requires forall k, l :: 0 <= k < l < i ==> Ahead(inp, perm0[k], perm0[l])
    modifies a
    ensures Arranges(a[..], inp, perm)
    ensures forall k :: i < k < a.Length ==> perm[k] == k
    ensures forall k :: 0 <= k <= i ==> perm[k] <= i
    ensures forall k, l :: 0 <= k < l <= i ==> Ahead(inp, perm[k], perm[l])
  {
    perm := perm0;
    var j := i;
    while j > 0 && a[j - 1].sentiment.compound < a[j].sentiment.compound
      invariant Arranges(a[..], inp, perm)
      invariant Inserting(inp, perm, i, j)
      invariant forall k :: i < k < a.Length ==> perm[k] == k
    {
      SwapKeepsArrangement(a[..], inp, perm, j);
      InsertionStep(inp, perm, i, j);
      ghost var before := a[..];
      a[j - 1], a[j] := a[j], a[j - 1];
      assert a[..] == before[j - 1 := before[j]][j := before[j - 1]];
      perm := perm[j - 1 := perm[j]][j := perm[j - 1]];
      j := j - 1;
    }
    InsertionDone(inp, perm, i, j);
  }

  /**
   * `results.sort(key=lambda x: x['sentiment']['compound'], reverse=True)`, as an
   * insertion sort that moves each record left past the records of strictly
   * smaller compound (never past an equal one, which keeps it stable).
   */
  method SortByCompoundDesc(a: array<Record>) returns (ghost perm: seq<int>)
    modifies a
    ensures StablyRanks(a[..], old(a[..]), perm)
    ensures multiset(a[..]) == multiset(old(a[..]))
  {
    ghost var inp := a[..];
    var n := a.Length;
    perm := Positions(n);
    var i := 0;
    while i < n
      invariant 0 <= i <= n
      invariant Arranges(a[..], inp, perm)
      invariant forall k :: i <= k < n ==> perm[k] == k
      invariant forall k :: 0 <= k < i ==> perm[k] < i
      invariant forall k, l :: 0 <= k < l < i ==> Ahead(inp, perm[k], perm[l])
    {
      perm := InsertLeft(a, i, inp, perm);
      i := i + 1;
    }
    forall x | 0 <= x < n ensures x in perm {
      assert Positions(n)[x] == x;
      assert x in multiset(Positions(n));
    }
  }

  // ---------------------------------------------------------------------------
  // What the sorted list is

  /**
   * Two lists of input positions, each strictly in `Ahead` order and holding
   * the same positions, are the same list.
   */
  lemma {:induction false} AheadOrderUnique(inp: seq<Record>, p1: seq<int>, p2: seq<int>)
    requires forall k :: 0 <= k < |p1| ==> 0 <= p1[k] < |inp|
    requires forall k :: 0 <= k < |p2| ==> 0 <= p2[k] < |inp|
    requires forall k, l :: 0 <= k < l < |p1| ==> Ahead(inp, p1[k], p1[l])
    requires forall k, l :: 0 <= k < l < |p2| ==> Ahead(inp, p2[k], p2[l])
    requires forall x :: x in p1 <==> x in p2
    ensures p1 == p2
    decreases |p1|
  {
    assert p2 != [] ==> p2[0] in p1;
    if p1 != [] {
      var a := p1[0];
      assert a in p1 && p2 != [] && p2[0] in p2;
      assert p2[0] == a;
      forall x ensures x in p1[1..] <==> x in p2[1..] {
        if x in p1[1..] {
          var k :| 1 <= k < |p1| && p1[k] == x;
          assert Ahead(inp, p1[0], p1[k]);
        }
        if x in p2[1..] {
          var k :| 1 <= k < |p2| && p2[k] == x;
          assert Ahead(inp, p2[0], p2[k]);
        }
        if x in p1 && x != a {
          var k :| 0 <= k < |p1| && p1[k] == x;
          assert p1[1..][k - 1] == x;
        }
        if x in p2 && x != a {
          var k :| 0 <= k < |p2| && p2[k] == x;
          assert p2[1..][k - 1] == x;
        }
      }
      AheadOrderUnique(inp, p1[1..], p2[1..]);
      assert p1 == [a] + p1[1..] && p2 == [a] + p2[1..];
    }
  }

  /**
   * A stable sort has exactly one possible result: any two lists that are
   * stable descending sorts of the same records are equal.
   */
  lemma StableSortUnique(out1: seq<Record>, out2: seq<Record>, inp: seq<Record>)
    requires IsStableSortDesc(out1, inp) && IsStableSortDesc(out2, inp)
    ensures out1 == out2
  {
    var p1 :| StablyRanks(out1, inp, p1);
    var p2 :| StablyRanks(out2, inp, p2);
    AheadOrderUnique(inp, p1, p2);
  }

  /** The records of compound `c`. */
  function HasCompound(c: real): Record -> bool {
    (x: Record) => x.sentiment.compound == c
  }

  /** The input positions that hold a record of compound `c`. */
  function AtCompound(inp: seq<Record>, c: real): int -> bool {
    (i: int) => 0 <= i < |inp| && inp[i].sentiment.compound == c
  }

  /** The input records at the positions `q`, in that order. */
  function Pick(inp: seq<Record>, q: seq<int>): (r: seq<Record>)
    requires forall k :: 0 <= k < |q| ==> 0 <= q[k] < |inp|
    ensures |r| == |q| && forall k :: 0 <= k < |q| ==> r[k] == inp[q[k]]
  {
    seq(|q|, k requires 0 <= k < |q| => inp[q[k]])
  }

  /** Selection keeps any relation that holds between every earlier and later element. */
  lemma {:induction false} KeepPairwise<T>(s: seq<T>, p: T -> bool, rel: (T, T) -> bool)
    requires forall k, l :: 0 <= k < l < |s| ==> rel(s[k], s[l])
    ensures forall k, l :: 0 <= k < l < |Keep(s, p)| ==> rel(Keep(s, p)[k], Keep(s, p)[l])
  {
    if s != [] {
      KeepPairwise(s[1..], p, rel);
      var rest := Keep(s[1..], p);
      var r := Keep(s, p);
      if p(s[0]) {
        assert r == [s[0]] + rest;
        forall k, l | 0 <= k < l < |r| ensures rel(r[k], r[l]) {
          if k == 0 {
            assert r[l] == rest[l - 1] && rest[l - 1] in s[1..];
            var m :| 0 <= m < |s[1..]| && s[1..][m] == r[l];
            assert s[m + 1] == r[l] && r[0] == s[0];
            assert rel(s[0], s[m + 1]);
          } else {
            assert r[k] == rest[k - 1] && r[l] == rest[l - 1];
            assert rel(rest[k - 1], rest[l - 1]);
          }
        }
      } else {
        assert r == rest;
      }
    }
  }

  /** The positions selected from in-range positions are in range. */
  lemma KeptInRange(inp: seq<Record>, q: seq<int>, c: real)
    requires forall k :: 0 <= k < |q| ==> 0 <= q[k] < |inp|
    ensures var kept := Keep(q, AtCompound(inp, c)); forall k :: 0 <= k < |kept| ==> 0 <= kept[k] < |inp|
  {
    var kept := Keep(q, AtCompound(inp, c));
    forall k | 0 <= k < |kept| ensures 0 <= kept[k] < |inp| {
      assert kept[k] in kept;
    }
  }

  /** Selecting by compound after picking is picking the positions of that compound. */
  lemma {:induction false} KeepOfPicked(inp: seq<Record>, q: seq<int>, c: real)
    requires forall k :: 0 <= k < |q| ==> 0 <= q[k] < |inp|
    ensures var kept := Keep(q, AtCompound(inp, c));
            (forall k :: 0 <= k < |kept| ==> 0 <= kept[k] < |inp|) &&
            Keep(Pick(inp, q), HasCompound(c)) == Pick(inp, kept)
  {
    KeptInRange(inp, q, c);
    if q != [] {
      KeepOfPicked(inp, q[1..], c);
      var picked := Pick(inp, q);
      assert picked == [inp[q[0]]] + Pick(inp, q[1..]);
      var inHead := inp[q[0]].sentiment.compound == c;
      assert AtCompound(inp, c)(q[0]) == inHead && HasCompound(c)(inp[q[0]]) == inHead;
      var tail := Keep(q[1..], AtCompound(inp, c));
      KeptInRange(inp, q[1..], c);
      if inHead {
        assert Keep(q, AtCompound(inp, c)) == [q[0]] + tail;
        assert Pick(inp, [q[0]] + tail) == [inp[q[0]]] + Pick(inp, tail);
      } else {
        assert Keep(q, AtCompound(inp, c)) == tail;
      }
    }
  }

  /**
   * Stability: the records of any one compound come out in the order they
   * had going in.
   */
  lemma SameCompoundSameOrder(out: seq<Record>, inp: seq<Record>, perm: seq<int>, c: real)
    requires StablyRanks(out, inp, perm)
    ensures Keep(out, HasCompound(c)) == Keep(inp, HasCompound(c))
  {
    var n := |inp|;
    var ids := Positions(n);
    assert out == Pick(inp, perm);
    assert inp == Pick(inp, ids);
    KeepOfPicked(inp, perm, c);
    KeepOfPicked(inp, ids, c);
    var q1 := Keep(perm, AtCompound(inp, c));
    var q2 := Keep(ids, AtCompound(inp, c));
    var ahead := (i: int, j: int) => 0 <= i < n && 0 <= j < n && Ahead(inp, i, j);
    KeepPairwise(perm, AtCompound(inp, c), ahead);
    KeepPairwise(ids, AtCompound(inp, c), (i: int, j: int) => i < j);
    forall k, l | 0 <= k < l < |q2| ensures Ahead(inp, q2[k], q2[l]) {
      assert q2[k] in q2 && q2[l] in q2;
      KeepMembers(ids, AtCompound(inp, c), q2[k]);
      KeepMembers(ids, AtCompound(inp, c), q2[l]);
    }
    forall x ensures x in q1 <==> x in q2 {
      KeepMembers(perm, AtCompound(inp, c), x);
      KeepMembers(ids, AtCompound(inp, c), x);
      if 0 <= x < n {
        assert ids[x] == x;
      }
    }
    AheadOrderUnique(inp, q1, q2);
  }

  /**
   * The sorted list holds the same records as its input, as many times each,
   * in non-increasing order of compound, and records of equal compound keep
   * their input order. Equal multisets give, in particular, the same members.
   */
  lemma StableSortProperties(out: seq<Record>, inp: seq<Record>)
    requires IsStableSortDesc(out, inp)
    ensures |out| == |inp|
    ensures multiset(out) == multiset(inp)
    ensures forall k, l :: 0 <= k < l < |out| ==> out[k].sentiment.compound >= out[l].sentiment.compound
    ensures forall c :: Keep(out, HasCompound(c)) == Keep(inp, HasCompound(c))
  {
    var perm :| StablyRanks(out, inp, perm);
    forall c ensures Keep(out, HasCompound(c)) == Keep(inp, HasCompound(c)) {
      SameCompoundSameOrder(out, inp, perm, c);
    }
    forall x ensures multiset(out)[x] == multiset(inp)[x] {
      var c := x.sentiment.compound;
      KeepMultiplicity(out, HasCompound(c), x);
      KeepMultiplicity(inp, HasCompound(c), x);
    }
    assert multiset(out) == multiset(inp);
  }

  /** A list already in non-increasing order of compound is its own stable sort. */
  lemma AlreadySortedIsItsSort(inp: seq<Record>)
    requires forall k, l :: 0 <= k < l < |inp| ==> inp[k].sentiment.compound >= inp[l].sentiment.compound
    ensures IsStableSortDesc(inp, inp)
  {
    var perm := Positions(|inp|);
    forall i | 0 <= i < |inp| ensures i in perm {
      assert perm[i] == i;
    }
    assert StablyRanks(inp, inp, perm);
  }
}

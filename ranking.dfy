/**
 * The order produced by `scored.sort((a, b) => b.score - a.score)` in the vector store.
 * `Array.prototype.sort` is stable, so the comparator by score alone yields a strict total
 * order on positions: a higher score first, and among equal scores the earlier position first.
 * Positions index the scanned documents; `s[i]` is the score of the document at position i.
 */
module Ranking {

  /** Position i is placed strictly before position j by the stable descending sort. */
  predicate Before(s: seq<real>, i: nat, j: nat) {
    i < |s| && j < |s| && (s[i] > s[j] || (s[i] == s[j] && i < j))
  }

  /** `p` lists positions of `s` in the order the stable descending sort places them. */
  predicate Ranked(s: seq<real>, p: seq<nat>) {
    (forall k :: 0 <= k < |p| ==> p[k] < |s|) &&
    (forall k, l :: 0 <= k < l < |p| ==> Before(s, p[k], p[l]))
  }

  /** Inserts position x into p ahead of the first position it is placed before. */
  function Insert(s: seq<real>, p: seq<nat>, x: nat): (r: seq<nat>)
    ensures |r| == |p| + 1
    ensures forall y :: y in r <==> y in p || y == x
  {
    if p == [] || Before(s, x, p[0]) then [x] + p
    else [p[0]] + Insert(s, p[1..], x)
  }

  /** The positions 0 .. n-1 in stable descending order, built by insertion. */
  function RankPrefix(s: seq<real>, n: nat): (r: seq<nat>)
    requires n <= |s|
    ensures |r| == n
    ensures forall y :: y in r <==> 0 <= y < n
  {
    if n == 0 then [] else Insert(s, RankPrefix(s, n - 1), n - 1)
  }

  /** The reference ranking of all positions of s. */
  function Rank(s: seq<real>): (r: seq<nat>)
    ensures |r| == |s|
  {
    RankPrefix(s, |s|)
  }

  /** Inserting a position not yet listed keeps a list ranked. */
  lemma {:induction false} InsertRanked(s: seq<real>, p: seq<nat>, x: nat)
    requires Ranked(s, p) && x < |s| && x !in p
    ensures Ranked(s, Insert(s, p, x))
  {
    if p == [] || Before(s, x, p[0]) {
      var r := [x] + p;
      assert Insert(s, p, x) == r;
      forall k, l | 0 <= k < l < |r| ensures Before(s, r[k], r[l]) {
        assert r[l] == p[l - 1];
        if k == 0 {
          if l > 1 {
            assert Before(s, p[0], p[l - 1]);
          }
        } else {
          assert r[k] == p[k - 1];
        }
      }
    } else {
      var tail := Insert(s, p[1..], x);
      InsertRanked(s, p[1..], x);
      var r := [p[0]] + tail;
      assert Insert(s, p, x) == r;
      forall l | 0 <= l < |tail| ensures Before(s, p[0], tail[l]) {
        assert tail[l] in tail;
        if tail[l] != x {
          var m :| 0 <= m < |p[1..]| && p[1..][m] == tail[l];
          assert p[m + 1] == tail[l];
        }
      }
      forall k, l | 0 <= k < l < |r| ensures Before(s, r[k], r[l]) {
        assert r[l] == tail[l - 1];
        if k > 0 {
          assert r[k] == tail[k - 1];
        }
      }
    }
  }

  /** The reference ranking is ranked and lists every position exactly once. */
  lemma {:induction false} RankPrefixRanked(s: seq<real>, n: nat)
    requires n <= |s|
    ensures Ranked(s, RankPrefix(s, n))
  {
    if n > 0 {
      RankPrefixRanked(s, n - 1);
      InsertRanked(s, RankPrefix(s, n - 1), n - 1);
    }
  }

  /** Corollary for the whole score list. */
  lemma RankRanked(s: seq<real>)
    ensures Ranked(s, Rank(s))
    ensures forall y :: y in Rank(s) <==> 0 <= y < |s|
  {
    RankPrefixRanked(s, |s|);
  }

  /** In a ranked list the tail holds exactly the elements other than the head. */
  lemma TailMembers(s: seq<real>, p: seq<nat>)
    requires Ranked(s, p) && p != []
    ensures forall y :: y in p[1..] <==> y in p && y != p[0]
  {
  }

  /** A sequence is empty exactly when nothing is a member of it. */
  lemma EmptyIffNoMembers(p: seq<nat>)
    ensures p == [] <==> forall y :: y !in p
  {
    if p != [] {
      assert p[0] in p;
    }
  }

  /**
   * The ranking contract determines the output: two ranked lists over the same positions
   * are equal. Any correct stable descending sort therefore agrees with Rank.
   */
  lemma {:induction false} RankingUnique(s: seq<real>, p: seq<nat>, q: seq<nat>)
    requires Ranked(s, p) && Ranked(s, q)
    requires forall y :: y in p <==> y in q
    ensures p == q
  {
    EmptyIffNoMembers(p);
    EmptyIffNoMembers(q);
    if p != [] {
      assert p[0] in p && q[0] in q;
      var m :| 0 <= m < |q| && q[m] == p[0];
      var l :| 0 <= l < |p| && p[l] == q[0];
      assert m > 0 ==> Before(s, q[0], p[0]);
      assert l > 0 ==> Before(s, p[0], q[0]);
      assert p[0] == q[0];
      TailMembers(s, p);
      TailMembers(s, q);
      RankingUnique(s, p[1..], q[1..]);
      assert p == [p[0]] + p[1..];
      assert q == [q[0]] + q[1..];
    }
  }
}

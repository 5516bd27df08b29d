/**
 * The in-memory vector store: an append-only list of embedded documents with a full
 * linear-scan similarity search. The similarity measure (`cosineSimilarity`) is a
 * parameter `score`, applied as `score(query, doc.embedding)`.
 */
module VectorStore {
  import opened Common
  import opened Ranking

  type Vector = seq<real>

  /** A metadata value as the service reads it; a missing key stands for `undefined`. */
  datatype MetaValue = Null | Bool(b: bool) | Num(n: int) | Str(s: string)

  /** `Record<string, any>`, restricted to the values the service interpolates. */
  type Metadata = map<string, MetaValue>

  datatype StoredDocument = StoredDocument(id: string, text: string, metadata: Option<Metadata>, embedding: Vector)

  datatype SearchResult = SearchResult(doc: StoredDocument, score: real)

  /** The similarity of each stored document to the query, in storage order. */
  function Scores(docs: seq<StoredDocument>, query: Vector, score: (Vector, Vector) -> real): (s: seq<real>)
    ensures |s| == |docs|
    ensures forall i :: 0 <= i < |docs| ==> s[i] == score(query, docs[i].embedding)
  {
    seq(|docs|, i requires 0 <= i < |docs| => score(query, docs[i].embedding))
  }

  /**
   * The number of results `slice(0, Math.min(topK, n))` keeps from n scored documents.
   * A negative topK is an end index counted from the back, so it drops that many from the tail.
   */
  function SliceEnd(n: nat, topK: int): (t: nat)
    ensures t <= n
    ensures 0 <= topK ==> t == (if topK < n then topK else n)
    ensures topK < 0 ==> t == (if n + topK > 0 then n + topK else 0)
  {
    var end := if topK < n then topK else n;
    if end >= 0 then end else if n + end > 0 then n + end else 0
  }

  /** The storage positions of the documents a search returns, best first. */
  function SearchPositions(docs: seq<StoredDocument>, query: Vector, topK: int, score: (Vector, Vector) -> real): (pos: seq<nat>)
    ensures |pos| == SliceEnd(|docs|, topK)
  {
    Rank(Scores(docs, query, score))[..SliceEnd(|docs|, topK)]
  }

  /** The reference result of `similaritySearch(query, topK)` over the stored documents. */
  function Search(docs: seq<StoredDocument>, query: Vector, topK: int, score: (Vector, Vector) -> real): (r: seq<SearchResult>)
    ensures |r| == SliceEnd(|docs|, topK)
  {
    var s := Scores(docs, query, score);
    var pos := SearchPositions(docs, query, topK, score);
    RankRanked(s);
    seq(|pos|, k requires 0 <= k < |pos| => SearchResult(docs[pos[k]], s[pos[k]]))
  }

  /** Each result pairs a distinct stored document with that document's similarity to the query. */
  lemma SearchIsSelection(docs: seq<StoredDocument>, query: Vector, topK: int, score: (Vector, Vector) -> real)
    ensures var pos := SearchPositions(docs, query, topK, score);
            var r := Search(docs, query, topK, score);
            |pos| == |r| &&
            (forall k :: 0 <= k < |r| ==>
               pos[k] < |docs| && r[k] == SearchResult(docs[pos[k]], score(query, docs[pos[k]].embedding))) &&
            (forall k, l :: 0 <= k < l < |r| ==> pos[k] != pos[l])
  {
    var s := Scores(docs, query, score);
    RankRanked(s);
    var pos := SearchPositions(docs, query, topK, score);
    forall k, l | 0 <= k < l < |pos| ensures pos[k] != pos[l] {
      assert Before(s, Rank(s)[k], Rank(s)[l]);
    }
  }

  /**
   * Results come in non-increasing score order, and results with equal scores keep the
   * order in which their documents were stored.
   */
  lemma SearchOrdered(docs: seq<StoredDocument>, query: Vector, topK: int, score: (Vector, Vector) -> real)
    ensures var pos := SearchPositions(docs, query, topK, score);
            var r := Search(docs, query, topK, score);
            forall k, l :: 0 <= k < l < |r| ==>
              r[k].score >= r[l].score && (r[k].score == r[l].score ==> pos[k] < pos[l])
  {
    var s := Scores(docs, query, score);
    RankRanked(s);
    var pos := SearchPositions(docs, query, topK, score);
    var r := Search(docs, query, topK, score);
    forall k, l | 0 <= k < l < |r|
      ensures r[k].score >= r[l].score && (r[k].score == r[l].score ==> pos[k] < pos[l])
    {
      assert Before(s, Rank(s)[k], Rank(s)[l]);
    }
  }

  /**
   * Top-K selection: a stored document left out of the results scores no higher than any
   * returned one, and on a tie it was stored after that one.
   */
  lemma SearchSelectsTop(docs: seq<StoredDocument>, query: Vector, topK: int, score: (Vector, Vector) -> real, j: nat)
    requires j < |docs| && j !in SearchPositions(docs, query, topK, score)
    ensures var pos := SearchPositions(docs, query, topK, score);
            var r := Search(docs, query, topK, score);
            forall k :: 0 <= k < |r| ==>
              score(query, docs[j].embedding) <= r[k].score &&
              (score(query, docs[j].embedding) == r[k].score ==> pos[k] < j)
  {
    var s := Scores(docs, query, score);
    RankRanked(s);
    var rank := Rank(s);
    var t := SliceEnd(|docs|, topK);
    assert j in rank;
    var m :| 0 <= m < |rank| && rank[m] == j;
    assert forall k :: 0 <= k < t ==> rank[..t][k] == rank[k];
    assert m >= t;
    forall k | 0 <= k < t ensures Before(s, rank[k], j) {
      assert Before(s, rank[k], rank[m]);
    }
  }

  /** With topK at least the store size, the search returns every stored document. */
  lemma SearchReturnsAll(docs: seq<StoredDocument>, query: Vector, topK: int, score: (Vector, Vector) -> real)
    requires topK >= |docs|
    ensures |Search(docs, query, topK, score)| == |docs|
    ensures forall j :: 0 <= j < |docs| ==> j in SearchPositions(docs, query, topK, score)
  {
    var s := Scores(docs, query, score);
    RankRanked(s);
    assert Rank(s)[..|docs|] == Rank(s);
  }

  /**
   * Two stored documents, the first scoring 1 and the second 0 against the query: a search
   * with topK 1 returns the first document alone, with score 1.
   */
  lemma TopOneOfTwo(d1: StoredDocument, d2: StoredDocument, query: Vector, score: (Vector, Vector) -> real)
    requires score(query, d1.embedding) == 1.0 && score(query, d2.embedding) == 0.0
    ensures Search([d1, d2], query, 1, score) == [SearchResult(d1, 1.0)]
  {
    var s := Scores([d1, d2], query, score);
    assert s == [1.0, 0.0];
    assert RankPrefix(s, 1) == [0];
    assert !Before(s, 1, 0);
    assert Insert(s, [0], 1) == [0] + Insert(s, [], 1) == [0, 1];
    assert Rank(s) == [0, 1];
  }

  /**
   * The state of one insertion pass over a[..i+1]: position i has moved left to index j, the
   * other entries up to index i are the earlier positions in stable descending order, position
   * i goes before everything to its right, and the entries past index i are untouched.
   */
  ghost predicate Inserting(s: seq<real>, a: seq<nat>, i: nat, j: nat) {
    j <= i < |a| == |s| && a[j] == i &&
    (forall k :: 0 <= k <= i && k != j ==> a[k] < i) &&
    (forall k :: i < k < |a| ==> a[k] == k) &&
    (forall k, l :: 0 <= k < l <= i && k != j && l != j ==> Before(s, a[k], a[l])) &&
    (forall l :: j < l <= i ==> Before(s, a[j], a[l]))
  }

  /** A pass starts with position i at index i after a ranked prefix of earlier positions. */
  lemma InsertingStart(s: seq<real>, a: seq<nat>, i: nat)
    requires i < |a| == |s|
    requires forall k :: i <= k < |a| ==> a[k] == k
    requires forall k :: 0 <= k < i ==> a[k] < i
    requires Ranked(s, a[..i])
    ensures Inserting(s, a, i, i)
  {
  }

  /** Swapping position i past a lower-scored neighbour keeps the pass state. */
  lemma InsertingSwap(s: seq<real>, a: seq<nat>, i: nat, j: nat)
    requires Inserting(s, a, i, j) && 0 < j && s[a[j - 1]] < s[a[j]]
    ensures Inserting(s, a[j - 1 := a[j]][j := a[j - 1]], i, j - 1)
  {
  }

  /** Swapping two neighbouring entries rearranges a sequence without changing its elements. */
  lemma SwapPermutes(a: seq<nat>, j: nat)
    requires 0 < j < |a|
    ensures multiset(a[j - 1 := a[j]][j := a[j - 1]]) == multiset(a)
  {
  }

  /** The pass stops where position i is not placed before its left neighbour: the prefix is ranked. */
  lemma InsertingDone(s: seq<real>, a: seq<nat>, i: nat, j: nat)
    requires Inserting(s, a, i, j) && (j == 0 || s[a[j - 1]] >= s[a[j]])
    ensures Ranked(s, a[..i + 1])
    ensures forall k :: 0 <= k <= i ==> a[k] <= i
  {
  }

  /**
   * One pass of the stable insertion sort: moves position i, which sits at index i, left past
   * every entry of lower score. The comparator looks only at scores, so it stops at the first
   * entry of equal or higher score; entries left of index i all name earlier positions, so ties
   * stay in storage order.
   */
  method InsertLast(s: seq<real>, order: array<nat>, i: nat)
    requires i < order.Length == |s|
    requires forall k :: i <= k < order.Length ==> order[k] == k
    requires forall k :: 0 <= k < i ==> order[k] < i
    requires Ranked(s, order[..i])
    modifies order
    ensures forall k :: i < k < order.Length ==> order[k] == k
    ensures forall k :: 0 <= k <= i ==> order[k] <= i
    ensures Ranked(s, order[..i + 1])
    ensures multiset(order[..]) == old(multiset(order[..]))
  {
    InsertingStart(s, order[..], i);
    var j: nat := i;
    while j > 0 && s[order[j - 1]] < s[order[j]]
      invariant Inserting(s, order[..], i, j)
      invariant multiset(order[..]) == old(multiset(order[..]))
    {
      ghost var a := order[..];
      InsertingSwap(s, a, i, j);
      SwapPermutes(a, j);
      order[j - 1], order[j] := order[j], order[j - 1];
      assert order[..] == a[j - 1 := a[j]][j := a[j - 1]];
      j := j - 1;
    }
    InsertingDone(s, order[..], i, j);
    assert order[..i + 1] == order[..][..i + 1];
  }

  /**
   * A ranked rearrangement of the positions 0 .. |s|-1 is the reference ranking: the sorted
   * array and Rank agree.
   */
  lemma SortedIsRank(s: seq<real>, sorted: seq<nat>, positions: seq<nat>)
    requires |positions| == |s| && forall k :: 0 <= k < |s| ==> positions[k] == k
    requires Ranked(s, sorted) && multiset(sorted) == multiset(positions)
    ensures sorted == Rank(s)
  {
    RankRanked(s);
    forall y ensures y in sorted <==> y in Rank(s) {
      assert y in sorted <==> y in multiset(positions);
      if 0 <= y < |s| {
        assert positions[y] == y;
      }
    }
    RankingUnique(s, sorted, Rank(s));
  }

  /**
   * The in-place `sort` of a fresh local array: positions 0 .. |s|-1 in storage order, sorted
   * by an insertion sort whose comparator looks at the score only. The result is the reference
   * ranking, so equal scores keep storage order.
   */
  method SortPositions(s: seq<real>) returns (ranked: seq<nat>)
    ensures ranked == Rank(s)
  {
    var n := |s|;
    var order := new nat[n](k => k);
    ghost var positions := order[..];
    assert forall k :: 0 <= k < n ==> positions[k] == k;
    var i := 0;
    while i < n
      invariant 0 <= i <= n
      invariant forall k :: i <= k < n ==> order[k] == k
      invariant forall k :: 0 <= k < i ==> order[k] < i
      invariant Ranked(s, order[..i])
      invariant multiset(order[..]) == multiset(positions)
    {
      InsertLast(s, order, i);
      i := i + 1;
    }
    ranked := order[..];
    assert ranked == order[..n];
    SortedIsRank(s, ranked, positions);
  }

  class InMemoryVectorStore {
    var docs: seq<StoredDocument>

    constructor ()
      ensures docs == []
    {
      docs := [];
    }

    /** The number of stored documents. */
    function Count(): (n: nat)
      reads this
      ensures n == |docs|
    {
      |docs|
    }

    /** Appends the given documents after the stored ones, in order, without deduplication. */
    method AddDocuments(newDocs: seq<StoredDocument>)
      modifies this
      ensures docs == old(docs) + newDocs
      ensures Count() == old(Count()) + |newDocs|
    {
      docs := docs + newDocs;
    }

    /** Empties the store. */
    method Clear()
      modifies this
      ensures docs == [] && Count() == 0
    {
      docs := [];
    }

    /**
     * Scores every stored document, stable-sorts the positions by descending score, and keeps
     * the first SliceEnd(Count(), topK) of them. The stored documents are only read.
     */
    method SimilaritySearch(query: Vector, topK: int, score: (Vector, Vector) -> real)
      returns (results: seq<SearchResult>)
      ensures results == Search(docs, query, topK, score)
      ensures 0 <= topK ==> |results| == (if topK < Count() then topK else Count())
    {
      var s := Scores(docs, query, score);
      var ranked := SortPositions(s);
      RankRanked(s);
      var t := SliceEnd(|docs|, topK);
      var stored := docs;
      results := seq(t, k requires 0 <= k < t => SearchResult(stored[ranked[k]], s[ranked[k]]));
    }
  }
}

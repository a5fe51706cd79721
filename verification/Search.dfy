/** Hybrid retrieval: rank the candidate chunks twice, fuse the rankings, look the chunks up again. */
module Search {
  import opened Common
  import opened Sorting
  import opened Fusion

  datatype Chunk = Chunk(chunkId: string, sourceType: string)

  datatype SearchResult = SearchResult(
    rank: nat, chunkId: string, sourceType: string, bm25Score: real, denseScore: real, rrfScore: real)

  const RRF_K: nat := 60

  predicate Matches(c: Chunk, sourceType: Option<string>) {
    sourceType.None? || c.sourceType == sourceType.value
  }

  /** The indices of the chunks of the requested source type, in order. */
  function Candidates(chunks: seq<Chunk>, sourceType: Option<string>): (r: seq<nat>)
    ensures forall n :: 0 <= n < |r| ==> r[n] < |chunks| && Matches(chunks[r[n]], sourceType)
    ensures forall m, n :: 0 <= m < n < |r| ==> r[m] < r[n]
    ensures forall i: nat :: i in r <==> i < |chunks| && Matches(chunks[i], sourceType)
    ensures Distinct(r)
  {
    if chunks == [] then []
    else
      var n := |chunks| - 1;
      var before := Candidates(chunks[..n], sourceType);
      if Matches(chunks[n], sourceType) then before + [n] else before
  }

  /** The candidates are all chunks, or all of the requested source type. */
  lemma CandidatesExact(chunks: seq<Chunk>, sourceType: Option<string>, i: nat)
    ensures i in Candidates(chunks, sourceType)
       <==> i < |chunks| && (sourceType == None || sourceType == Some(chunks[i].sourceType))
  {
  }

  /** The key (-score, index). */
  function ByScore(score: nat -> real): (nat, nat) -> bool {
    (i: nat, j: nat) => score(i) > score(j) || (score(i) == score(j) && i < j)
  }

  lemma ByScoreIsStrictTotal(score: nat -> real)
    ensures StrictTotal(ByScore(score))
  {
  }

  /** The candidates, best score first. */
  function Sorted(candidates: seq<nat>, score: nat -> real): (r: seq<nat>)
    ensures multiset(r) == multiset(candidates) && |r| == |candidates|
    ensures forall i :: 0 <= i < |r| ==> r[i] in candidates
  {
    SortContents(ByScore(score), candidates);
    var sorted := SortBy(ByScore(score), candidates);
    assert |sorted| == |multiset(sorted)| == |multiset(candidates)|;
    assert forall n :: 0 <= n < |sorted| ==> sorted[n] in multiset(sorted);
    sorted
  }

  /** The chunk ids of the candidates, best score first. */
  function RankedIds(chunks: seq<Chunk>, candidates: seq<nat>, score: nat -> real): (r: seq<string>)
    requires forall i :: i in candidates ==> i < |chunks|
    ensures |r| == |candidates|
  {
    var sorted := Sorted(candidates, score);
    seq(|sorted|, n requires 0 <= n < |sorted| => chunks[sorted[n]].chunkId)
  }

  /** The index a dictionary built front to back holds for an id: the last chunk with it. */
  function LastIndex(chunks: seq<Chunk>, id: string): Option<nat> {
    if chunks == [] then None
    else if chunks[|chunks| - 1].chunkId == id then Some(|chunks| - 1)
    else LastIndex(chunks[..|chunks| - 1], id)
  }

  predicate LastIndexInRange(chunks: seq<Chunk>, id: string) {
    LastIndex(chunks, id).Some? && LastIndex(chunks, id).value < |chunks|
  }

  /** A Python prefix slice; a negative bound drops from the end. */
  function TakeFirst<T>(s: seq<T>, k: int): seq<T> {
    if k >= 0 then s[..if k < |s| then k else |s|]
    else s[..if |s| + k > 0 then |s| + k else 0]
  }

  function ResultFor(chunks: seq<Chunk>, bm25: nat -> real, dense: nat -> real, n: nat, item: Scored, idx: nat): SearchResult
    requires idx < |chunks|
  {
    SearchResult(n + 1, chunks[idx].chunkId, chunks[idx].sourceType, bm25(idx), dense(idx), item.score)
  }

  ghost predicate UniqueIds(chunks: seq<Chunk>) {
    forall i, j :: 0 <= i < j < |chunks| ==> chunks[i].chunkId != chunks[j].chunkId
  }

  /** The two rankings that are fused. */
  function Rankings(chunks: seq<Chunk>, sourceType: Option<string>, bm25: nat -> real, dense: nat -> real): seq<seq<string>> {
    var candidates := Candidates(chunks, sourceType);
    [RankedIds(chunks, candidates, bm25), RankedIds(chunks, candidates, dense)]
  }

  lemma {:induction false} LastIndexIs(chunks: seq<Chunk>, id: string)
    ensures match LastIndex(chunks, id)
            case None => forall i :: 0 <= i < |chunks| ==> chunks[i].chunkId != id
            case Some(i) => i < |chunks| && chunks[i].chunkId == id
  {
    if chunks != [] && chunks[|chunks| - 1].chunkId != id {
      LastIndexIs(chunks[..|chunks| - 1], id);
    }
  }

  lemma {:induction false} LastIndexIsLast(chunks: seq<Chunk>, id: string)
    requires LastIndex(chunks, id).Some?
    ensures var i := LastIndex(chunks, id).value;
      && i < |chunks|
      && chunks[i].chunkId == id
      && forall k :: i < k < |chunks| ==> chunks[k].chunkId != id
  {
    if chunks[|chunks| - 1].chunkId != id {
      LastIndexIsLast(chunks[..|chunks| - 1], id);
    }
  }

  lemma RankedIdsAre(chunks: seq<Chunk>, candidates: seq<nat>, score: nat -> real, id: string)
    requires forall i :: i in candidates ==> i < |chunks|
    ensures id in RankedIds(chunks, candidates, score) <==> exists i :: i in candidates && chunks[i].chunkId == id
  {
    var sorted := Sorted(candidates, score);
    if i :| i in candidates && chunks[i].chunkId == id {
      assert i in multiset(sorted);
      var n :| 0 <= n < |sorted| && sorted[n] == i;
      assert RankedIds(chunks, candidates, score)[n] == id;
    }
    if n :| 0 <= n < |sorted| && RankedIds(chunks, candidates, score)[n] == id {
      assert sorted[n] in multiset(sorted);
    }
  }

  /** Every fused id is the id of a candidate chunk, so the dictionary of chunk ids knows it. */
  lemma FusedIdsAreCandidates(fused: seq<Scored>, chunks: seq<Chunk>, sourceType: Option<string>, bm25: nat -> real,
                              dense: nat -> real, n: nat)
    requires IsFusion(fused, Rankings(chunks, sourceType, bm25, dense), RRF_K) && n < |fused|
    ensures exists i :: i in Candidates(chunks, sourceType) && chunks[i].chunkId == fused[n].id
    ensures LastIndex(chunks, fused[n].id).Some?
  {
    var lists := Rankings(chunks, sourceType, bm25, dense);
    var l :| 0 <= l < |lists| && fused[n].id in lists[l];
    var candidates := Candidates(chunks, sourceType);
    RankedIdsAre(chunks, candidates, if l == 0 then bm25 else dense, fused[n].id);
    LastIndexIs(chunks, fused[n].id);
  }

  /**
   * r is the outcome of a search that fused the two rankings into fused: one result per item shown,
   * taken from the last chunk with its id, or KeyError exactly when such a chunk is not a candidate.
   */
  ghost predicate SearchOutcome(chunks: seq<Chunk>, bm25: nat -> real, dense: nat -> real, topK: int, sourceType: Option<string>,
                          fused: seq<Scored>, r: Result<seq<SearchResult>>) {
    && IsFusion(fused, Rankings(chunks, sourceType, bm25, dense), RRF_K)
    && var shown := TakeFirst(fused, topK);
    && (forall n :: 0 <= n < |shown| ==> LastIndexInRange(chunks, shown[n].id))
    && (r.Err? <==> exists n :: 0 <= n < |shown| && LastIndex(chunks, shown[n].id).value !in Candidates(chunks, sourceType))
    && (r.Err? ==> r.error == KeyError)
    && (r.Ok? ==>
          && |r.value| == |shown|
          && forall n :: 0 <= n < |shown| ==>
               r.value[n] == ResultFor(chunks, bm25, dense, n, shown[n], LastIndex(chunks, shown[n].id).value))
  }

  lemma ShownAreIndexed(fused: seq<Scored>, chunks: seq<Chunk>, sourceType: Option<string>, bm25: nat -> real,
                        dense: nat -> real, topK: int)
    requires IsFusion(fused, Rankings(chunks, sourceType, bm25, dense), RRF_K)
    ensures forall n :: 0 <= n < |TakeFirst(fused, topK)| ==> LastIndexInRange(chunks, TakeFirst(fused, topK)[n].id)
  {
    var shown := TakeFirst(fused, topK);
    forall n | 0 <= n < |shown|
      ensures LastIndexInRange(chunks, shown[n].id)
    {
      FusedIdsAreCandidates(fused, chunks, sourceType, bm25, dense, n);
      LastIndexIs(chunks, shown[n].id);
    }
  }

  /** search: candidates, two rankings, fusion, and one result per item shown. */
  method Search(chunks: seq<Chunk>, bm25: nat -> real, dense: nat -> real, topK: int, sourceType: Option<string>)
    returns (r: Result<seq<SearchResult>>, ghost fused: seq<Scored>)
    ensures Candidates(chunks, sourceType) == [] ==> r == Ok([])
    ensures Candidates(chunks, sourceType) != [] ==> SearchOutcome(chunks, bm25, dense, topK, sourceType, fused, r)
  {
    hide Candidates, RankedIds, IsFusion, LastIndex, TakeFirst;
    fused := [];
    var candidates := Candidates(chunks, sourceType);
    if candidates == [] { return Ok([]), fused; }
    var bm25Ranked := RankedIds(chunks, candidates, bm25);
    var denseRanked := RankedIds(chunks, candidates, dense);
    var fusion := ReciprocalRankFusion([bm25Ranked, denseRanked], RRF_K);
    var all := fusion.value;
    fused := all;
    var idToIdx := BuildIndex(chunks);
    var shown := TakeFirst(all, topK);
    ShownAreIndexed(all, chunks, sourceType, bm25, dense, topK);
    var results: seq<SearchResult> := [];
    for n := 0 to |shown|
      invariant |results| == n
      invariant forall m :: 0 <= m < n ==> LastIndex(chunks, shown[m].id).value in candidates
      invariant forall m :: 0 <= m < n ==> results[m] == ResultFor(chunks, bm25, dense, m, shown[m], LastIndex(chunks, shown[m].id).value)
    {
      var idx := idToIdx[shown[n].id];
      if idx !in candidates { return Err(KeyError), fused; }
      results := results + [SearchResult(n + 1, chunks[idx].chunkId, chunks[idx].sourceType, bm25(idx), dense(idx), shown[n].score)];
    }
    return Ok(results), fused;
  }

  /** The dictionary from chunk ids to indices, filled front to back. */
  method BuildIndex(chunks: seq<Chunk>) returns (m: map<string, nat>)
    ensures forall id :: (id in m <==> LastIndex(chunks, id).Some?) && (id in m ==> m[id] == LastIndex(chunks, id).value)
  {
    m := map[];
    for n := 0 to |chunks|
      invariant forall id :: (id in m <==> LastIndex(chunks[..n], id).Some?) && (id in m ==> m[id] == LastIndex(chunks[..n], id).value)
    {
      assert chunks[..n + 1][..n] == chunks[..n];
      m := m[chunks[n].chunkId := n];
    }
    assert chunks[..|chunks|] == chunks;
  }

  /** The ids of i and j agree, and j is the last chunk with that id. */
  ghost predicate LastSharing(chunks: seq<Chunk>, i: nat, j: nat) {
    && i < j < |chunks|
    && chunks[i].chunkId == chunks[j].chunkId
    && forall k :: j < k < |chunks| ==> chunks[k].chunkId != chunks[j].chunkId
  }

  /** An id whose last chunk is outside the requested source type although an earlier one is inside. */
  ghost predicate StrayId(chunks: seq<Chunk>, sourceType: Option<string>) {
    exists i: nat, j: nat :: LastSharing(chunks, i, j) && Matches(chunks[i], sourceType) && !Matches(chunks[j], sourceType)
  }

  lemma FailedLookupIsStray(chunks: seq<Chunk>, bm25: nat -> real, dense: nat -> real, sourceType: Option<string>,
                            fused: seq<Scored>, n: nat)
    requires IsFusion(fused, Rankings(chunks, sourceType, bm25, dense), RRF_K) && n < |fused|
    requires LastIndexInRange(chunks, fused[n].id)
    requires LastIndex(chunks, fused[n].id).value !in Candidates(chunks, sourceType)
    ensures StrayId(chunks, sourceType)
  {
    hide IsFusion, Rankings, LastIndex, Candidates;
    FusedIdsAreCandidates(fused, chunks, sourceType, bm25, dense, n);
    var i: nat :| i in Candidates(chunks, sourceType) && chunks[i].chunkId == fused[n].id;
    LastIndexIsLast(chunks, fused[n].id);
    var j := LastIndex(chunks, fused[n].id).value;
    assert LastSharing(chunks, i, j) && Matches(chunks[i], sourceType) && !Matches(chunks[j], sourceType);
  }

  lemma {:induction false} StrayIdFailsLookup(chunks: seq<Chunk>, bm25: nat -> real, dense: nat -> real, sourceType: Option<string>,
                                              fused: seq<Scored>) returns (n: nat)
    requires IsFusion(fused, Rankings(chunks, sourceType, bm25, dense), RRF_K) && StrayId(chunks, sourceType)
    ensures n < |fused| && LastIndexInRange(chunks, fused[n].id)
    ensures LastIndex(chunks, fused[n].id).value !in Candidates(chunks, sourceType)
  {
    hide Ordered, RankedIds;
    var i: nat, j: nat :| LastSharing(chunks, i, j) && Matches(chunks[i], sourceType) && !Matches(chunks[j], sourceType);
    var id := chunks[i].chunkId;
    var lists := Rankings(chunks, sourceType, bm25, dense);
    RankedIdsAre(chunks, Candidates(chunks, sourceType), bm25, id);
    assert id in lists[0];
    assert Appears(lists, id);
    n :| 0 <= n < |fused| && fused[n].id == id;
    LastIndexIs(chunks, id);
    LastIndexIsLast(chunks, id);
  }

  /** Without a stray id no number of results, negative ones included, makes a lookup fail. */
  lemma NoStrayNeverFails(chunks: seq<Chunk>, bm25: nat -> real, dense: nat -> real, topK: int,
                          sourceType: Option<string>, fused: seq<Scored>, r: Result<seq<SearchResult>>)
    requires SearchOutcome(chunks, bm25, dense, topK, sourceType, fused, r) && !StrayId(chunks, sourceType)
    ensures r.Ok?
  {
    hide StrayId, Candidates, Rankings, LastIndex, IsFusion;
    if r.Err? {
      var n: nat :| 0 <= n < |TakeFirst(fused, topK)|
                    && LastIndex(chunks, TakeFirst(fused, topK)[n].id).value !in Candidates(chunks, sourceType);
      FailedLookupIsStray(chunks, bm25, dense, sourceType, fused, n);
    }
  }

  lemma FusedIdsDistinct(fused: seq<Scored>, lists: seq<seq<string>>, k: nat)
    requires IsFusion(fused, lists, k)
    ensures Distinct(Ids(fused))
  {
  }

  /** No more items are fused than there are candidates. */
  lemma FusedFit(fused: seq<Scored>, chunks: seq<Chunk>, sourceType: Option<string>, bm25: nat -> real, dense: nat -> real)
    requires IsFusion(fused, Rankings(chunks, sourceType, bm25, dense), RRF_K)
    ensures |fused| <= |Candidates(chunks, sourceType)|
  {
    var candidates := Candidates(chunks, sourceType);
    var ids, ranked := Ids(fused), RankedIds(chunks, candidates, bm25);
    FusedIdsDistinct(fused, Rankings(chunks, sourceType, bm25, dense), RRF_K);
    hide Candidates, RankedIds, IsFusion, Rankings;
    forall id | id in ids
      ensures id in ranked
    {
      var n :| 0 <= n < |fused| && fused[n].id == id;
      FusedIdsAreCandidates(fused, chunks, sourceType, bm25, dense, n);
      RankedIdsAre(chunks, candidates, bm25, id);
    }
    DistinctMembersFit(ids, ranked);
  }

  /**
   * A search that shows as many results as there are candidates fails exactly when there is a stray id;
   * one that shows fewer can only fail then.
   */
  lemma {:induction false} LookupFailsExact(chunks: seq<Chunk>, bm25: nat -> real, dense: nat -> real, topK: int,
                                            sourceType: Option<string>, fused: seq<Scored>, r: Result<seq<SearchResult>>)
    requires SearchOutcome(chunks, bm25, dense, topK, sourceType, fused, r)
    ensures r == Err(KeyError) ==> StrayId(chunks, sourceType)
    ensures topK >= |Candidates(chunks, sourceType)| && StrayId(chunks, sourceType) ==> r == Err(KeyError)
  {
    if r.Err? && !StrayId(chunks, sourceType) {
      NoStrayNeverFails(chunks, bm25, dense, topK, sourceType, fused, r);
    }
    hide StrayId, Candidates, Rankings, LastIndex, IsFusion;
    FusedFit(fused, chunks, sourceType, bm25, dense);
    if topK >= |Candidates(chunks, sourceType)| && StrayId(chunks, sourceType) {
      assert TakeFirst(fused, topK) == fused;
      var n := StrayIdFailsLookup(chunks, bm25, dense, sourceType, fused);
      assert LastIndex(chunks, fused[n].id).value !in Candidates(chunks, sourceType);
    }
  }

  /** For any number of results: the search fails exactly when a stray id is among those shown. */
  lemma ShownStrayExact(chunks: seq<Chunk>, bm25: nat -> real, dense: nat -> real, topK: int,
                        sourceType: Option<string>, fused: seq<Scored>, r: Result<seq<SearchResult>>)
    requires SearchOutcome(chunks, bm25, dense, topK, sourceType, fused, r)
    ensures r == Err(KeyError) <==>
      exists n: nat, j: nat :: n < |TakeFirst(fused, topK)| && IsLastOf(chunks, j, TakeFirst(fused, topK)[n].id) && !Matches(chunks[j], sourceType)
  {
    var shown := TakeFirst(fused, topK);
    hide Rankings, IsFusion, TakeFirst;
    forall n: nat | n < |shown|
      ensures IsLastOf(chunks, LastIndex(chunks, shown[n].id).value, shown[n].id)
      ensures forall j: nat :: IsLastOf(chunks, j, shown[n].id) ==> j == LastIndex(chunks, shown[n].id).value
    {
      LastIndexIsLast(chunks, shown[n].id);
    }
  }

  /** j is the last chunk with the id. */
  ghost predicate IsLastOf(chunks: seq<Chunk>, j: nat, id: string) {
    j < |chunks| && chunks[j].chunkId == id && forall k :: j < k < |chunks| ==> chunks[k].chunkId != id
  }

  /** One id used in two source types, asked for in the first: the default number of results fails. */
  lemma SharedIdFails(bm25: nat -> real, dense: nat -> real, fused: seq<Scored>, r: Result<seq<SearchResult>>)
    requires SearchOutcome([Chunk("a", "spec"), Chunk("a", "code")], bm25, dense, 10, Some("spec"), fused, r)
    ensures r == Err(KeyError)
  {
    var chunks := [Chunk("a", "spec"), Chunk("a", "code")];
    assert LastSharing(chunks, 0, 1) && Matches(chunks[0], Some("spec")) && !Matches(chunks[1], Some("spec"));
    assert chunks[..1] == [Chunk("a", "spec")] && chunks[..1][..0] == [];
    assert |Candidates(chunks, Some("spec"))| <= 2;
    LookupFailsExact(chunks, bm25, dense, 10, Some("spec"), fused, r);
  }

  // ---------- what a search returns when chunk ids are unique ----------

  lemma SortedIsOrdered(candidates: seq<nat>, score: nat -> real)
    requires Distinct(candidates)
    ensures Ordered(ByScore(score), Sorted(candidates, score))
  {
    ByScoreIsStrictTotal(score);
    SortIsOrdered(ByScore(score), candidates);
  }

  lemma RankedIdsDistinct(chunks: seq<Chunk>, candidates: seq<nat>, score: nat -> real)
    requires UniqueIds(chunks) && Distinct(candidates) && forall i :: i in candidates ==> i < |chunks|
    ensures Distinct(RankedIds(chunks, candidates, score))
  {
    SortedIsOrdered(candidates, score);
    var sorted := Sorted(candidates, score);
    forall m, n | 0 <= m < n < |sorted|
      ensures RankedIds(chunks, candidates, score)[m] != RankedIds(chunks, candidates, score)[n]
    {
      assert ByScore(score)(sorted[m], sorted[n]);
      assert sorted[m] != sorted[n];
    }
  }

  lemma LastIndexIsTheIndex(chunks: seq<Chunk>, i: nat)
    requires UniqueIds(chunks) && i < |chunks|
    ensures LastIndex(chunks, chunks[i].chunkId) == Some(i)
  {
    LastIndexIs(chunks, chunks[i].chunkId);
  }

  /** Every candidate is fused once. */
  lemma FusedAreTheCandidates(fused: seq<Scored>, chunks: seq<Chunk>, sourceType: Option<string>, bm25: nat -> real,
                              dense: nat -> real)
    requires UniqueIds(chunks) && IsFusion(fused, Rankings(chunks, sourceType, bm25, dense), RRF_K)
    ensures |fused| == |Candidates(chunks, sourceType)|
  {
    hide Candidates, RankedIds, Ordered;
    var candidates := Candidates(chunks, sourceType);
    var lists := Rankings(chunks, sourceType, bm25, dense);
    var ids, ranked := Ids(fused), RankedIds(chunks, candidates, bm25);
    RankedIdsDistinct(chunks, candidates, bm25);
    forall id
      ensures id in ids <==> id in ranked
    {
      RankedIdsAre(chunks, candidates, bm25, id);
      RankedIdsAre(chunks, candidates, dense, id);
      if id in ranked {
        assert lists[0] == ranked;
        assert Appears(lists, id);
        var n :| 0 <= n < |fused| && fused[n].id == id;
        assert ids[n] == id;
      }
      if n :| 0 <= n < |ids| && ids[n] == id {
        assert Appears(lists, fused[n].id);
        var l :| 0 <= l < |lists| && id in lists[l];
      }
    }
    assert Distinct(ids);
    SameMembersSameMultiset(ids, ranked);
    assert |ids| == |multiset(ids)| == |multiset(ranked)| == |ranked|;
  }

  /** The result at rank n + 1 is the fused item n, from its own chunk, which is a candidate. */
  ghost predicate OwnResult(chunks: seq<Chunk>, bm25: nat -> real, dense: nat -> real, sourceType: Option<string>, n: nat, item: Scored,
                            result: SearchResult) {
    exists i: nat ::
      && i in Candidates(chunks, sourceType)
      && chunks[i].chunkId == item.id
      && (sourceType.None? || chunks[i].sourceType == sourceType.value)
      && result == SearchResult(n + 1, item.id, chunks[i].sourceType, bm25(i), dense(i), item.score)
  }

  /** With unique ids and a non-negative topK no lookup fails, and the result is the first topK candidates as fused. */
  lemma SearchShowsTopCandidates(chunks: seq<Chunk>, bm25: nat -> real, dense: nat -> real, topK: int,
                                 sourceType: Option<string>, fused: seq<Scored>, r: Result<seq<SearchResult>>)
    requires UniqueIds(chunks) && topK >= 0
    requires SearchOutcome(chunks, bm25, dense, topK, sourceType, fused, r)
    ensures r.Ok?
    ensures |r.value| == if topK < |Candidates(chunks, sourceType)| then topK else |Candidates(chunks, sourceType)|
    ensures forall n :: 0 <= n < |r.value| ==> OwnResult(chunks, bm25, dense, sourceType, n, fused[n], r.value[n])
  {
    hide Candidates, RankedIds, Ordered, Rankings;
    FusedAreTheCandidates(fused, chunks, sourceType, bm25, dense);
    var candidates := Candidates(chunks, sourceType);
    var shown := TakeFirst(fused, topK);
    forall n | 0 <= n < |shown|
      ensures LastIndex(chunks, shown[n].id).value in candidates
      ensures OwnResult(chunks, bm25, dense, sourceType, n, fused[n],
                        ResultFor(chunks, bm25, dense, n, shown[n], LastIndex(chunks, shown[n].id).value))
    {
      FusedIdsAreCandidates(fused, chunks, sourceType, bm25, dense, n);
      var i :| i in candidates && chunks[i].chunkId == fused[n].id;
      LastIndexIsTheIndex(chunks, i);
    }
  }

  /** i has the higher score, or the same and is the earlier chunk. */
  predicate Better(score: nat -> real, i: nat, j: nat) {
    score(i) > score(j) || (score(i) == score(j) && i < j)
  }

  lemma BetterIsRankedAhead(chunks: seq<Chunk>, candidates: seq<nat>, score: nat -> real, i: nat, j: nat)
    requires UniqueIds(chunks) && Distinct(candidates) && forall c :: c in candidates ==> c < |chunks|
    requires i in candidates && j in candidates && Better(score, i, j)
    ensures RankedAhead(RankedIds(chunks, candidates, score), chunks[i].chunkId, chunks[j].chunkId)
  {
    RankedIdsDistinct(chunks, candidates, score);
    SortedIsOrdered(candidates, score);
    var sorted := Sorted(candidates, score);
    assert i in multiset(sorted) && j in multiset(sorted);
    var m :| 0 <= m < |sorted| && sorted[m] == i;
    var n :| 0 <= n < |sorted| && sorted[n] == j;
    ByScoreIsStrictTotal(score);
    PositionsFollowOrder(ByScore(score), sorted, m, n);
    assert RankedIds(chunks, candidates, score)[m] == chunks[i].chunkId;
    assert RankedIds(chunks, candidates, score)[n] == chunks[j].chunkId;
  }

  /** A candidate ahead of another on both scores is fused ahead of it. */
  lemma BetterOnBothIsFusedFirst(chunks: seq<Chunk>, bm25: nat -> real, dense: nat -> real, sourceType: Option<string>,
                                 fused: seq<Scored>, i: nat, j: nat, n: nat) returns (m: nat)
    requires UniqueIds(chunks) && IsFusion(fused, Rankings(chunks, sourceType, bm25, dense), RRF_K)
    requires i in Candidates(chunks, sourceType) && j in Candidates(chunks, sourceType)
    requires Better(bm25, i, j) && Better(dense, i, j)
    requires n < |fused| && fused[n].id == chunks[j].chunkId
    ensures m < n && fused[m].id == chunks[i].chunkId
  {
    hide Candidates, RankedIds, Ordered, RankedAhead, ByScore;
    var candidates := Candidates(chunks, sourceType);
    var lists := Rankings(chunks, sourceType, bm25, dense);
    RankedIdsAre(chunks, candidates, bm25, chunks[i].chunkId);
    assert lists[0] == RankedIds(chunks, candidates, bm25);
    assert Appears(lists, chunks[i].chunkId);
    m :| 0 <= m < |fused| && fused[m].id == chunks[i].chunkId;
    BetterIsRankedAhead(chunks, candidates, bm25, i, j);
    BetterIsRankedAhead(chunks, candidates, dense, i, j);
    FusionDominance(fused, lists, RRF_K, m, n);
  }

  /** A candidate ahead of another on both scores (ties by position) is shown ahead of it, and shown whenever the other is. */
  lemma BetterOnBothIsShownFirst(chunks: seq<Chunk>, bm25: nat -> real, dense: nat -> real, topK: int,
                                 sourceType: Option<string>, fused: seq<Scored>, r: Result<seq<SearchResult>>,
                                 i: nat, j: nat, n: nat)
    requires UniqueIds(chunks) && topK >= 0
    requires SearchOutcome(chunks, bm25, dense, topK, sourceType, fused, r)
    requires i in Candidates(chunks, sourceType) && j in Candidates(chunks, sourceType)
    requires bm25(i) > bm25(j) || (bm25(i) == bm25(j) && i < j)
    requires dense(i) > dense(j) || (dense(i) == dense(j) && i < j)
    requires r.Ok? && n < |r.value| && r.value[n].chunkId == chunks[j].chunkId
    ensures exists m :: 0 <= m < n && r.value[m].chunkId == chunks[i].chunkId
  {
    hide Candidates, Rankings, IsFusion, ByScore, UniqueIds;
    SearchShowsTopCandidates(chunks, bm25, dense, topK, sourceType, fused, r);
    assert n < |fused|;
    assert OwnResult(chunks, bm25, dense, sourceType, n, fused[n], r.value[n]);
    var m := BetterOnBothIsFusedFirst(chunks, bm25, dense, sourceType, fused, i, j, n);
    assert OwnResult(chunks, bm25, dense, sourceType, m, fused[m], r.value[m]);
  }

  // ---------- the fused score in ranks ----------

  /** The rank of a candidate by one score: one more than there are better candidates. */
  ghost function Rank(candidates: seq<nat>, score: nat -> real, i: nat): nat {
    |BetterThan(candidates, score, i)| + 1
  }

  ghost function BetterThan(candidates: seq<nat>, score: nat -> real, i: nat): set<nat> {
    set j: nat | j in candidates && (score(j) > score(i) || (score(j) == score(i) && j < i))
  }

  lemma {:induction false} RankedAtRank(chunks: seq<Chunk>, candidates: seq<nat>, score: nat -> real, i: nat) returns (m: nat)
    requires Distinct(candidates) && forall c :: c in candidates ==> c < |chunks|
    requires i in candidates
    ensures m < |candidates| && RankedIds(chunks, candidates, score)[m] == chunks[i].chunkId
    ensures m + 1 == Rank(candidates, score, i)
  {
    hide Ordered, StrictTotal, ByScore, Predecessors, BetterThan;
    var sorted := Sorted(candidates, score);
    assert i in multiset(sorted);
    m :| 0 <= m < |sorted| && sorted[m] == i;
    SortedIsOrdered(candidates, score);
    ByScoreIsStrictTotal(score);
    PositionCounts(ByScore(score), sorted, m);
    PredecessorsAreBetter(candidates, score, i);
  }

  lemma {:induction false} PredecessorsAreBetter(candidates: seq<nat>, score: nat -> real, i: nat)
    ensures Predecessors(ByScore(score), Sorted(candidates, score), i) == BetterThan(candidates, score, i)
  {
    var sorted := Sorted(candidates, score);
    hide Sorted;
    forall j: nat
      ensures j in sorted <==> j in candidates
    {
      assert j in sorted <==> j in multiset(sorted);
      assert j in candidates <==> j in multiset(candidates);
    }
  }

  /** The fused score of a candidate is 1 / (60 + rank) by BM25 plus 1 / (60 + rank) by the dense score. */
  lemma {:induction false} FusedScoreExact(fused: seq<Scored>, chunks: seq<Chunk>, sourceType: Option<string>, bm25: nat -> real,
                                           dense: nat -> real, i: nat, n: nat)
    requires UniqueIds(chunks) && IsFusion(fused, Rankings(chunks, sourceType, bm25, dense), RRF_K)
    requires i in Candidates(chunks, sourceType) && n < |fused| && fused[n].id == chunks[i].chunkId
    ensures var candidates := Candidates(chunks, sourceType);
      fused[n].score == 1.0 / (60 + Rank(candidates, bm25, i)) as real + 1.0 / (60 + Rank(candidates, dense, i)) as real
  {
    hide Candidates, RankedIds, Ordered, Rank;
    var candidates := Candidates(chunks, sourceType);
    var p := RankedAtRank(chunks, candidates, bm25, i);
    var q := RankedAtRank(chunks, candidates, dense, i);
    RankedIdsDistinct(chunks, candidates, bm25);
    RankedIdsDistinct(chunks, candidates, dense);
    ScoreInTwoLists(RankedIds(chunks, candidates, bm25), RankedIds(chunks, candidates, dense), RRF_K, fused[n].id, p, q);
  }

  /** A prefix slice keeps the first k elements, or all but the last -k. */
  lemma TakeFirstExact<T>(s: seq<T>, k: int)
    ensures TakeFirst(s, k) <= s
    ensures k >= 0 ==> |TakeFirst(s, k)| == if k < |s| then k else |s|
    ensures k < 0 ==> |TakeFirst(s, k)| == if |s| + k > 0 then |s| + k else 0
  {
  }
}

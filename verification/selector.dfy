/**
 * `filterAndSortPlugins`: picks at most 13 usages from the merged pool in four
 * stages (most downloaded, most recently updated, verified, fill by downloads),
 * each stage a stable descending sort followed by `limit`, every pick guarded
 * by the set of ids selected so far.
 */
module Selector {
  import opened Usage
  import opened StableSort

  const TopByDownloads: nat := 3
  const TopByUpdateDate: nat := 3
  const TopVerified: nat := 3
  const MaxResults: nat := 13

  function Min(a: int, b: int): int {
    if a < b then a else b
  }

  /** `Stream.limit(n)`. */
  function Take(s: seq<PluginUsage>, n: nat): (r: seq<PluginUsage>)
    ensures |r| == Min(n, |s|)
    ensures r == s[..|r|]
  {
    if n < |s| then s[..n] else s
  }

  /**
   * The stream filter of stages B to D: keeps the usages whose id is not yet
   * selected and, for the verified stage, whose organization is verified.
   */
  function Candidates(pool: seq<PluginUsage>, selected: set<string>, verifiedOnly: bool): seq<PluginUsage> {
    if |pool| == 0 then []
    else
      var keep := pool[0].id !in selected && (verifiedOnly ==> pool[0].verified);
      (if keep then [pool[0]] else []) + Candidates(pool[1..], selected, verifiedOnly)
  }

  /** The filter keeps exactly the qualifying usages. */
  lemma {:induction false} CandidatesMembers(pool: seq<PluginUsage>, selected: set<string>, verifiedOnly: bool)
    ensures forall p :: p in Candidates(pool, selected, verifiedOnly) <==>
      p in pool && p.id !in selected && (verifiedOnly ==> p.verified)
  {
    if |pool| > 0 {
      CandidatesMembers(pool[1..], selected, verifiedOnly);
      assert pool == [pool[0]] + pool[1..];
    }
  }

  /** The filter removes the selected ids and, for the verified stage, nothing else than unverified usages. */
  lemma {:induction false} CandidatesIds(pool: seq<PluginUsage>, selected: set<string>, verifiedOnly: bool)
    ensures Ids(Candidates(pool, selected, verifiedOnly)) <= Ids(pool) - selected
    ensures !verifiedOnly ==> Ids(Candidates(pool, selected, verifiedOnly)) == Ids(pool) - selected
  {
    CandidatesMembers(pool, selected, verifiedOnly);
    var r := Candidates(pool, selected, verifiedOnly);
    if !verifiedOnly {
      forall id | id in Ids(pool) - selected
        ensures id in Ids(r)
      {
        var p :| p in pool && p.id == id;
        assert p in r;
      }
    }
  }

  /** The filter keeps pool order, so distinct ids stay distinct. */
  lemma {:induction false} CandidatesDistinct(pool: seq<PluginUsage>, selected: set<string>, verifiedOnly: bool)
    requires DistinctIds(pool)
    ensures DistinctIds(Candidates(pool, selected, verifiedOnly))
  {
    if |pool| > 0 {
      var x := pool[0];
      var rest := Candidates(pool[1..], selected, verifiedOnly);
      var r := Candidates(pool, selected, verifiedOnly);
      DistinctCons(pool);
      CandidatesDistinct(pool[1..], selected, verifiedOnly);
      if x.id !in selected && (verifiedOnly ==> x.verified) {
        CandidatesIds(pool[1..], selected, verifiedOnly);
        IdsCons(pool);
        assert r == [x] + rest;
        assert r[1..] == rest;
        DistinctCons(r);
      } else {
        assert r == rest;
      }
    }
  }

  /** The three facts about the filter together. */
  lemma CandidatesSpec(pool: seq<PluginUsage>, selected: set<string>, verifiedOnly: bool)
    ensures forall p :: p in Candidates(pool, selected, verifiedOnly) <==>
      p in pool && p.id !in selected && (verifiedOnly ==> p.verified)
    ensures Ids(Candidates(pool, selected, verifiedOnly)) <= Ids(pool) - selected
    ensures !verifiedOnly ==> Ids(Candidates(pool, selected, verifiedOnly)) == Ids(pool) - selected
    ensures DistinctIds(pool) ==> DistinctIds(Candidates(pool, selected, verifiedOnly))
  {
    CandidatesMembers(pool, selected, verifiedOnly);
    CandidatesIds(pool, selected, verifiedOnly);
    if DistinctIds(pool) {
      CandidatesDistinct(pool, selected, verifiedOnly);
    }
  }

  /**
   * `forEach(p -> { if (selectedIds.add(p.id())) result.add(p); })`: appends each
   * element of `batch` whose id is not yet selected. `selectedIds` is always the
   * id set of `result`, so it is not carried separately.
   */
  function Admit(result: seq<PluginUsage>, batch: seq<PluginUsage>): (r: seq<PluginUsage>)
    ensures |result| <= |r| <= |result| + |batch|
    ensures r[..|result|] == result
    decreases |batch|
  {
    if |batch| == 0 then result
    else if batch[0].id in Ids(result) then Admit(result, batch[1..])
    else
      var grown := result + [batch[0]];
      var r := Admit(grown, batch[1..]);
      assert r[..|result|] == r[..|grown|][..|result|];
      r
  }

  /** Everything the guard appends comes from the batch. */
  lemma {:induction false} AdmitMembers(result: seq<PluginUsage>, batch: seq<PluginUsage>)
    ensures forall i :: |result| <= i < |Admit(result, batch)| ==> Admit(result, batch)[i] in batch
    decreases |batch|
  {
    if |batch| > 0 {
      if batch[0].id in Ids(result) {
        AdmitMembers(result, batch[1..]);
      } else {
        var grown := result + [batch[0]];
        var r := Admit(grown, batch[1..]);
        AdmitMembers(grown, batch[1..]);
        forall i | |result| <= i < |r|
          ensures r[i] in batch
        {
          if i == |result| {
            assert r[..|grown|][i] == batch[0];
          } else {
            assert r[i] in batch[1..];
          }
        }
      }
    }
  }

  /** The ids selected afterwards are those selected before plus those of the batch, never twice. */
  lemma {:induction false} AdmitIds(result: seq<PluginUsage>, batch: seq<PluginUsage>)
    ensures Ids(Admit(result, batch)) == Ids(result) + Ids(batch)
    ensures DistinctIds(result) ==> DistinctIds(Admit(result, batch))
    decreases |batch|
  {
    if |batch| > 0 {
      IdsCons(batch);
      if batch[0].id in Ids(result) {
        AdmitIds(result, batch[1..]);
      } else {
        AppendFresh(result, batch[0]);
        AdmitIds(result + [batch[0]], batch[1..]);
      }
    }
  }

  /** When no id of the batch is selected yet and the batch has no repeats, the guard never fires. */
  lemma {:induction false} AdmitFresh(result: seq<PluginUsage>, batch: seq<PluginUsage>)
    requires DistinctIds(batch) && Ids(batch) !! Ids(result)
    ensures Admit(result, batch) == result + batch
    decreases |batch|
  {
    if |batch| > 0 {
      var x, rest := batch[0], batch[1..];
      IdsCons(batch);
      DistinctCons(batch);
      AppendFresh(result, x);
      assert x.id !in Ids(result);
      assert Admit(result, batch) == Admit(result + [x], rest);
      assert Ids(rest) !! Ids(result + [x]);
      AdmitFresh(result + [x], rest);
      assert result + [x] + rest == result + batch;
    }
  }

  lemma SplitAfterPrefix(r: seq<PluginUsage>, result: seq<PluginUsage>, x: PluginUsage)
    requires |result| + 1 <= |r| && r[..|result| + 1] == result + [x]
    ensures r[|result|..] == [x] + r[|result| + 1..]
  {
    assert r[|result|] == (result + [x])[|result|];
  }

  /** What the guard lets through from a sorted batch is still sorted. */
  lemma {:induction false} AdmitSorted(result: seq<PluginUsage>, batch: seq<PluginUsage>, k: SortKey)
    requires SortedDesc(batch, k)
    ensures SortedDesc(Admit(result, batch)[|result|..], k)
    decreases |batch|
  {
    if |batch| > 0 {
      var rest := batch[1..];
      assert SortedDesc(rest, k);
      if batch[0].id in Ids(result) {
        AdmitSorted(result, rest, k);
      } else {
        var grown := result + [batch[0]];
        var r := Admit(grown, rest);
        AdmitSorted(grown, rest, k);
        AdmitMembers(grown, rest);
        var tail := r[|grown|..];
        forall i | 0 <= i < |tail|
          ensures Key(tail[i], k) <= Key(batch[0], k)
        {
          assert tail[i] == r[|grown| + i];
          var j :| 0 <= j < |rest| && rest[j] == tail[i];
          assert rest[j] == batch[j + 1];
        }
        SortedCons(batch[0], tail, k);
        SplitAfterPrefix(r, result, batch[0]);
      }
    }
  }

  /** Admitting elements of the pool into a selection drawn from the pool keeps it so. */
  lemma AdmitFromPool(result: seq<PluginUsage>, batch: seq<PluginUsage>, pool: seq<PluginUsage>)
    requires DistinctIds(result)
    requires forall p :: p in result ==> p in pool
    requires forall p :: p in batch ==> p in pool
    ensures DistinctIds(Admit(result, batch))
    ensures forall p :: p in Admit(result, batch) ==> p in pool
  {
    AdmitIds(result, batch);
    AdmitMembers(result, batch);
    var r := Admit(result, batch);
    forall p | p in r
      ensures p in pool
    {
      var i :| 0 <= i < |r| && r[i] == p;
      if i < |result| {
        assert r[..|result|][i] == p;
      }
    }
  }

  /** The first `n` of a stable sort: drawn from the input, sorted, and without repeated ids if the input has none. */
  lemma TakeSortMembers(s: seq<PluginUsage>, k: SortKey, n: nat)
    ensures forall p :: p in Take(SortDesc(s, k), n) ==> p in s
    ensures SortedDesc(Take(SortDesc(s, k), n), k)
    ensures |Take(SortDesc(s, k), n)| == Min(n, |s|)
    ensures DistinctIds(s) ==> DistinctIds(Take(SortDesc(s, k), n))
    ensures Ids(Take(SortDesc(s, k), n)) <= Ids(s)
  {
    var sorted := SortDesc(s, k);
    SortDescIsStableSort(s, k);
    var t := Take(sorted, n);
    forall p | p in t
      ensures p in s
    {
      assert p in multiset(sorted);
    }
    PermutationKeepsIds(sorted, s);
    if DistinctIds(s) {
      DistinctPrefix(sorted, |t|);
    }
  }

  /** Stage A: the three most downloaded usages. */
  function PopularBatch(pool: seq<PluginUsage>): seq<PluginUsage> {
    Take(SortDesc(pool, ByDownloads), TopByDownloads)
  }

  /** Stage B: the three most recently updated usages not yet selected. */
  function RecentBatch(pool: seq<PluginUsage>, selected: set<string>): seq<PluginUsage> {
    Take(SortDesc(Candidates(pool, selected, false), ByLastUpdateDate), TopByUpdateDate)
  }

  /** Stage C: the three most downloaded verified usages not yet selected. */
  function VerifiedBatch(pool: seq<PluginUsage>, selected: set<string>): seq<PluginUsage> {
    Take(SortDesc(Candidates(pool, selected, true), ByDownloads), TopVerified)
  }

  /** Stage D: the most downloaded usages not yet selected, up to `slots`. */
  function FillBatch(pool: seq<PluginUsage>, selected: set<string>, slots: nat): seq<PluginUsage> {
    Take(SortDesc(Candidates(pool, selected, false), ByDownloads), slots)
  }

  /** The `result` list after stage A. */
  function AfterPopular(pool: seq<PluginUsage>): seq<PluginUsage> {
    Admit([], PopularBatch(pool))
  }

  /** The `result` list after stage B, given the list `a` after stage A. */
  function AfterRecent(pool: seq<PluginUsage>, a: seq<PluginUsage>): seq<PluginUsage> {
    Admit(a, RecentBatch(pool, Ids(a)))
  }

  /** The `result` list after stage C, given the list `b` after stage B. */
  function AfterVerified(pool: seq<PluginUsage>, b: seq<PluginUsage>): seq<PluginUsage> {
    Admit(b, VerifiedBatch(pool, Ids(b)))
  }

  /** The `result` list after stage D, which only runs while fewer than 13 are selected. */
  function AfterFill(pool: seq<PluginUsage>, c: seq<PluginUsage>): seq<PluginUsage> {
    var remaining := MaxResults - |c|;
    if remaining > 0 then Admit(c, FillBatch(pool, Ids(c), remaining)) else c
  }

  /** The selection: no repeated id, nothing from outside the pool, at most 13 entries. */
  function Select(pool: seq<PluginUsage>): (r: seq<PluginUsage>)
    ensures DistinctIds(r)
    ensures forall p :: p in r ==> p in pool
    ensures |r| <= MaxResults
  {
    SelectBounded(pool);
    AfterFill(pool, AfterVerified(pool, AfterRecent(pool, AfterPopular(pool))))
  }

  lemma BatchesFromPool(pool: seq<PluginUsage>, selected: set<string>, slots: nat)
    ensures forall p :: p in PopularBatch(pool) ==> p in pool
    ensures forall p :: p in RecentBatch(pool, selected) ==> p in pool
    ensures forall p :: p in VerifiedBatch(pool, selected) ==> p in pool
    ensures forall p :: p in FillBatch(pool, selected, slots) ==> p in pool
  {
    CandidatesSpec(pool, selected, false);
    CandidatesSpec(pool, selected, true);
    TakeSortMembers(pool, ByDownloads, TopByDownloads);
    TakeSortMembers(Candidates(pool, selected, false), ByLastUpdateDate, TopByUpdateDate);
    TakeSortMembers(Candidates(pool, selected, true), ByDownloads, TopVerified);
    TakeSortMembers(Candidates(pool, selected, false), ByDownloads, slots);
  }

  /** A selection that is a duplicate-free part of the pool. */
  predicate FromPool(r: seq<PluginUsage>, pool: seq<PluginUsage>) {
    DistinctIds(r) && forall p :: p in r ==> p in pool
  }

  lemma PopularKeeps(pool: seq<PluginUsage>)
    ensures FromPool(AfterPopular(pool), pool)
    ensures |AfterPopular(pool)| <= TopByDownloads
  {
    BatchesFromPool(pool, {}, 0);
    AdmitFromPool([], PopularBatch(pool), pool);
  }

  lemma RecentKeeps(pool: seq<PluginUsage>, a: seq<PluginUsage>)
    requires FromPool(a, pool)
    ensures FromPool(AfterRecent(pool, a), pool)
    ensures |AfterRecent(pool, a)| <= |a| + TopByUpdateDate
  {
    BatchesFromPool(pool, Ids(a), 0);
    AdmitFromPool(a, RecentBatch(pool, Ids(a)), pool);
  }

  lemma VerifiedKeeps(pool: seq<PluginUsage>, b: seq<PluginUsage>)
    requires FromPool(b, pool)
    ensures FromPool(AfterVerified(pool, b), pool)
    ensures |AfterVerified(pool, b)| <= |b| + TopVerified
  {
    BatchesFromPool(pool, Ids(b), 0);
    AdmitFromPool(b, VerifiedBatch(pool, Ids(b)), pool);
  }

  lemma FillKeeps(pool: seq<PluginUsage>, c: seq<PluginUsage>)
    requires FromPool(c, pool) && |c| <= MaxResults
    ensures FromPool(AfterFill(pool, c), pool)
    ensures |AfterFill(pool, c)| <= MaxResults
  {
    if |c| < MaxResults {
      BatchesFromPool(pool, Ids(c), MaxResults - |c|);
      AdmitFromPool(c, FillBatch(pool, Ids(c), MaxResults - |c|), pool);
    }
  }

  /** Every stage admits only pool members, so the selection stays a duplicate-free part of the pool. */
  lemma SelectBounded(pool: seq<PluginUsage>)
    ensures FromPool(AfterFill(pool, AfterVerified(pool, AfterRecent(pool, AfterPopular(pool)))), pool)
    ensures |AfterFill(pool, AfterVerified(pool, AfterRecent(pool, AfterPopular(pool))))| <= MaxResults
  {
    var a := AfterPopular(pool);
    PopularKeeps(pool);
    var b := AfterRecent(pool, a);
    RecentKeeps(pool, a);
    var c := AfterVerified(pool, b);
    VerifiedKeeps(pool, b);
    FillKeeps(pool, c);
  }

  /*
   * Stage by stage without the guard. On a pool with distinct ids the
   * filters already exclude everything selected, so the guard never fires
   * and the selection is the concatenation of these four batches.
   */

  /** Stage A on its own: the first three of the pool sorted by downloads. */
  function StageA(pool: seq<PluginUsage>): seq<PluginUsage> {
    PopularBatch(pool)
  }

  /** Stage B on its own: the first three not in A, sorted by last update date. */
  function StageB(pool: seq<PluginUsage>): seq<PluginUsage> {
    RecentBatch(pool, Ids(StageA(pool)))
  }

  /** Stage C on its own: the first three verified not in A or B, sorted by downloads. */
  function StageC(pool: seq<PluginUsage>): seq<PluginUsage> {
    VerifiedBatch(pool, Ids(StageA(pool) + StageB(pool)))
  }

  /** Stages A to C together: at most nine usages. */
  function FirstStages(pool: seq<PluginUsage>): (r: seq<PluginUsage>)
    ensures |r| <= TopByDownloads + TopByUpdateDate + TopVerified
  {
    StageA(pool) + StageB(pool) + StageC(pool)
  }

  /** Stage D on its own: the rest up to 13, sorted by downloads. */
  function StageD(pool: seq<PluginUsage>): seq<PluginUsage> {
    FillBatch(pool, Ids(FirstStages(pool)), MaxResults - |FirstStages(pool)|)
  }

  /** A filtered, sorted batch of a distinct pool repeats no id and avoids the selected ones. */
  lemma FilteredBatch(pool: seq<PluginUsage>, selected: set<string>, verifiedOnly: bool, k: SortKey, n: nat)
    requires DistinctIds(pool)
    ensures DistinctIds(Take(SortDesc(Candidates(pool, selected, verifiedOnly), k), n))
    ensures Ids(Take(SortDesc(Candidates(pool, selected, verifiedOnly), k), n)) <= Ids(pool) - selected
  {
    CandidatesSpec(pool, selected, verifiedOnly);
    TakeSortMembers(Candidates(pool, selected, verifiedOnly), k, n);
  }

  /** On a distinct pool, the guard lets a whole filtered batch through. */
  lemma FreshBatch(pool: seq<PluginUsage>, result: seq<PluginUsage>, verifiedOnly: bool, k: SortKey, n: nat)
    requires DistinctIds(pool)
    ensures var batch := Take(SortDesc(Candidates(pool, Ids(result), verifiedOnly), k), n);
      Admit(result, batch) == result + batch
  {
    FilteredBatch(pool, Ids(result), verifiedOnly, k, n);
    AdmitFresh(result, Take(SortDesc(Candidates(pool, Ids(result), verifiedOnly), k), n));
  }

  lemma StepA(pool: seq<PluginUsage>)
    requires DistinctIds(pool)
    ensures AfterPopular(pool) == StageA(pool)
  {
    TakeSortMembers(pool, ByDownloads, TopByDownloads);
    AdmitFresh([], StageA(pool));
    assert [] + StageA(pool) == StageA(pool);
  }

  lemma StepB(pool: seq<PluginUsage>)
    requires DistinctIds(pool)
    ensures AfterRecent(pool, StageA(pool)) == StageA(pool) + StageB(pool)
  {
    FreshBatch(pool, StageA(pool), false, ByLastUpdateDate, TopByUpdateDate);
  }

  lemma StepC(pool: seq<PluginUsage>)
    requires DistinctIds(pool)
    ensures AfterVerified(pool, StageA(pool) + StageB(pool)) == StageA(pool) + StageB(pool) + StageC(pool)
  {
    FreshBatch(pool, StageA(pool) + StageB(pool), true, ByDownloads, TopVerified);
  }

  lemma StepD(pool: seq<PluginUsage>)
    requires DistinctIds(pool)
    ensures AfterFill(pool, FirstStages(pool)) == FirstStages(pool) + StageD(pool)
  {
    var abc := FirstStages(pool);
    FreshBatch(pool, abc, false, ByDownloads, MaxResults - |abc|);
  }

  /** On a pool with distinct ids the selection is stage A, then B, then C, then D. */
  lemma SelectStages(pool: seq<PluginUsage>)
    requires DistinctIds(pool)
    ensures Select(pool) == StageA(pool) + StageB(pool) + StageC(pool) + StageD(pool)
  {
    StepA(pool);
    StepB(pool);
    StepC(pool);
    StepD(pool);
    assert FirstStages(pool) == StageA(pool) + StageB(pool) + StageC(pool);
  }

  lemma SetDifferenceCard(a: set<string>, b: set<string>)
    requires b <= a
    ensures |a - b| == |a| - |b|
  {
    assert a == (a - b) + b;
  }

  lemma SubsetCard(a: set<string>, b: set<string>)
    requires a <= b
    ensures |a| <= |b|
  {
    SetDifferenceCard(b, a);
  }

  /** Without the verified filter, the candidates of a distinct pool are everything not yet selected. */
  lemma CandidatesCount(pool: seq<PluginUsage>, selected: set<string>)
    requires DistinctIds(pool) && selected <= Ids(pool)
    ensures |Candidates(pool, selected, false)| == |pool| - |selected|
  {
    var r := Candidates(pool, selected, false);
    CandidatesSpec(pool, selected, false);
    DistinctIdsIffCardinality(r);
    DistinctIdsIffCardinality(pool);
    SetDifferenceCard(Ids(pool), selected);
  }

  /** A duplicate-free selection from a duplicate-free pool uses pool ids and is no longer than the pool. */
  lemma SelectionCard(r: seq<PluginUsage>, pool: seq<PluginUsage>)
    requires DistinctIds(r) && DistinctIds(pool)
    requires forall p :: p in r ==> p in pool
    ensures Ids(r) <= Ids(pool)
    ensures |Ids(r)| == |r| <= |pool| == |Ids(pool)|
  {
    DistinctIdsIffCardinality(r);
    DistinctIdsIffCardinality(pool);
    SubsetCard(Ids(r), Ids(pool));
  }

  lemma FillArithmetic(x: int, n: int, d: int)
    requires 0 <= x <= TopByDownloads + TopByUpdateDate + TopVerified && x <= n
    requires d == Min(MaxResults - x, n - x)
    ensures x + d == Min(n, MaxResults)
  {
  }

  /** The first three stages of a distinct pool select distinct pool members. */
  lemma FirstStagesFromPool(pool: seq<PluginUsage>)
    requires DistinctIds(pool)
    ensures FromPool(FirstStages(pool), pool)
  {
    StepA(pool);
    StepB(pool);
    StepC(pool);
    PopularKeeps(pool);
    RecentKeeps(pool, StageA(pool));
    VerifiedKeeps(pool, StageA(pool) + StageB(pool));
  }

  /** Stage D gets 13 minus what A to C took, or all that is left if that is fewer. */
  lemma StageDLength(pool: seq<PluginUsage>)
    requires DistinctIds(pool)
    ensures |FirstStages(pool)| <= |pool|
    ensures |StageD(pool)| == Min(MaxResults - |FirstStages(pool)|,
      |pool| - |FirstStages(pool)|)
  {
    var abc := FirstStages(pool);
    FirstStagesFromPool(pool);
    SelectionCard(abc, pool);
    CandidatesCount(pool, Ids(abc));
    TakeSortMembers(Candidates(pool, Ids(abc), false), ByDownloads, MaxResults - |abc|);
  }

  /** With distinct ids the selection holds exactly min(n, 13) usages. */
  lemma SelectLength(pool: seq<PluginUsage>)
    requires DistinctIds(pool)
    ensures |Select(pool)| == Min(|pool|, MaxResults)
  {
    var abc := FirstStages(pool);
    SelectStages(pool);
    StageDLength(pool);
    assert Select(pool) == abc + StageD(pool);
    FillArithmetic(|abc|, |pool|, |StageD(pool)|);
  }

  /** Same ids, same length and no repeats on either side make two sequences permutations of each other. */
  lemma SameMembersPermutation(r: seq<PluginUsage>, pool: seq<PluginUsage>)
    requires DistinctIds(r) && DistinctIds(pool) && |r| == |pool|
    requires forall p :: p in r ==> p in pool
    ensures multiset(r) == multiset(pool)
  {
    SelectionCard(r, pool);
    assert Ids(r) == Ids(pool) by {
      SetDifferenceCard(Ids(pool), Ids(r));
    }
    forall p
      ensures multiset(r)[p] == multiset(pool)[p]
    {
      DistinctIdsCounts(r, p);
      DistinctIdsCounts(pool, p);
      if p in pool {
        assert p.id in Ids(r);
        var q :| q in r && q.id == p.id;
        SameIdSameElement(pool, p, q);
      }
    }
  }

  /** A pool of at most 13 distinct-id usages comes back complete, only reordered. */
  lemma SmallPoolIsPermutation(pool: seq<PluginUsage>)
    requires DistinctIds(pool) && |pool| <= MaxResults
    ensures multiset(Select(pool)) == multiset(pool)
  {
    SelectLength(pool);
    SameMembersPermutation(Select(pool), pool);
  }

  /** The first `n` of a descending sort dominate every other element of the input. */
  lemma TakeSortDominates(s: seq<PluginUsage>, k: SortKey, n: nat, p: PluginUsage, q: PluginUsage)
    requires p in Take(SortDesc(s, k), n) && q in s && q !in Take(SortDesc(s, k), n)
    ensures Key(q, k) <= Key(p, k)
  {
    var sorted := SortDesc(s, k);
    SortDescIsStableSort(s, k);
    var m := |Take(sorted, n)|;
    assert q in multiset(sorted);
    var j :| 0 <= j < |sorted| && sorted[j] == q;
    assert j >= m;
    assert q in sorted[m..];
    SortedPrefixDominates(sorted, k, m, p, q);
  }

  /** Stage A holds the most downloaded usages of the pool. */
  lemma PopularIsTop(pool: seq<PluginUsage>, p: PluginUsage, q: PluginUsage)
    requires p in StageA(pool) && q in pool && q !in StageA(pool)
    ensures q.downloads <= p.downloads
  {
    TakeSortDominates(pool, ByDownloads, TopByDownloads, p, q);
  }

  /** Stage B holds the most recently updated usages outside stage A. */
  lemma RecentIsTop(pool: seq<PluginUsage>, p: PluginUsage, q: PluginUsage)
    requires p in StageB(pool) && q in pool && q.id !in Ids(StageA(pool)) && q !in StageB(pool)
    ensures q.lastUpdateDate <= p.lastUpdateDate
  {
    CandidatesMembers(pool, Ids(StageA(pool)), false);
    TakeSortDominates(Candidates(pool, Ids(StageA(pool)), false), ByLastUpdateDate, TopByUpdateDate, p, q);
  }

  /** Stage C holds only verified usages, the most downloaded verified ones outside stages A and B. */
  lemma VerifiedIsTop(pool: seq<PluginUsage>)
    ensures forall p :: p in StageC(pool) ==> p.verified
    ensures forall p, q :: (p in StageC(pool) && q in pool && q.verified
      && q.id !in Ids(StageA(pool) + StageB(pool)) && q !in StageC(pool)) ==> q.downloads <= p.downloads
  {
    var cands := Candidates(pool, Ids(StageA(pool) + StageB(pool)), true);
    CandidatesMembers(pool, Ids(StageA(pool) + StageB(pool)), true);
    TakeSortMembers(cands, ByDownloads, TopVerified);
    forall p, q | p in StageC(pool) && q in pool && q.verified
      && q.id !in Ids(StageA(pool) + StageB(pool)) && q !in StageC(pool)
      ensures q.downloads <= p.downloads
    {
      TakeSortDominates(cands, ByDownloads, TopVerified, p, q);
    }
  }

  /** Stage D holds the most downloaded of what the first three stages left. */
  lemma FillIsTop(pool: seq<PluginUsage>, p: PluginUsage, q: PluginUsage)
    requires p in StageD(pool) && q in pool && q !in StageD(pool)
    requires q.id !in Ids(FirstStages(pool))
    ensures q.downloads <= p.downloads
  {
    var abc := FirstStages(pool);
    CandidatesMembers(pool, Ids(abc), false);
    TakeSortDominates(Candidates(pool, Ids(abc), false), ByDownloads, MaxResults - |abc|, p, q);
  }

  /** Stage A takes min(3, n) usages, sorted by downloads. */
  lemma StageAShape(pool: seq<PluginUsage>)
    ensures |StageA(pool)| == Min(TopByDownloads, |pool|)
    ensures SortedDesc(StageA(pool), ByDownloads)
  {
    TakeSortMembers(pool, ByDownloads, TopByDownloads);
  }

  /** Stage B takes up to three of the usages A left, sorted by last update date. */
  lemma StageBShape(pool: seq<PluginUsage>)
    requires DistinctIds(pool)
    ensures |StageB(pool)| == Min(TopByUpdateDate, |pool| - |StageA(pool)|)
    ensures SortedDesc(StageB(pool), ByLastUpdateDate)
  {
    var a := StageA(pool);
    TakeSortMembers(pool, ByDownloads, TopByDownloads);
    TakeSortMembers(Candidates(pool, Ids(a), false), ByLastUpdateDate, TopByUpdateDate);
    DistinctIdsIffCardinality(a);
    SelectionCard(a, pool);
    CandidatesCount(pool, Ids(a));
  }

  /** Stages C and D are each sorted by downloads; C takes at most three. */
  lemma StageCDShape(pool: seq<PluginUsage>)
    ensures |StageC(pool)| <= TopVerified
    ensures SortedDesc(StageC(pool), ByDownloads)
    ensures SortedDesc(StageD(pool), ByDownloads)
  {
    var ab := StageA(pool) + StageB(pool);
    var abc := ab + StageC(pool);
    TakeSortMembers(Candidates(pool, Ids(ab), true), ByDownloads, TopVerified);
    TakeSortMembers(Candidates(pool, Ids(abc), false), ByDownloads, MaxResults - |abc|);
  }
}

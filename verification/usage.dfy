/** The `PluginUsage` record and the id bookkeeping shared by the aggregator and the selector. */
module Usage {

  /** Java `int`, the type of `downloads`. */
  type Int32 = x: int | -0x8000_0000 <= x < 0x8000_0000

  /** Java `long`, the type of `lastUpdateDate`. */
  type Int64 = x: int | -0x8000_0000_0000_0000 <= x < 0x8000_0000_0000_0000

  /** One marketplace plugin that declares an implementation of the extension point. */
  datatype PluginUsage = PluginUsage(
    id: string,
    name: string,
    downloads: Int32,
    sourceCodeUrl: string,
    verified: bool,
    lastUpdateDate: Int64)

  /** The two orders the selector sorts by. */
  datatype SortKey = ByDownloads | ByLastUpdateDate

  function Key(p: PluginUsage, k: SortKey): int {
    match k
    case ByDownloads => p.downloads
    case ByLastUpdateDate => p.lastUpdateDate
  }

  function Ids(s: seq<PluginUsage>): set<string> {
    set p | p in s :: p.id
  }

  /** No two positions carry the same id. */
  predicate DistinctIds(s: seq<PluginUsage>) {
    forall i, j :: 0 <= i < j < |s| ==> s[i].id != s[j].id
  }

  lemma IdsAppend(a: seq<PluginUsage>, b: seq<PluginUsage>)
    ensures Ids(a + b) == Ids(a) + Ids(b)
  {
    assert forall p :: p in a + b <==> p in a || p in b;
  }

  lemma IdsOfSameElements(a: seq<PluginUsage>, b: seq<PluginUsage>)
    requires forall p :: p in a <==> p in b
    ensures Ids(a) == Ids(b)
  {
  }

  lemma IdsCons(s: seq<PluginUsage>)
    requires |s| > 0
    ensures Ids(s) == {s[0].id} + Ids(s[1..])
  {
    assert s == [s[0]] + s[1..];
    IdsAppend([s[0]], s[1..]);
    assert Ids([s[0]]) == {s[0].id};
  }

  /** Distinct ids, read from the front: a fresh head on a distinct tail. */
  lemma DistinctCons(s: seq<PluginUsage>)
    requires |s| > 0
    ensures DistinctIds(s) <==> DistinctIds(s[1..]) && s[0].id !in Ids(s[1..])
  {
    var t := s[1..];
    if DistinctIds(s) {
      forall i, j | 0 <= i < j < |t|
        ensures t[i].id != t[j].id
      {
        assert t[i] == s[i + 1] && t[j] == s[j + 1];
      }
      forall p | p in t
        ensures p.id != s[0].id
      {
        var j :| 0 <= j < |t| && t[j] == p;
        assert s[j + 1] == p;
      }
    }
    if DistinctIds(t) && s[0].id !in Ids(t) {
      forall i, j | 0 <= i < j < |s|
        ensures s[i].id != s[j].id
      {
        if i == 0 {
          assert s[j] in t;
        } else {
          assert s[i] == t[i - 1] && s[j] == t[j - 1];
        }
      }
    }
  }

  /** Distinct ids means exactly as many ids as positions; in general never more. */
  lemma {:induction false} DistinctIdsIffCardinality(s: seq<PluginUsage>)
    ensures |Ids(s)| <= |s|
    ensures DistinctIds(s) <==> |Ids(s)| == |s|
  {
    if |s| > 0 {
      DistinctIdsIffCardinality(s[1..]);
      IdsCons(s);
      DistinctCons(s);
    }
  }

  /** Appending adds the element's id; when that id is fresh, the ids stay distinct. */
  lemma AppendFresh(s: seq<PluginUsage>, x: PluginUsage)
    ensures Ids(s + [x]) == Ids(s) + {x.id}
    ensures DistinctIds(s) && x.id !in Ids(s) ==> DistinctIds(s + [x])
  {
    IdsAppend(s, [x]);
    assert Ids([x]) == {x.id};
    forall i | 0 <= i < |s| && x.id !in Ids(s)
      ensures s[i].id != x.id
    {
      assert s[i] in s;
    }
  }

  /** In a pool with distinct ids an id names at most one element. */
  lemma SameIdSameElement(s: seq<PluginUsage>, p: PluginUsage, q: PluginUsage)
    requires DistinctIds(s) && p in s && q in s && p.id == q.id
    ensures p == q
  {
  }

  /** A prefix of a sequence with distinct ids has distinct ids. */
  lemma DistinctPrefix(s: seq<PluginUsage>, n: nat)
    requires DistinctIds(s) && n <= |s|
    ensures DistinctIds(s[..n])
  {
  }

  /** Two sequences holding the same elements with the same multiplicities carry the same ids. */
  lemma PermutationKeepsIds(a: seq<PluginUsage>, b: seq<PluginUsage>)
    requires multiset(a) == multiset(b)
    ensures Ids(a) == Ids(b)
    ensures DistinctIds(a) <==> DistinctIds(b)
  {
    assert forall p :: p in a <==> p in multiset(a);
    assert forall p :: p in b <==> p in multiset(b);
    IdsOfSameElements(a, b);
    assert |a| == |multiset(a)| == |multiset(b)| == |b|;
    DistinctIdsIffCardinality(a);
    DistinctIdsIffCardinality(b);
  }

  /** A sequence with distinct ids holds every element once. */
  lemma {:induction false} DistinctIdsCounts(s: seq<PluginUsage>, p: PluginUsage)
    requires DistinctIds(s)
    ensures multiset(s)[p] == if p in s then 1 else 0
  {
    if |s| > 0 {
      var t := s[1..];
      assert s == [s[0]] + t;
      DistinctCons(s);
      DistinctIdsCounts(t, p);
    }
  }
}

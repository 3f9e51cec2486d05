/**
 * The record handling of `fetchPlugins` and the merge of `getPluginsForExtension`:
 * the "downloads" response, then the "update date" response, walked into an
 * insertion-ordered map keyed by plugin id, the first retained record of an id
 * winning. The map is a sequence of usages whose ids are distinct.
 */
module Aggregator {
  import opened Options
  import opened Usage
  import opened Http

  /** The `organization` object of a record; only its `verified` flag is read. */
  datatype Organization = Organization(verified: Option<bool>)

  /** One element of `data.plugins.plugins`, every field possibly absent or null. */
  datatype PluginRecord = PluginRecord(
    id: Option<string>,
    name: Option<string>,
    downloads: Option<Int32>,
    sourceCodeUrl: Option<string>,
    lastUpdateDate: Option<Int64>,
    organization: Option<Organization>)

  /**
   * The outcome of one search request: the transport failed (an `IOException`
   * or `InterruptedException`, both swallowed), or a response arrived with a
   * status and, when the `data.plugins.plugins` path is present, the records.
   */
  datatype SearchFetch =
    | TransportFailure
    | Response(status: int, plugins: Option<seq<PluginRecord>>)

  const UnknownName := "Unknown"

  /**
   * The records the code walks: those of a 200 response with the full
   * `data.plugins.plugins` path, and none from any other outcome.
   */
  function Records(fetch: SearchFetch): (r: seq<PluginRecord>)
    ensures fetch.Response? && fetch.status == StatusOk && fetch.plugins.Some? ==> r == fetch.plugins.value
    ensures !(fetch.Response? && fetch.status == StatusOk && fetch.plugins.Some?) ==> r == []
  {
    match fetch
    case TransportFailure => []
    case Response(status, plugins) =>
      if status == StatusOk && plugins.Some? then plugins.value else []
  }

  /** `verified` is true only when the organization is present and its flag is present and true. */
  function Verified(org: Option<Organization>): bool {
    org.Some? && org.value.verified == Some(true)
  }

  /** The usage a record becomes when it is retained: no id or an absent or empty source URL drops it. */
  function Convert(rec: PluginRecord): (r: Option<PluginUsage>)
    ensures r.Some? <==> rec.id.Some? && rec.sourceCodeUrl.Some? && rec.sourceCodeUrl.value != ""
    ensures r.Some? ==> r.value.id == rec.id.value && r.value.sourceCodeUrl == rec.sourceCodeUrl.value
  {
    if rec.id.None? then None
    else
      var url := rec.sourceCodeUrl.GetOr("");
      if url == "" then None
      else Some(PluginUsage(
        rec.id.value,
        rec.name.GetOr(UnknownName),
        rec.downloads.GetOr(0),
        url,
        Verified(rec.organization),
        rec.lastUpdateDate.GetOr(0)))
  }

  /** The defaults of a retained record: `"Unknown"`, 0, 0, and `verified` only if stated true. */
  lemma ConvertDefaults(rec: PluginRecord)
    requires Convert(rec).Some?
    ensures Convert(rec).value.name == (if rec.name.Some? then rec.name.value else UnknownName)
    ensures Convert(rec).value.downloads == (if rec.downloads.Some? then rec.downloads.value else 0)
    ensures Convert(rec).value.lastUpdateDate == (if rec.lastUpdateDate.Some? then rec.lastUpdateDate.value else 0)
    ensures Convert(rec).value.verified <==>
      rec.organization.Some? && rec.organization.value.verified.Some? && rec.organization.value.verified.value
  {
  }

  /** The map's invariant: one entry per id, and every entry has a non-empty source URL. */
  predicate WellFormedPool(pool: seq<PluginUsage>) {
    DistinctIds(pool) && forall p :: p in pool ==> p.sourceCodeUrl != ""
  }

  /** One loop iteration: skip a record without id or with an id already present, then one without source. */
  function AdmitRecord(pool: seq<PluginUsage>, rec: PluginRecord): seq<PluginUsage> {
    if rec.id.None? || rec.id.value in Ids(pool) then pool
    else match Convert(rec)
      case None => pool
      case Some(u) => pool + [u]
  }

  /** The loop over one response's records. */
  function Absorb(pool: seq<PluginUsage>, recs: seq<PluginRecord>): seq<PluginUsage>
    decreases |recs|
  {
    if |recs| == 0 then pool else Absorb(AdmitRecord(pool, recs[0]), recs[1..])
  }

  /** `fetchPlugins` on one response. */
  function FetchPlugins(pool: seq<PluginUsage>, fetch: SearchFetch): seq<PluginUsage> {
    Absorb(pool, Records(fetch))
  }

  /** `getPluginsForExtension` before the selector: the "downloads" response first, then the "update date" one. */
  function Collect(byDownloads: SearchFetch, byUpdateDate: SearchFetch): seq<PluginUsage> {
    FetchPlugins(FetchPlugins([], byDownloads), byUpdateDate)
  }

  /** Whether `rec` is retained under `id`. */
  predicate RetainedAs(rec: PluginRecord, id: string) {
    Convert(rec).Some? && Convert(rec).value.id == id
  }

  /** The index of the first record retained under `id`, or -1 when there is none. */
  function FirstRetained(recs: seq<PluginRecord>, id: string): (r: int)
    ensures -1 <= r < |recs|
    ensures r >= 0 ==> RetainedAs(recs[r], id)
    ensures forall j :: 0 <= j < |recs| && (r < 0 || j < r) ==> !RetainedAs(recs[j], id)
  {
    if |recs| == 0 then -1
    else if RetainedAs(recs[0], id) then 0
    else
      var r := FirstRetained(recs[1..], id);
      if r < 0 then -1 else r + 1
  }

  /** One iteration against its reference: the record's usage is appended exactly when it converts and its id is new. */
  lemma AdmitRecordSpec(pool: seq<PluginUsage>, rec: PluginRecord)
    ensures Convert(rec).Some? && Convert(rec).value.id !in Ids(pool) ==> AdmitRecord(pool, rec) == pool + [Convert(rec).value]
    ensures !(Convert(rec).Some? && Convert(rec).value.id !in Ids(pool)) ==> AdmitRecord(pool, rec) == pool
  {
  }

  /** One iteration keeps the map's invariant. */
  lemma AdmitRecordKeeps(pool: seq<PluginUsage>, rec: PluginRecord)
    requires WellFormedPool(pool)
    ensures WellFormedPool(AdmitRecord(pool, rec))
  {
    var r := AdmitRecord(pool, rec);
    if r != pool {
      var u := Convert(rec).value;
      AppendFresh(pool, u);
    }
  }

  /** Walking records keeps the map's invariant and never changes an entry already present. */
  lemma {:induction false} AbsorbKeeps(pool: seq<PluginUsage>, recs: seq<PluginRecord>)
    requires WellFormedPool(pool)
    ensures WellFormedPool(Absorb(pool, recs))
    ensures |pool| <= |Absorb(pool, recs)|
    ensures Absorb(pool, recs)[..|pool|] == pool
    decreases |recs|
  {
    if |recs| > 0 {
      var next := AdmitRecord(pool, recs[0]);
      AdmitRecordKeeps(pool, recs[0]);
      AbsorbKeeps(next, recs[1..]);
      var r := Absorb(next, recs[1..]);
      assert next[..|pool|] == pool;
      assert r[..|pool|] == r[..|next|][..|pool|];
    }
  }

  /** Walking two record lists one after the other is walking their concatenation. */
  lemma {:induction false} AbsorbAppend(pool: seq<PluginUsage>, a: seq<PluginRecord>, b: seq<PluginRecord>)
    ensures Absorb(pool, a + b) == Absorb(Absorb(pool, a), b)
    decreases |a|
  {
    if |a| == 0 {
      assert a + b == b;
    } else {
      assert (a + b)[0] == a[0];
      assert (a + b)[1..] == a[1..] + b;
      AbsorbAppend(AdmitRecord(pool, a[0]), a[1..], b);
    }
  }

  /** An id ends up in the map iff it was there already or some record is retained under it. */
  lemma {:induction false} AbsorbIds(pool: seq<PluginUsage>, recs: seq<PluginRecord>, id: string)
    ensures id in Ids(Absorb(pool, recs)) <==> id in Ids(pool) || FirstRetained(recs, id) >= 0
    decreases |recs|
  {
    if |recs| > 0 {
      var next := AdmitRecord(pool, recs[0]);
      AbsorbIds(next, recs[1..], id);
      AdmitRecordSpec(pool, recs[0]);
      if next != pool {
        AppendFresh(pool, Convert(recs[0]).value);
      }
    }
  }

  /**
   * First wins: an entry the walk added is the usage of the first record
   * retained under its id; later records with that id changed nothing.
   */
  lemma {:induction false} AbsorbFirstWins(pool: seq<PluginUsage>, recs: seq<PluginRecord>, p: PluginUsage)
    requires WellFormedPool(pool)
    requires p in Absorb(pool, recs) && p.id !in Ids(pool)
    ensures FirstRetained(recs, p.id) >= 0
    ensures Convert(recs[FirstRetained(recs, p.id)]) == Some(p)
    decreases |recs|
  {
    var next := AdmitRecord(pool, recs[0]);
    AdmitRecordSpec(pool, recs[0]);
    AdmitRecordKeeps(pool, recs[0]);
    if p.id in Ids(next) {
      // the first record itself introduced the id
      var u := Convert(recs[0]).value;
      AppendFresh(pool, u);
      assert u.id == p.id;
      AbsorbKeeps(next, recs[1..]);
      var r := Absorb(next, recs[1..]);
      assert u == r[|pool|] by {
        assert r[..|next|][|pool|] == u;
      }
      SameIdSameElement(r, p, u);
    } else {
      if next != pool {
        AppendFresh(pool, Convert(recs[0]).value);
      }
      AbsorbFirstWins(next, recs[1..], p);
    }
  }

  /** Completeness: the usage of the first record retained under a new id is in the map. */
  lemma {:induction false} AbsorbComplete(pool: seq<PluginUsage>, recs: seq<PluginRecord>, i: nat)
    requires WellFormedPool(pool)
    requires i < |recs| && Convert(recs[i]).Some?
    requires Convert(recs[i]).value.id !in Ids(pool)
    requires FirstRetained(recs, Convert(recs[i]).value.id) == i
    ensures Convert(recs[i]).value in Absorb(pool, recs)
    decreases |recs|
  {
    var u := Convert(recs[i]).value;
    var next := AdmitRecord(pool, recs[0]);
    AdmitRecordSpec(pool, recs[0]);
    AdmitRecordKeeps(pool, recs[0]);
    if i == 0 {
      AbsorbKeeps(next, recs[1..]);
      var r := Absorb(next, recs[1..]);
      assert r[..|next|][|pool|] == u;
    } else {
      assert !RetainedAs(recs[0], u.id);
      if next != pool {
        AppendFresh(pool, Convert(recs[0]).value);
      }
      assert recs[1..][i - 1] == recs[i];
      AbsorbComplete(next, recs[1..], i - 1);
    }
  }

  /** The merged pool always satisfies the map's invariant. */
  lemma CollectWellFormed(byDownloads: SearchFetch, byUpdateDate: SearchFetch)
    ensures WellFormedPool(Collect(byDownloads, byUpdateDate))
  {
    AbsorbKeeps([], Records(byDownloads));
    AbsorbKeeps(FetchPlugins([], byDownloads), Records(byUpdateDate));
  }

  /** The merge walks the "downloads" records and then the "update date" records as one list. */
  lemma CollectIsOneWalk(byDownloads: SearchFetch, byUpdateDate: SearchFetch)
    ensures Collect(byDownloads, byUpdateDate) == Absorb([], Records(byDownloads) + Records(byUpdateDate))
  {
    AbsorbAppend([], Records(byDownloads), Records(byUpdateDate));
  }

  /** Every entry of the merged pool is the usage of the first record retained under its id, across both responses. */
  lemma CollectFirstWins(byDownloads: SearchFetch, byUpdateDate: SearchFetch, p: PluginUsage)
    requires p in Collect(byDownloads, byUpdateDate)
    ensures var all := Records(byDownloads) + Records(byUpdateDate);
      FirstRetained(all, p.id) >= 0 && Convert(all[FirstRetained(all, p.id)]) == Some(p)
  {
    CollectIsOneWalk(byDownloads, byUpdateDate);
    AbsorbFirstWins([], Records(byDownloads) + Records(byUpdateDate), p);
  }

  /** A plugin retained from the "downloads" response keeps the values of its first record there. */
  lemma CollectPrefersFirstResponse(byDownloads: SearchFetch, byUpdateDate: SearchFetch, i: nat)
    requires i < |Records(byDownloads)| && Convert(Records(byDownloads)[i]).Some?
    requires FirstRetained(Records(byDownloads), Convert(Records(byDownloads)[i]).value.id) == i
    ensures Convert(Records(byDownloads)[i]).value in Collect(byDownloads, byUpdateDate)
  {
    var first := Records(byDownloads);
    var all := first + Records(byUpdateDate);
    var u := Convert(first[i]).value;
    CollectIsOneWalk(byDownloads, byUpdateDate);
    assert all[i] == first[i];
    assert FirstRetained(all, u.id) == i by {
      FirstRetainedPrefix(first, Records(byUpdateDate), u.id);
    }
    AbsorbComplete([], all, i);
  }

  /** A plugin missing from the "downloads" response comes from the first "update date" record retained under its id. */
  lemma CollectFallsBack(byDownloads: SearchFetch, byUpdateDate: SearchFetch, j: nat)
    requires j < |Records(byUpdateDate)| && Convert(Records(byUpdateDate)[j]).Some?
    requires FirstRetained(Records(byDownloads), Convert(Records(byUpdateDate)[j]).value.id) < 0
    requires FirstRetained(Records(byUpdateDate), Convert(Records(byUpdateDate)[j]).value.id) == j
    ensures Convert(Records(byUpdateDate)[j]).value in Collect(byDownloads, byUpdateDate)
  {
    var first, second := Records(byDownloads), Records(byUpdateDate);
    var u := Convert(second[j]).value;
    var pool := FetchPlugins([], byDownloads);
    AbsorbKeeps([], first);
    AbsorbIds([], first, u.id);
    AbsorbComplete(pool, second, j);
  }

  /** The first retained index within a prefix is the same in any extension of it. */
  lemma {:induction false} FirstRetainedPrefix(a: seq<PluginRecord>, b: seq<PluginRecord>, id: string)
    ensures FirstRetained(a, id) >= 0 ==> FirstRetained(a + b, id) == FirstRetained(a, id)
    decreases |a|
  {
    if |a| > 0 {
      assert (a + b)[0] == a[0];
      assert (a + b)[1..] == a[1..] + b;
      FirstRetainedPrefix(a[1..], b, id);
    }
  }

  /** Entries are in order of their first retained records: insertion order of the map. */
  lemma {:induction false} AbsorbOrder(pool: seq<PluginUsage>, recs: seq<PluginRecord>, i: nat, j: nat)
    requires WellFormedPool(pool)
    requires |pool| <= i < j < |Absorb(pool, recs)|
    ensures Absorb(pool, recs)[i].id !in Ids(pool) && Absorb(pool, recs)[j].id !in Ids(pool)
    ensures FirstRetained(recs, Absorb(pool, recs)[i].id) < FirstRetained(recs, Absorb(pool, recs)[j].id)
    decreases |recs|
  {
    var next := AdmitRecord(pool, recs[0]);
    var r := Absorb(next, recs[1..]);
    AdmitRecordSpec(pool, recs[0]);
    AdmitRecordKeeps(pool, recs[0]);
    AbsorbKeeps(next, recs[1..]);
    AbsorbKeeps(pool, recs);
    NewEntriesAreNew(pool, recs, i);
    NewEntriesAreNew(pool, recs, j);
    if next == pool {
      AbsorbOrder(next, recs[1..], i, j);
      FirstRetainedShift(recs, r[i].id);
      FirstRetainedShift(recs, r[j].id);
    } else {
      var u := Convert(recs[0]).value;
      AppendFresh(pool, u);
      assert r[..|next|][|pool|] == u;
      if i == |pool| {
        NewEntriesAreNew(next, recs[1..], j);
        assert r[j].id != u.id;
        AbsorbFirstWins(next, recs[1..], r[j]);
        FirstRetainedShift(recs, r[j].id);
      } else {
        AbsorbOrder(next, recs[1..], i, j);
        NewEntriesAreNew(next, recs[1..], i);
        FirstRetainedShift(recs, r[i].id);
        FirstRetainedShift(recs, r[j].id);
      }
    }
  }

  /** An entry past the old pool carries an id the old pool did not have, and some record is retained under it. */
  lemma NewEntriesAreNew(pool: seq<PluginUsage>, recs: seq<PluginRecord>, i: nat)
    requires WellFormedPool(pool)
    requires |pool| <= i < |Absorb(pool, recs)|
    ensures Absorb(pool, recs)[i].id !in Ids(pool)
    ensures FirstRetained(recs, Absorb(pool, recs)[i].id) >= 0
  {
    var r := Absorb(pool, recs);
    AbsorbKeeps(pool, recs);
    forall q | q in pool
      ensures q.id != r[i].id
    {
      var k :| 0 <= k < |pool| && pool[k] == q;
      assert r[..|pool|][k] == q;
    }
    AbsorbIds(pool, recs, r[i].id);
  }

  /** The first retained index past a record that is not retained under `id`. */
  lemma FirstRetainedShift(recs: seq<PluginRecord>, id: string)
    requires |recs| > 0 && !RetainedAs(recs[0], id)
    ensures FirstRetained(recs, id) == (if FirstRetained(recs[1..], id) < 0 then -1 else FirstRetained(recs[1..], id) + 1)
  {
  }
}

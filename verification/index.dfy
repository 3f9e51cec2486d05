/**
 * `getExtensions` and `searchExtension`: the extension-point index is the set
 * of non-null `implementationName` values of the listing, and a search keeps
 * the names whose lower-cased form contains the lower-cased query.
 */
module ExtensionIndex {
  import opened Options
  import opened Text
  import opened Http

  /**
   * The outcome of the listing request: the transport failed, or a response
   * arrived with a status and, per array element, its `implementationName`
   * (`None` when absent or null).
   */
  datatype IndexFetch =
    | TransportFailure
    | Response(status: int, names: seq<Option<string>>)

  /** The names of a listing, collected one element at a time; absent names are skipped. */
  function NamesOf(entries: seq<Option<string>>): (r: set<string>)
    ensures forall s :: s in r <==> Some(s) in entries
  {
    if |entries| == 0 then {}
    else
      var rest := NamesOf(entries[1..]);
      assert entries == [entries[0]] + entries[1..];
      if entries[0].Some? then {entries[0].value} + rest else rest
  }

  /** The index: the names of a 200 response, and nothing on any other status or a transport failure. */
  function Snapshot(fetch: IndexFetch): (r: set<string>)
    ensures fetch.Response? && fetch.status == StatusOk ==> forall s :: s in r <==> Some(s) in fetch.names
    ensures !(fetch.Response? && fetch.status == StatusOk) ==> r == {}
  {
    if fetch.Response? && fetch.status == StatusOk then NamesOf(fetch.names) else {}
  }

  /** Listing order and repeated names do not matter: only which names occur does. */
  lemma SnapshotIgnoresOrder(a: seq<Option<string>>, b: seq<Option<string>>)
    requires forall e :: e in a <==> e in b
    ensures Snapshot(Response(StatusOk, a)) == Snapshot(Response(StatusOk, b))
  {
  }

  /** The search criterion: `s.toLowerCase().contains(query.toLowerCase())`. */
  predicate Matches(name: string, query: string) {
    Contains(Lower(name), Lower(query))
  }

  /** `searchExtension` over an index snapshot: the entries that match. */
  function Search(index: set<string>, query: string): (r: set<string>)
    ensures r <= index
  {
    set s | s in index && Matches(s, query)
  }

  /** The loop of `searchExtension`: walks the index, adding every entry that matches. */
  method SearchLoop(index: set<string>, query: string) returns (r: set<string>)
    ensures r == Search(index, query)
  {
    r := {};
    var todo := index;
    while todo != {}
      invariant todo <= index
      invariant r == Search(index - todo, query)
      decreases todo
    {
      var s :| s in todo;
      if Matches(s, query) {
        r := r + {s};
      }
      todo := todo - {s};
    }
    assert index - todo == index;
  }

  /** Upper-casing the query changes nothing: both sides are lower-cased before comparing. */
  lemma SearchIgnoresQueryCase(index: set<string>, query: string)
    ensures Search(index, Upper(query)) == Search(index, query)
    ensures Search(index, Lower(query)) == Search(index, query)
  {
    LowerOfUpper(query);
    LowerOfLower(query);
  }

  /** The empty query is not rejected: it matches every entry of the index. */
  lemma EmptyQueryMatchesAll(index: set<string>)
    ensures Search(index, "") == index
  {
    forall s | s in index
      ensures Matches(s, "")
    {
      ContainsEmpty(Lower(s));
    }
  }

  /** A longer query narrows the result: whatever contains it also contains any part of it. */
  lemma SearchNarrows(index: set<string>, query: string, longer: string)
    requires Contains(longer, query)
    ensures Search(index, longer) <= Search(index, query)
  {
    LowerKeepsContains(longer, query);
    forall s | s in Search(index, longer)
      ensures Matches(s, query)
    {
      ContainsTransitive(Lower(s), Lower(longer), Lower(query));
    }
  }

  /** A search of the snapshot finds exactly the listed names matching the query. */
  lemma SearchSnapshot(fetch: IndexFetch, query: string, name: string)
    ensures name in Search(Snapshot(fetch), query) <==>
      fetch.Response? && fetch.status == StatusOk && Some(name) in fetch.names && Matches(name, query)
  {
  }
}

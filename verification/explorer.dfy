/**
 * The replies of the `intellij_extension_search` and `intellij_extension_detail`
 * tools: the error and not-found sentinels, and the layout of a detail page,
 * built over the index snapshot, the merged usage pool, the selector and the
 * search-link builder.
 */
module Explorer {
  import opened Options
  import opened Text
  import opened Usage
  import opened ExtensionIndex
  import opened Aggregator
  import opened Selector
  import opened GitHubLink

  const NoExtensionFoundText := "error: no extension found."
  /** The fallback line of a section with no usages (see `SentenceHasNoBreak` below). */
  const NoImplementationsSentence := "No public implementations " + "found with source code available."
  const NoImplementationsText := NoImplementationsSentence + "\n"
  const ImplementationsHeading := "## Plugin Implementations:\n"
  const UsageOpen := " - \""
  const UsageSource := "\" Source: "
  const SearchTag := " Search: "

  /** The reply to a search: the error sentinel, or the matching names (joined in `HashSet` order). */
  datatype SearchReply = NoExtensionFound | FoundExtensions(names: set<string>)

  /** `extension_search`. */
  function ExtensionSearch(listing: IndexFetch, query: string): SearchReply {
    var found := Search(Snapshot(listing), query);
    if found == {} then NoExtensionFound else FoundExtensions(found)
  }

  /** The error sentinel comes back exactly when no listed name matches; otherwise every match and nothing else. */
  lemma ExtensionSearchSpec(listing: IndexFetch, query: string)
    ensures ExtensionSearch(listing, query) == NoExtensionFound <==>
      forall name :: name in Snapshot(listing) ==> !Matches(name, query)
    ensures ExtensionSearch(listing, query).FoundExtensions? ==>
      forall name :: name in ExtensionSearch(listing, query).names <==> name in Snapshot(listing) && Matches(name, query)
  {
    var found := Search(Snapshot(listing), query);
    if found != {} {
      var name :| name in found;
      assert name in Snapshot(listing) && Matches(name, query);
    } else {
      forall name | name in Snapshot(listing)
        ensures !Matches(name, query)
      {
        assert Matches(name, query) ==> name in found;
      }
    }
  }

  /** The sentinel for an extension point the index does not list. */
  function NotFoundText(extension: string): string {
    "Extension point '" + extension + "' not found. Use 'intellij_extension_search' to find available extension points."
  }

  /** The optional ` Search: <link>` part of a usage line. */
  function SearchPart(usage: PluginUsage, extension: string): string {
    match BuildSearchUrl(usage.sourceCodeUrl, extension)
    case None => ""
    case Some(link) => SearchTag + link
  }

  /** ` - "<name>" Source: <url>[ Search: <link>]` and a line break. */
  function UsageLine(usage: PluginUsage, extension: string): string {
    UsageOpen + usage.name + UsageSource + usage.sourceCodeUrl + SearchPart(usage, extension) + "\n"
  }

  function UsageLines(usages: seq<PluginUsage>, extension: string): string {
    if |usages| == 0 then "" else UsageLine(usages[0], extension) + UsageLines(usages[1..], extension)
  }

  /** The body under the heading: a line per usage, or the "No public implementations" line. */
  function Implementations(usages: seq<PluginUsage>, extension: string): string {
    UsageLines(usages, extension) + (if |usages| == 0 then NoImplementationsText else "")
  }

  /** The title line with the entry's own spelling, a blank line, and the implementations heading. */
  function Heading(entry: string): string {
    "# " + entry + "\n\n" + ImplementationsHeading
  }

  /**
   * The section for one index entry: its heading, then the body for the
   * usages of the requested name.
   */
  function Section(entry: string, extension: string, usages: seq<PluginUsage>): (r: string)
    ensures |r| > 0 && r[0] == '#'
    ensures |Heading(entry)| <= |r| && r[..|Heading(entry)|] == Heading(entry)
    ensures r[|Heading(entry)|..] == Implementations(usages, extension)
  {
    var r := Heading(entry) + Implementations(usages, extension);
    assert r[..|Heading(entry)|] == Heading(entry);
    r
  }

  /** The loop of `extension_detail` over the index in iteration order: a section per entry equal ignoring case. */
  function Sections(entries: seq<string>, extension: string, usages: seq<PluginUsage>): string {
    if |entries| == 0 then ""
    else
      (if EqualsIgnoreCase(entries[0], extension) then Section(entries[0], extension, usages) else "")
      + Sections(entries[1..], extension, usages)
  }

  /**
   * `extension_detail`, with the index given in its iteration order and the
   * two search responses every section's usages are computed from.
   */
  function Detail(entries: seq<string>, extension: string, byDownloads: SearchFetch, byUpdateDate: SearchFetch): string {
    var content := Sections(entries, extension, Select(Collect(byDownloads, byUpdateDate)));
    if |content| == 0 then NotFoundText(extension) else content
  }

  /** No section is written exactly when no entry equals the name ignoring case. */
  lemma {:induction false} SectionsEmptyIff(entries: seq<string>, extension: string, usages: seq<PluginUsage>)
    ensures |Sections(entries, extension, usages)| == 0 <==>
      forall k :: 0 <= k < |entries| ==> !EqualsIgnoreCase(entries[k], extension)
    ensures |Sections(entries, extension, usages)| > 0 ==> Sections(entries, extension, usages)[0] == '#'
  {
    if |entries| > 0 {
      SectionsEmptyIff(entries[1..], extension, usages);
      assert forall k :: 1 <= k < |entries| ==> entries[k] == entries[1..][k - 1];
    }
  }

  /** The not-found sentinel comes back exactly when no index entry equals the name ignoring case. */
  lemma DetailNotFoundIff(entries: seq<string>, extension: string, byDownloads: SearchFetch, byUpdateDate: SearchFetch)
    ensures Detail(entries, extension, byDownloads, byUpdateDate) == NotFoundText(extension) <==>
      forall k :: 0 <= k < |entries| ==> Lower(entries[k]) != Lower(extension)
  {
    var usages := Select(Collect(byDownloads, byUpdateDate));
    SectionsEmptyIff(entries, extension, usages);
    forall k | 0 <= k < |entries|
      ensures EqualsIgnoreCase(entries[k], extension) <==> Lower(entries[k]) == Lower(extension)
    {
      EqualsIgnoreCaseIff(entries[k], extension);
    }
    assert NotFoundText(extension)[0] == 'E';
  }

  /** `entries` is an iteration order of the set `index`: each name of the set exactly once. */
  ghost predicate IterationOrder(entries: seq<string>, index: set<string>) {
    (forall name :: name in entries <==> name in index)
    && forall i, j :: 0 <= i < j < |entries| ==> entries[i] != entries[j]
  }

  /**
   * Over the index of a listing, walked in any iteration order: the not-found
   * sentinel comes back exactly when no listed name equals the input ignoring case.
   */
  lemma DetailFromListing(listing: IndexFetch, entries: seq<string>, extension: string,
                          byDownloads: SearchFetch, byUpdateDate: SearchFetch)
    requires IterationOrder(entries, Snapshot(listing))
    ensures Detail(entries, extension, byDownloads, byUpdateDate) == NotFoundText(extension) <==>
      forall name :: name in Snapshot(listing) ==> Lower(name) != Lower(extension)
  {
    DetailNotFoundIff(entries, extension, byDownloads, byUpdateDate);
    NoEntryIffNoName(entries, Snapshot(listing), extension);
  }

  /** A property fails on every position of an iteration order exactly when it fails on every name of the set. */
  lemma NoEntryIffNoName(entries: seq<string>, index: set<string>, extension: string)
    requires IterationOrder(entries, index)
    ensures (forall k :: 0 <= k < |entries| ==> Lower(entries[k]) != Lower(extension)) <==>
      forall name :: name in index ==> Lower(name) != Lower(extension)
  {
    if forall k :: 0 <= k < |entries| ==> Lower(entries[k]) != Lower(extension) {
      forall name | name in index
        ensures Lower(name) != Lower(extension)
      {
        var k :| 0 <= k < |entries| && entries[k] == name;
      }
    }
  }

  /** With a single matching entry the page is that entry's section alone. */
  lemma {:induction false} SectionsSingle(entries: seq<string>, extension: string, usages: seq<PluginUsage>, k: nat)
    requires k < |entries| && EqualsIgnoreCase(entries[k], extension)
    requires forall j :: 0 <= j < |entries| && j != k ==> !EqualsIgnoreCase(entries[j], extension)
    ensures Sections(entries, extension, usages) == Section(entries[k], extension, usages)
  {
    var tail := entries[1..];
    if k == 0 {
      SectionsEmptyIff(tail, extension, usages);
      assert forall j :: 0 <= j < |tail| ==> tail[j] == entries[j + 1];
    } else {
      assert forall j :: 0 <= j < |tail| && j != k - 1 ==> tail[j] == entries[j + 1];
      SectionsSingle(tail, extension, usages, k - 1);
    }
  }

  /** The number of line breaks in a text. */
  function LineBreaks(s: string): nat {
    if |s| == 0 then 0 else (if s[0] == '\n' then 1 else 0) + LineBreaks(s[1..])
  }

  predicate NoBreak(s: string) {
    forall k :: 0 <= k < |s| ==> s[k] != '\n'
  }

  lemma NoBreakAppend(a: string, b: string)
    requires NoBreak(a) && NoBreak(b)
    ensures NoBreak(a + b)
  {
    assert forall k :: 0 <= k < |b| ==> (a + b)[|a| + k] == b[k];
  }

  lemma {:induction false} LineBreaksAppend(a: string, b: string)
    ensures LineBreaks(a + b) == LineBreaks(a) + LineBreaks(b)
  {
    if |a| == 0 {
      assert a + b == b;
    } else {
      assert (a + b)[0] == a[0];
      assert (a + b)[1..] == a[1..] + b;
      LineBreaksAppend(a[1..], b);
    }
  }

  lemma {:induction false} NoLineBreak(s: string)
    requires NoBreak(s)
    ensures LineBreaks(s) == 0
  {
    if |s| > 0 {
      NoLineBreak(s[1..]);
    }
  }

  /** A search link has no line break: the encoded query holds only unreserved characters, `+` and `%`. */
  lemma SearchPartHasNoLineBreak(usage: PluginUsage, extension: string)
    ensures NoBreak(SearchPart(usage, extension))
  {
    if BuildSearchUrl(usage.sourceCodeUrl, extension).Some? {
      var q := FormEncode(Query(Find(usage.sourceCodeUrl).value.repo, extension));
      FormEncodeIsSafe(Query(Find(usage.sourceCodeUrl).value.repo, extension));
      assert NoBreak(q) by {
        forall k | 0 <= k < |q|
          ensures q[k] != '\n'
        {
          assert UrlSafe(q[k]);
        }
      }
      LiteralsHaveNoBreak();
      NoBreakAppend(SearchPrefix, q);
      NoBreakAppend(SearchPrefix + q, SearchSuffix);
      NoBreakAppend(SearchTag, SearchPrefix + q + SearchSuffix);
    }
  }

  /** A usage whose name and URL have no line break takes exactly one line. */
  lemma UsageLineIsOneLine(usage: PluginUsage, extension: string)
    requires NoBreak(usage.name) && NoBreak(usage.sourceCodeUrl)
    ensures LineBreaks(UsageLine(usage, extension)) == 1
  {
    var search := SearchPart(usage, extension);
    SearchPartHasNoLineBreak(usage, extension);
    LiteralsHaveNoBreak();
    NoBreakAppend(UsageOpen, usage.name);
    NoBreakAppend(UsageOpen + usage.name, UsageSource);
    NoBreakAppend(UsageOpen + usage.name + UsageSource, usage.sourceCodeUrl);
    NoBreakAppend(UsageOpen + usage.name + UsageSource + usage.sourceCodeUrl, search);
    var line := UsageOpen + usage.name + UsageSource + usage.sourceCodeUrl + search;
    NoLineBreak(line);
    LineBreaksAppend(line, "\n");
  }

  /** One line per usage, or the single fallback line when there is none. */
  lemma {:induction false} ImplementationsLines(usages: seq<PluginUsage>, extension: string)
    requires forall u :: u in usages ==> NoBreak(u.name) && NoBreak(u.sourceCodeUrl)
    ensures LineBreaks(Implementations(usages, extension)) == if |usages| == 0 then 1 else |usages|
  {
    UsageLinesCount(usages, extension);
    var lines := UsageLines(usages, extension);
    if |usages| == 0 {
      LineBreaksAppend(lines, NoImplementationsText);
      NoImplementationsLine();
    } else {
      assert lines + "" == lines;
    }
  }

  lemma NoImplementationsLine()
    ensures LineBreaks(NoImplementationsText) == 1
  {
    SentenceHasNoBreak();
    NoLineBreak(NoImplementationsSentence);
    LineBreaksAppend(NoImplementationsSentence, "\n");
  }

  /*
   * Facts about the fixed text. Each proof lists, for every short piece of a
   * literal, the characters the piece is drawn from, so that every position is
   * checked against that list; a long literal is taken in pieces, which is why
   * the fallback sentence is defined as two.
   */

  /** The fixed pieces of a usage line and of a search link hold no line break. */
  lemma LiteralsHaveNoBreak()
    ensures NoBreak(UsageOpen) && NoBreak(UsageSource) && NoBreak(SearchTag)
    ensures NoBreak(SearchPrefix) && NoBreak(SearchSuffix)
  {
    forall k | 0 <= k < |UsageOpen| ensures UsageOpen[k] != '\n' { assert UsageOpen[k] in " -\""; }
    forall k | 0 <= k < |UsageSource| ensures UsageSource[k] != '\n' { assert UsageSource[k] in "\" Source:"; }
    forall k | 0 <= k < |SearchTag| ensures SearchTag[k] != '\n' { assert SearchTag[k] in " Search:"; }
    forall k | 0 <= k < |SearchPrefix| ensures SearchPrefix[k] != '\n' { assert SearchPrefix[k] in "htps:/gihub.comearc?q="; }
    forall k | 0 <= k < |SearchSuffix| ensures SearchSuffix[k] != '\n' { assert SearchSuffix[k] in "&type=cod"; }
  }

  /** The fallback sentence is one line of text. */
  lemma SentenceHasNoBreak()
    ensures NoBreak(NoImplementationsSentence)
  {
    var a, b := "No public implementations ", "found with source code available.";
    forall k | 0 <= k < |a| ensures a[k] != '\n' { assert a[k] in "Nopublicmnetsa "; }
    forall k | 0 <= k < |b| ensures b[k] != '\n' { assert b[k] in "foundwithsrcavlbe. "; }
    NoBreakAppend(a, b);
  }

  /** The heading is three lines: the title, a blank line and `## Plugin Implementations:`. */
  lemma HeadingLines(entry: string)
    requires NoBreak(entry)
    ensures LineBreaks(Heading(entry)) == 3
  {
    TitleLines(entry);
    ImplementationsHeadingLines();
    LineBreaksAppend("# " + entry + "\n\n", ImplementationsHeading);
  }

  /** `# <entry>` and the blank line after it. */
  lemma TitleLines(entry: string)
    requires NoBreak(entry)
    ensures LineBreaks("# " + entry + "\n\n") == 2
  {
    var title := "# ";
    forall k | 0 <= k < |title| ensures title[k] != '\n' { assert title[k] in "# "; }
    NoBreakAppend(title, entry);
    NoLineBreak(title + entry);
    LineBreaksAppend("\n", "\n");
    LineBreaksAppend(title + entry, "\n\n");
  }

  /** `## Plugin Implementations:` and its line break. */
  lemma ImplementationsHeadingLines()
    ensures LineBreaks(ImplementationsHeading) == 1
  {
    var h := ImplementationsHeading[..|ImplementationsHeading| - 1];
    assert ImplementationsHeading == h + "\n";
    forall k | 0 <= k < |h|
      ensures h[k] != '\n'
    {
      assert h[k] in "# PluginImpemtaos:";
    }
    NoLineBreak(h);
    LineBreaksAppend(h, "\n");
  }

  /**
   * A section has the three heading lines, then one line per usage or the
   * single fallback line, when the entry, names and URLs hold no line break.
   */
  lemma SectionLines(entry: string, extension: string, usages: seq<PluginUsage>)
    requires NoBreak(entry)
    requires forall u :: u in usages ==> NoBreak(u.name) && NoBreak(u.sourceCodeUrl)
    ensures LineBreaks(Section(entry, extension, usages)) == 3 + (if |usages| == 0 then 1 else |usages|)
  {
    HeadingLines(entry);
    ImplementationsLines(usages, extension);
    LineBreaksAppend(Heading(entry), Implementations(usages, extension));
  }

  lemma {:induction false} UsageLinesCount(usages: seq<PluginUsage>, extension: string)
    requires forall u :: u in usages ==> NoBreak(u.name) && NoBreak(u.sourceCodeUrl)
    ensures LineBreaks(UsageLines(usages, extension)) == |usages|
  {
    if |usages| > 0 {
      UsageLineIsOneLine(usages[0], extension);
      UsageLinesCount(usages[1..], extension);
      LineBreaksAppend(UsageLine(usages[0], extension), UsageLines(usages[1..], extension));
    }
  }

  /**
   * The usages a section lists, from two search responses: at most 13, no id
   * twice, and exactly min(n, 13) of the n distinct plugins the merge retains.
   */
  lemma DetailUsages(byDownloads: SearchFetch, byUpdateDate: SearchFetch)
    ensures var pool := Collect(byDownloads, byUpdateDate);
      var usages := Select(pool);
      |usages| == Min(|pool|, MaxResults) && DistinctIds(usages)
      && forall u :: u in usages ==> u in pool && u.sourceCodeUrl != ""
  {
    var pool := Collect(byDownloads, byUpdateDate);
    CollectWellFormed(byDownloads, byUpdateDate);
    SelectLength(pool);
  }
}

# Extension-point explorer, modelled in Dafny

This project models the core of `ExtensionPlatformExplorerMcpToolset`, the MCP
toolset that lists IntelliJ Platform extension points and shows real plugins
implementing them. The network calls are replaced by their decoded results,
given as inputs. The model covers:

- **Index and search** (`ExtensionIndex`). The index is the set of non-null
  `implementationName` values of a 200 listing. A search keeps the names whose
  lower-cased form contains the lower-cased query.
- **Usage pool merge** (`Aggregator`). This is the record handling of
  `fetchPlugins`, run on the "downloads" response and then on the "update
  date" response. They feed an insertion-ordered map keyed by plugin id, so
  the first retained record of an id wins. Records without an id, or with an
  absent or empty source URL, are dropped. Missing fields get their defaults.
- **Diversified selector** (`Selector`, on top of `StableSort`). This is
  `filterAndSortPlugins`, which runs four stages, each a stable descending sort
  followed by `limit`:
  - top 3 by downloads;
  - top 3 by last-update date;
  - top 3 verified by downloads;
  - fill up to 13 by downloads.

  Every pick is guarded by the set of ids selected so far.
- **GitHub search link** (`GitHubLink`). An explicit matcher finds the leftmost
  match of `github\.com/([^/]+)/([^/?#]+)`. The model then takes the extension's
  short name, builds the query template and form-encodes it the way
  `URLEncoder` does with UTF-8.
- **Replies** (`Explorer`). These are the `extension_search` error sentinel,
  the `extension_detail` not-found sentinel, and the detail page layout: a
  heading, one line per selected usage, or the "No public implementations"
  line.

`Text` models the `String` operations the code calls: `toLowerCase`,
`indexOf`/`contains` and `equalsIgnoreCase`, together with the per-character
`Character.toUpperCase` inside `equalsIgnoreCase`. `Text.Upper` is not called by
the code; it is the upper-cased query in which the case-insensitivity of the
search is stated. `Usage` holds the
`PluginUsage` record and the id bookkeeping.

Where the code and the tool's documented intent disagree, the model follows
the code:

- **Empty search query.** `extension_search("")` is not rejected.
  `searchExtension` keeps every entry, because every string contains the empty
  string. The repository's test `testExtensionSearchWithEmptyQuery` expects an
  error text. The model states the code's behaviour in
  `ExtensionIndex.EmptyQueryMatchesAll`.
- **`owner/repo` in the link.** The link does not contain `owner/repo`
  literally. The whole query is form-encoded, so its `/` becomes `%2F`. Only
  the decoded `q` parameter contains it (`GitHubLink.LinkDecodes`).
- **Malformed listings.** Only `IOException` and `InterruptedException` are
  caught, so a malformed listing does not give an empty result. The model
  takes responses as already decoded (see "Left out").

## Model

All source paths are relative to the repository root.

| member | source | states |
|---|---|---|
| Text.Lower | src/main/java/de/espend/mcp/devkit/ExtensionPlatformExplorerMcpToolset.java:157 | `toLowerCase` gives text equal to the original ignoring case, of the same length, with no upper-case letter left |
| Text.LowerUnique | src/main/java/de/espend/mcp/devkit/ExtensionPlatformExplorerMcpToolset.java:157 | those facts fix the lower-cased text: any text meeting them is `toLowerCase` of the original |
| Text.Upper | src/test/java/de/espend/mcp/devkit/test/ExtensionPlatformExplorerMcpToolsetTest.java:51-58 | the upper-cased query of the case-insensitivity property (`"COMPLETION"` against `"completion"`): equal to the original ignoring case, of the same length, with no lower-case letter left |
| Text.LowerOfLower | src/main/java/de/espend/mcp/devkit/ExtensionPlatformExplorerMcpToolset.java:157 | lower-casing twice is lower-casing once |
| Text.IndexOfFrom | src/main/java/de/espend/mcp/devkit/ExtensionPlatformExplorerMcpToolset.java:157 | `indexOf` from a position within the text returns the first occurrence at or after it, or -1 exactly when there is none |
| Text.ContainsIff | src/main/java/de/espend/mcp/devkit/ExtensionPlatformExplorerMcpToolset.java:157 | `contains` holds exactly when the pattern occurs at some position |
| Text.EqualsIgnoreCaseIff | src/main/java/de/espend/mcp/devkit/ExtensionPlatformExplorerMcpToolset.java:94 | `equalsIgnoreCase` (equal, equal upper-cased, or equal lower-cased after upper-casing, per character) is equality of the lower-cased forms |
| Text.LowerOfUpper | src/main/java/de/espend/mcp/devkit/ExtensionPlatformExplorerMcpToolset.java:157 | lower-casing an upper-cased string gives the lower-cased original |
| Usage.DistinctIdsIffCardinality | src/main/java/de/espend/mcp/devkit/ExtensionPlatformExplorerMcpToolset.java:240 | a list has no repeated id exactly when its id set is as large as the list |
| StableSort.SortDescIsStableSort | src/main/java/de/espend/mcp/devkit/ExtensionPlatformExplorerMcpToolset.java:245 | the sort `sorted(comparing(key).reversed())` is descending, a permutation of its input, and keeps the input order among equal keys |
| StableSort.StableSortIsSortDesc | src/main/java/de/espend/mcp/devkit/ExtensionPlatformExplorerMcpToolset.java:245 | any descending arrangement that keeps the order of equal keys is the sort's result, so the stable sort is unique |
| StableSort.SortedPrefixDominates | src/main/java/de/espend/mcp/devkit/ExtensionPlatformExplorerMcpToolset.java:246 | in a descending sort, nothing after a prefix has a larger key than anything in it |
| Selector.Take | src/main/java/de/espend/mcp/devkit/ExtensionPlatformExplorerMcpToolset.java:246 | `limit(n)` keeps the first min(n, length) elements |
| Selector.CandidatesSpec | src/main/java/de/espend/mcp/devkit/ExtensionPlatformExplorerMcpToolset.java:266 | the stage filter keeps exactly the usages whose id is not selected (and that are verified, for stage C), in pool order, so the ids left are the unselected ones and stay distinct |
| Selector.Admit | src/main/java/de/espend/mcp/devkit/ExtensionPlatformExplorerMcpToolset.java:247-250 | the guarded `forEach` only appends: the old result is a prefix, and it grows by at most the batch size |
| Selector.AdmitIds | src/main/java/de/espend/mcp/devkit/ExtensionPlatformExplorerMcpToolset.java:247-250 | after a guarded stage the selected ids are the old ones plus the batch's, and no id is selected twice |
| Selector.AdmitFresh | src/main/java/de/espend/mcp/devkit/ExtensionPlatformExplorerMcpToolset.java:247-250 | a batch with distinct, unselected ids is appended whole |
| Selector.AdmitSorted | src/main/java/de/espend/mcp/devkit/ExtensionPlatformExplorerMcpToolset.java:244-250 | what the guard appends from a sorted batch is still sorted |
| Selector.Select | src/main/java/de/espend/mcp/devkit/ExtensionPlatformExplorerMcpToolset.java:239-290 | the selection has no repeated id, holds only pool members, and has at most 13 entries, for any pool |
| Selector.SelectStages | src/main/java/de/espend/mcp/devkit/ExtensionPlatformExplorerMcpToolset.java:243-286 | on a pool with distinct ids the selection is stage A, B, C and D concatenated, each defined without the guard |
| Selector.SelectLength | src/main/java/de/espend/mcp/devkit/ExtensionPlatformExplorerMcpToolset.java:276-287 | on a pool of n distinct ids the selection has exactly min(n, 13) entries |
| Selector.SmallPoolIsPermutation | src/main/java/de/espend/mcp/devkit/ExtensionPlatformExplorerMcpToolset.java:239-290 | a pool of at most 13 distinct ids comes back complete, as a permutation |
| Selector.StageAShape | src/main/java/de/espend/mcp/devkit/ExtensionPlatformExplorerMcpToolset.java:244-246 | stage A has min(3, n) entries sorted by downloads, descending |
| Selector.StageBShape | src/main/java/de/espend/mcp/devkit/ExtensionPlatformExplorerMcpToolset.java:254-257 | stage B has min(3, n − \|A\|) entries sorted by last update date, descending |
| Selector.StageCDShape | src/main/java/de/espend/mcp/devkit/ExtensionPlatformExplorerMcpToolset.java:265-281 | stage C has at most 3 entries; C and D are each sorted by downloads, descending |
| Selector.PopularIsTop | src/main/java/de/espend/mcp/devkit/ExtensionPlatformExplorerMcpToolset.java:244-246 | no usage outside stage A has more downloads than one inside it |
| Selector.RecentIsTop | src/main/java/de/espend/mcp/devkit/ExtensionPlatformExplorerMcpToolset.java:254-257 | no usage outside A and B has a later update date than one in B |
| Selector.VerifiedIsTop | src/main/java/de/espend/mcp/devkit/ExtensionPlatformExplorerMcpToolset.java:265-268 | every stage-C usage is verified, and no verified usage outside A, B and C has more downloads than one in C |
| Selector.FillIsTop | src/main/java/de/espend/mcp/devkit/ExtensionPlatformExplorerMcpToolset.java:276-281 | no usage left out of all four stages has more downloads than one in D |
| Aggregator.Records | src/main/java/de/espend/mcp/devkit/ExtensionPlatformExplorerMcpToolset.java:202-208 | the walk covers exactly the records of a 200 response that has the `data.plugins.plugins` path, and no records from any other outcome |
| Aggregator.Convert | src/main/java/de/espend/mcp/devkit/ExtensionPlatformExplorerMcpToolset.java:210-230 | a record is retained exactly when it has an id and a non-empty source URL, and its usage carries that id and URL |
| Aggregator.ConvertDefaults | src/main/java/de/espend/mcp/devkit/ExtensionPlatformExplorerMcpToolset.java:220-228 | a missing name becomes "Unknown" and missing downloads or update date become 0; `verified` holds only when the organization's flag is present and true |
| Aggregator.FirstRetained | src/main/java/de/espend/mcp/devkit/ExtensionPlatformExplorerMcpToolset.java:211 | the index of the first record retained under an id, with no retained one before it, or -1 when there is none |
| Aggregator.AdmitRecordSpec | src/main/java/de/espend/mcp/devkit/ExtensionPlatformExplorerMcpToolset.java:210-230 | one iteration appends the record's usage exactly when it is retained and its id is new, and otherwise leaves the map unchanged |
| Aggregator.AbsorbKeeps | src/main/java/de/espend/mcp/devkit/ExtensionPlatformExplorerMcpToolset.java:208-231 | walking records keeps ids distinct and source URLs non-empty, and never changes an entry already present |
| Aggregator.AbsorbIds | src/main/java/de/espend/mcp/devkit/ExtensionPlatformExplorerMcpToolset.java:208-231 | an id ends up in the map exactly when it was there before or some record is retained under it |
| Aggregator.AbsorbFirstWins | src/main/java/de/espend/mcp/devkit/ExtensionPlatformExplorerMcpToolset.java:211-213 | every added entry is the usage of the first record retained under its id |
| Aggregator.AbsorbComplete | src/main/java/de/espend/mcp/devkit/ExtensionPlatformExplorerMcpToolset.java:230 | the usage of the first record retained under a new id is in the map |
| Aggregator.AbsorbOrder | src/main/java/de/espend/mcp/devkit/ExtensionPlatformExplorerMcpToolset.java:166 | added entries are in the order of their first retained records (insertion order of the map) |
| Aggregator.AbsorbAppend | src/main/java/de/espend/mcp/devkit/ExtensionPlatformExplorerMcpToolset.java:168-172 | walking two record lists one after the other is walking their concatenation |
| Aggregator.CollectWellFormed | src/main/java/de/espend/mcp/devkit/ExtensionPlatformExplorerMcpToolset.java:165-174 | the merged pool has distinct ids and non-empty source URLs |
| Aggregator.CollectIsOneWalk | src/main/java/de/espend/mcp/devkit/ExtensionPlatformExplorerMcpToolset.java:168-172 | the merge walks the "downloads" records, then the "update date" records, as one list |
| Aggregator.CollectFirstWins | src/main/java/de/espend/mcp/devkit/ExtensionPlatformExplorerMcpToolset.java:168-172 | every pooled usage is the first record retained under its id across both responses |
| Aggregator.CollectPrefersFirstResponse | src/main/java/de/espend/mcp/devkit/ExtensionPlatformExplorerMcpToolset.java:168-169 | a plugin retained from the "downloads" response keeps that record's values, whatever the second response says |
| Aggregator.CollectFallsBack | src/main/java/de/espend/mcp/devkit/ExtensionPlatformExplorerMcpToolset.java:171-172 | a plugin the first response did not retain comes from the first "update date" record retained under its id |
| ExtensionIndex.NamesOf | src/main/java/de/espend/mcp/devkit/ExtensionPlatformExplorerMcpToolset.java:138-142 | a name is collected exactly when some element carries it |
| ExtensionIndex.Snapshot | src/main/java/de/espend/mcp/devkit/ExtensionPlatformExplorerMcpToolset.java:136-149 | a 200 listing gives exactly its non-null names; any other outcome gives the empty set |
| ExtensionIndex.SnapshotIgnoresOrder | src/main/java/de/espend/mcp/devkit/ExtensionPlatformExplorerMcpToolset.java:138-142 | listing order and repeated names do not change the index |
| ExtensionIndex.Search | src/main/java/de/espend/mcp/devkit/ExtensionPlatformExplorerMcpToolset.java:153-163 | the matches are a subset of the index |
| ExtensionIndex.SearchLoop | src/main/java/de/espend/mcp/devkit/ExtensionPlatformExplorerMcpToolset.java:156-160 | the loop that adds each matching entry computes exactly the set of matching entries |
| ExtensionIndex.SearchIgnoresQueryCase | src/main/java/de/espend/mcp/devkit/ExtensionPlatformExplorerMcpToolset.java:157 | an upper-cased or lower-cased query finds the same names as the query itself |
| ExtensionIndex.EmptyQueryMatchesAll | src/main/java/de/espend/mcp/devkit/ExtensionPlatformExplorerMcpToolset.java:153-163 | the empty query returns the whole index |
| ExtensionIndex.SearchNarrows | src/main/java/de/espend/mcp/devkit/ExtensionPlatformExplorerMcpToolset.java:157 | a query that contains another finds a subset of what the other finds |
| ExtensionIndex.SearchSnapshot | src/main/java/de/espend/mcp/devkit/ExtensionPlatformExplorerMcpToolset.java:153-163 | a search finds a name exactly when a 200 listing carries it and it matches |
| GitHubLink.MatchAtSound | src/main/java/de/espend/mcp/devkit/ExtensionPlatformExplorerMcpToolset.java:300-305 | what the matcher reports at a position is a regex match there, with greedy groups |
| GitHubLink.MatchAtComplete | src/main/java/de/espend/mcp/devkit/ExtensionPlatformExplorerMcpToolset.java:300-305 | any regex match at a position makes the matcher succeed there, with the same owner and a repository name it extends |
| GitHubLink.GreedyMatchAtComplete | src/main/java/de/espend/mcp/devkit/ExtensionPlatformExplorerMcpToolset.java:300-305 | the greedy regex match at a position is exactly what the matcher reports |
| GitHubLink.FindFrom | src/main/java/de/espend/mcp/devkit/ExtensionPlatformExplorerMcpToolset.java:304 | `find` reports the first start at which the matcher succeeds, or fails when it succeeds nowhere |
| GitHubLink.FindIsLeftmost | src/main/java/de/espend/mcp/devkit/ExtensionPlatformExplorerMcpToolset.java:304-305 | the reported groups are the greedy match at the leftmost position where any match starts |
| GitHubLink.FindNoneIff | src/main/java/de/espend/mcp/devkit/ExtensionPlatformExplorerMcpToolset.java:304-310 | `find` fails exactly when the pattern matches nowhere |
| GitHubLink.LastIndexOf | src/main/java/de/espend/mcp/devkit/ExtensionPlatformExplorerMcpToolset.java:312 | `lastIndexOf` gives the last position holding the character, or -1 |
| GitHubLink.ShortNameSpec | src/main/java/de/espend/mcp/devkit/ExtensionPlatformExplorerMcpToolset.java:312 | the short name has no dot and is what follows the last dot, or the whole name when there is none |
| GitHubLink.Utf8 | src/main/java/de/espend/mcp/devkit/ExtensionPlatformExplorerMcpToolset.java:318 | a character becomes 1 to 4 bytes, and an ASCII character becomes its own code |
| GitHubLink.FormEncodeIsSafe | src/main/java/de/espend/mcp/devkit/ExtensionPlatformExplorerMcpToolset.java:318 | the encoded query holds only unreserved characters, `+` and `%` |
| GitHubLink.FormEncodeAppend | src/main/java/de/espend/mcp/devkit/ExtensionPlatformExplorerMcpToolset.java:318 | encoding distributes over concatenation |
| GitHubLink.FormRoundTrip | src/main/java/de/espend/mcp/devkit/ExtensionPlatformExplorerMcpToolset.java:318 | decoding the encoding of ASCII text gives the text back |
| GitHubLink.LinkIffMatch | src/main/java/de/espend/mcp/devkit/ExtensionPlatformExplorerMcpToolset.java:303-310 | there is no link exactly when the source URL holds no `github.com/<owner>/<repo>` |
| GitHubLink.LinkDecodes | src/main/java/de/espend/mcp/devkit/ExtensionPlatformExplorerMcpToolset.java:312-318 | for ASCII input the link is the search page prefix, then a `q` value that decodes to `repo:O/R <ext> OR repo:O/R <short> AND (path:*.java OR path:*.kt OR path:*.xml)` for the leftmost match, then `&type=code` |
| Explorer.ExtensionSearchSpec | src/main/java/de/espend/mcp/devkit/ExtensionPlatformExplorerMcpToolset.java:65-70 | the error sentinel comes back exactly when no index name matches; otherwise the reply holds exactly the matching names |
| Explorer.Section | src/main/java/de/espend/mcp/devkit/ExtensionPlatformExplorerMcpToolset.java:98-114 | a section starts with `# <entry>`, a blank line and `## Plugin Implementations:`, and the rest is the implementations body for the usages |
| Explorer.HeadingLines | src/main/java/de/espend/mcp/devkit/ExtensionPlatformExplorerMcpToolset.java:98-99 | the heading of an entry without a line break takes exactly three lines |
| Explorer.SectionLines | src/main/java/de/espend/mcp/devkit/ExtensionPlatformExplorerMcpToolset.java:98-114 | a section takes three heading lines plus one line per usage, or plus the single fallback line when there are none |
| Explorer.SectionsEmptyIff | src/main/java/de/espend/mcp/devkit/ExtensionPlatformExplorerMcpToolset.java:93-115 | no section is written exactly when no index entry equals the name ignoring case |
| Explorer.DetailNotFoundIff | src/main/java/de/espend/mcp/devkit/ExtensionPlatformExplorerMcpToolset.java:117-119 | the not-found sentinel comes back exactly when no index entry equals the name ignoring case |
| Explorer.DetailFromListing | src/main/java/de/espend/mcp/devkit/ExtensionPlatformExplorerMcpToolset.java:93-119 | walking the index of a listing in any iteration order, each name once, the not-found sentinel comes back exactly when no listed name equals the input ignoring case |
| Explorer.SectionsSingle | src/main/java/de/espend/mcp/devkit/ExtensionPlatformExplorerMcpToolset.java:93-115 | with exactly one matching entry, the page is that entry's section alone |
| Explorer.SearchPartHasNoLineBreak | src/main/java/de/espend/mcp/devkit/ExtensionPlatformExplorerMcpToolset.java:103-108 | the optional ` Search: <link>` part never contains a line break |
| Explorer.UsageLineIsOneLine | src/main/java/de/espend/mcp/devkit/ExtensionPlatformExplorerMcpToolset.java:105-109 | a usage whose name and URL have no line break takes exactly one line |
| Explorer.ImplementationsLines | src/main/java/de/espend/mcp/devkit/ExtensionPlatformExplorerMcpToolset.java:102-114 | the body under the heading has one line per usage, or the single "No public implementations" line when there are none |
| Explorer.DetailUsages | src/main/java/de/espend/mcp/devkit/ExtensionPlatformExplorerMcpToolset.java:101 | the usages on a detail page are min(n, 13) of the n merged plugins, with no id twice and non-empty source URLs |

## Left out

- HTTP transport: requests, timeouts and `createHttpClient`. Each response is an
  input value, and a transport failure is its own case.
- The GraphQL query text and the JSON escaping of the request body. These are
  plumbing toward the remote service.
- Gson parsing. Responses arrive as already-decoded records whose fields may be
  absent. `getAsInt` and `getAsLong` are taken to yield in-range values. Gson's
  runtime exceptions on malformed JSON, which the code does not catch, are not
  modelled.
- `HashSet` iteration order and `String.join`. `extension_search` returns the set
  of matches, and `extension_detail` takes the index in iteration order as a
  parameter.
- `extension_list`. It only joins the index snapshot in `HashSet` order.
- Repeated fetches inside `extension_detail`. The code fetches the usages again
  for every matching entry. The model passes the same two responses to every
  section.
- ExtensionIndex.SearchIgnoresQueryCase: assumes a default locale whose case
  mapping of ASCII letters is the root one. `toLowerCase()` and `toUpperCase()`
  use the JVM default locale. Under a Turkish or Azeri locale, `I` lower-cases
  to a dotless `ı` and `i` upper-cases to a dotted `İ`, so a query containing
  `i` or `I` can find different names once its case changes. `equalsIgnoreCase`
  does not depend on the locale.
- Case mapping outside ASCII. `toLowerCase`, `toUpperCase` and
  `equalsIgnoreCase` are modelled on the ASCII letters only.
- GitHubLink.FormRoundTrip: the round trip is proved for ASCII text only. The
  encoder itself handles every character, through its UTF-8 bytes.
- GitHubLink.LinkDecodes: stated for ASCII source URLs and extension names only,
  because it rests on the ASCII round trip.
- Selector.SelectLength: requires distinct ids in the pool. The pool always
  comes from the id-keyed map (`Aggregator.CollectWellFormed`), and
  `Selector.Select` states its bounds for any pool.
- Explorer.ImplementationsLines: requires that names and URLs carry no line
  break. A name containing one would add lines.
- Explorer.SectionLines: requires the same, and also that the entry name
  carries no line break.
- `PsiMcpToolset` is not part of this model. It is a thin wrapper over IDE
  parser services.

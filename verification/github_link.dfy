/**
 * `buildGitHubSearchUrl`: finds the leftmost match of
 * `github\.com/([^/]+)/([^/?#]+)` in a source URL, builds the GitHub code-search
 * query for the repository and the extension point, and form-encodes it into a
 * search link. No match means no link.
 */
module GitHubLink {
  import opened Options
  import opened Text

  const Host := "github.com/"
  /** The characters `[^/]` excludes from the owner group. */
  const OwnerStops: set<char> := {'/'}
  /** The characters `[^/?#]` excludes from the repository group. */
  const RepoStops: set<char> := {'/', '?', '#'}

  /** The two groups of a match. */
  datatype Repo = Repo(owner: string, name: string)

  /** A match: where it starts and its groups. */
  datatype Found = Found(start: nat, repo: Repo)

  /** The end of the run of characters outside `stops` that begins at `from`. */
  function RunEnd(s: string, from: nat, stops: set<char>): (r: nat)
    requires from <= |s|
    ensures from <= r <= |s|
    ensures forall k :: from <= k < r ==> s[k] !in stops
    ensures r < |s| ==> s[r] in stops
    decreases |s| - from
  {
    if from == |s| || s[from] in stops then from else RunEnd(s, from + 1, stops)
  }

  /** No character of `s` is in `stops`. */
  predicate NoneOf(s: string, stops: set<char>) {
    forall k :: 0 <= k < |s| ==> s[k] !in stops
  }

  /**
   * The regular expression matches at `i` with groups `owner` and `name`, for
   * some choice of group lengths: `github.com/`, then a non-empty owner without
   * `/`, then `/`, then a non-empty name without `/`, `?` or `#`.
   */
  ghost predicate RegexMatchAt(s: string, i: int, owner: string, name: string) {
    var o := i + |Host|;
    var slash := o + |owner|;
    0 <= i && slash + 1 + |name| <= |s|
    && s[i..o] == Host
    && s[o..slash] == owner && |owner| > 0 && NoneOf(owner, OwnerStops)
    && s[slash] == '/'
    && s[slash + 1..slash + 1 + |name|] == name && |name| > 0 && NoneOf(name, RepoStops)
  }

  /** The match `Matcher.find` reports at `i`: greedy groups, so the name runs as far as it can. */
  ghost predicate GreedyMatchAt(s: string, i: int, owner: string, name: string) {
    RegexMatchAt(s, i, owner, name)
    && var end := i + |Host| + |owner| + 1 + |name|;
    (end == |s| || s[end] in RepoStops)
  }

  /** The matcher at one start position. */
  function MatchAt(s: string, i: nat): Option<Repo>
    requires i <= |s|
  {
    var o := i + |Host|;
    if o <= |s| && s[i..o] == Host then
      var slash := RunEnd(s, o, OwnerStops);
      if o < slash < |s| then
        var end := RunEnd(s, slash + 1, RepoStops);
        if slash + 1 < end then Some(Repo(s[o..slash], s[slash + 1..end])) else None
      else None
    else None
  }

  /** What the matcher reports at `i` is the greedy regex match there. */
  lemma MatchAtSound(s: string, i: nat)
    requires i <= |s| && MatchAt(s, i).Some?
    ensures GreedyMatchAt(s, i, MatchAt(s, i).value.owner, MatchAt(s, i).value.name)
  {
    var r := MatchAt(s, i).value;
    var o := i + |Host|;
    var slash := o + |r.owner|;
    assert NoneOf(r.owner, OwnerStops) by {
      forall k | 0 <= k < |r.owner|
        ensures r.owner[k] !in OwnerStops
      {
        assert r.owner[k] == s[o + k];
      }
    }
    assert NoneOf(r.name, RepoStops) by {
      forall k | 0 <= k < |r.name|
        ensures r.name[k] !in RepoStops
      {
        assert r.name[k] == s[slash + 1 + k];
      }
    }
  }

  /** A run that stops exactly at `e` ends at `e`. */
  lemma {:induction false} RunEndExact(s: string, from: nat, stops: set<char>, e: nat)
    requires from <= e <= |s|
    requires forall k :: from <= k < e ==> s[k] !in stops
    requires e == |s| || s[e] in stops
    ensures RunEnd(s, from, stops) == e
    decreases e - from
  {
    if from < e {
      RunEndExact(s, from + 1, stops, e);
    }
  }

  /** Every regex match at `i` makes the matcher succeed there, with the same owner and a name it extends. */
  lemma MatchAtComplete(s: string, i: nat, owner: string, name: string)
    ensures RegexMatchAt(s, i, owner, name) ==>
      i <= |s| && MatchAt(s, i).Some? && MatchAt(s, i).value.owner == owner
      && name <= MatchAt(s, i).value.name
  {
    if RegexMatchAt(s, i, owner, name) {
      var o := i + |Host|;
      var slash := o + |owner|;
      forall k | o <= k < slash
        ensures s[k] !in OwnerStops
      {
        assert s[k] == owner[k - o];
      }
      RunEndExact(s, o, OwnerStops, slash);
      var end := RunEnd(s, slash + 1, RepoStops);
      assert s[slash + 1] == name[0];
      forall k | slash + 1 <= k < slash + 1 + |name|
        ensures s[k] !in RepoStops
      {
        assert s[k] == name[k - slash - 1];
      }
      RunEndAtLeast(s, slash + 1, RepoStops, slash + 1 + |name|);
      assert name == s[slash + 1..end][..|name|];
    }
  }

  /** A run without stops up to `e` ends at `e` or later. */
  lemma {:induction false} RunEndAtLeast(s: string, from: nat, stops: set<char>, e: nat)
    requires from <= e <= |s|
    requires forall k :: from <= k < e ==> s[k] !in stops
    ensures e <= RunEnd(s, from, stops)
    decreases e - from
  {
    if from < e {
      RunEndAtLeast(s, from + 1, stops, e);
    }
  }

  /** The greedy match is the one the matcher reports: the two agree exactly. */
  lemma GreedyMatchAtComplete(s: string, i: nat, owner: string, name: string)
    requires GreedyMatchAt(s, i, owner, name)
    ensures MatchAt(s, i) == Some(Repo(owner, name))
  {
    MatchAtComplete(s, i, owner, name);
    var slash := i + |Host| + |owner|;
    forall k | slash + 1 <= k < slash + 1 + |name|
      ensures s[k] !in RepoStops
    {
      assert s[k] == name[k - slash - 1];
    }
    RunEndExact(s, slash + 1, RepoStops, slash + 1 + |name|);
  }

  /** `Matcher.find` from position `i`: the first start at or after `i` where the matcher succeeds. */
  function FindFrom(s: string, i: nat): (r: Option<Found>)
    requires i <= |s|
    ensures r.Some? ==> i <= r.value.start <= |s| && MatchAt(s, r.value.start) == Some(r.value.repo)
    ensures r.Some? ==> forall j :: i <= j < r.value.start ==> MatchAt(s, j).None?
    ensures r.None? ==> forall j :: i <= j <= |s| ==> MatchAt(s, j).None?
    decreases |s| - i
  {
    match MatchAt(s, i)
    case Some(repo) => Some(Found(i, repo))
    case None => if i == |s| then None else FindFrom(s, i + 1)
  }

  function Find(s: string): Option<Found> {
    FindFrom(s, 0)
  }

  /** `find` reports the leftmost match, with greedy groups; no match starts earlier. */
  lemma FindIsLeftmost(s: string)
    requires Find(s).Some?
    ensures GreedyMatchAt(s, Find(s).value.start, Find(s).value.repo.owner, Find(s).value.repo.name)
    ensures forall j, owner, name :: 0 <= j < Find(s).value.start ==> !RegexMatchAt(s, j, owner, name)
  {
    var f := Find(s).value;
    MatchAtSound(s, f.start);
    forall j: nat, owner, name | j < f.start
      ensures !RegexMatchAt(s, j, owner, name)
    {
      MatchAtComplete(s, j, owner, name);
    }
  }

  /** `find` fails exactly when the regular expression matches nowhere. */
  lemma FindNoneIff(s: string)
    ensures Find(s).None? <==> forall j, owner, name :: !RegexMatchAt(s, j, owner, name)
  {
    if Find(s).None? {
      forall j: int, owner, name
        ensures !RegexMatchAt(s, j, owner, name)
      {
        if 0 <= j {
          MatchAtComplete(s, j, owner, name);
        }
      }
    } else {
      var f := Find(s).value;
      MatchAtSound(s, f.start);
      assert RegexMatchAt(s, f.start, f.repo.owner, f.repo.name);
    }
  }

  /** `s.lastIndexOf(c)`: the last position holding `c`, or -1. */
  function LastIndexOf(s: string, c: char): (r: int)
    ensures -1 <= r < |s|
    ensures r >= 0 ==> s[r] == c
    ensures forall k :: r < k < |s| ==> s[k] != c
  {
    if |s| == 0 then -1
    else if s[|s| - 1] == c then |s| - 1
    else LastIndexOf(s[..|s| - 1], c)
  }

  /** A one-character pattern is contained exactly when the character occurs. */
  lemma ContainsChar(s: string, c: char)
    ensures Contains(s, [c]) <==> c in s
  {
    ContainsIff(s, [c], 0);
    if Contains(s, [c]) {
      var k := IndexOf(s, [c]);
      assert s[k] == s[k..k + 1][0];
    }
    if c in s {
      var k :| 0 <= k < |s| && s[k] == c;
      assert s[k..k + 1] == [c];
      ContainsIff(s, [c], k);
    }
  }

  /** The text after the last `.`, or the whole name when it has none. */
  function ShortName(extension: string): string {
    if Contains(extension, ".") then extension[LastIndexOf(extension, '.') + 1..] else extension
  }

  /** The short name is the dot-free tail of the extension name, cut right after its last dot. */
  lemma ShortNameSpec(extension: string)
    ensures '.' !in ShortName(extension)
    ensures '.' in extension ==> exists head :: extension == head + "." + ShortName(extension)
    ensures '.' !in extension ==> ShortName(extension) == extension
  {
    ContainsChar(extension, '.');
    if '.' in extension {
      var k := LastIndexOf(extension, '.');
      var head := extension[..k];
      assert extension == head + "." + extension[k + 1..];
    }
  }

  function OwnerRepo(repo: Repo): string {
    repo.owner + "/" + repo.name
  }

  const PathFilter := " AND (path:*.java OR path:*.kt OR path:*.xml)"

  /** The code-search query: the full name or the short name, in the matched repository, in Java, Kotlin or XML files. */
  function Query(repo: Repo, extension: string): string {
    "repo:" + OwnerRepo(repo) + " " + extension + " OR repo:" + OwnerRepo(repo) + " " + ShortName(extension) + PathFilter
  }

  /** The characters `URLEncoder` leaves alone. */
  predicate Unreserved(c: char) {
    'a' <= c <= 'z' || 'A' <= c <= 'Z' || '0' <= c <= '9' || c == '.' || c == '-' || c == '*' || c == '_'
  }

  /** The UTF-8 bytes of one character. */
  function Utf8(c: char): (r: seq<nat>)
    ensures 1 <= |r| <= 4
    ensures forall k :: 0 <= k < |r| ==> r[k] < 256
    ensures c as int < 0x80 ==> r == [c as int]
  {
    var v := c as int;
    if v < 0x80 then [v]
    else if v < 0x800 then [0xC0 + v / 0x40, 0x80 + v % 0x40]
    else if v < 0x1_0000 then [0xE0 + v / 0x1000, 0x80 + v / 0x40 % 0x40, 0x80 + v % 0x40]
    else [0xF0 + v / 0x4_0000, 0x80 + v / 0x1000 % 0x40, 0x80 + v / 0x40 % 0x40, 0x80 + v % 0x40]
  }

  /** An upper-case hexadecimal digit. */
  function HexDigit(d: nat): (r: char)
    requires d < 16
    ensures IsHexDigit(r) && HexValue(r) == d
  {
    if d < 10 then ('0' as int + d) as char else ('A' as int + d - 10) as char
  }

  predicate IsHexDigit(c: char) {
    '0' <= c <= '9' || 'A' <= c <= 'F' || 'a' <= c <= 'f'
  }

  function HexValue(c: char): nat
    requires IsHexDigit(c)
  {
    if '0' <= c <= '9' then c as int - '0' as int
    else if 'A' <= c <= 'F' then c as int - 'A' as int + 10
    else c as int - 'a' as int + 10
  }

  /** `%XY` for each byte. */
  function Escape(bytes: seq<nat>): string
    requires forall k :: 0 <= k < |bytes| ==> bytes[k] < 256
  {
    if |bytes| == 0 then ""
    else ['%', HexDigit(bytes[0] / 16), HexDigit(bytes[0] % 16)] + Escape(bytes[1..])
  }

  function EncodeChar(c: char): string {
    if Unreserved(c) then [c] else if c == ' ' then "+" else Escape(Utf8(c))
  }

  /** `URLEncoder.encode(s, UTF_8)`, character by character. */
  function FormEncode(s: string): string {
    if |s| == 0 then "" else EncodeChar(s[0]) + FormEncode(s[1..])
  }

  /** A character that may appear in the query parameter of the link. */
  predicate UrlSafe(c: char) {
    Unreserved(c) || c == '+' || c == '%'
  }

  lemma {:induction false} EscapeIsSafe(bytes: seq<nat>)
    requires forall k :: 0 <= k < |bytes| ==> bytes[k] < 256
    ensures forall k :: 0 <= k < |Escape(bytes)| ==> UrlSafe(Escape(bytes)[k])
  {
    if |bytes| > 0 {
      EscapeIsSafe(bytes[1..]);
    }
  }

  /** The encoded query holds only unreserved characters, `+` and `%`: no `&`, `#` or space ends the parameter early. */
  lemma {:induction false} FormEncodeIsSafe(s: string)
    ensures forall k :: 0 <= k < |FormEncode(s)| ==> UrlSafe(FormEncode(s)[k])
  {
    if |s| > 0 {
      FormEncodeIsSafe(s[1..]);
      if !Unreserved(s[0]) && s[0] != ' ' {
        EscapeIsSafe(Utf8(s[0]));
      }
    }
  }

  /** Encoding distributes over concatenation. */
  lemma {:induction false} FormEncodeAppend(a: string, b: string)
    ensures FormEncode(a + b) == FormEncode(a) + FormEncode(b)
  {
    if |a| == 0 {
      assert a + b == b;
    } else {
      assert (a + b)[0] == a[0];
      assert (a + b)[1..] == a[1..] + b;
      FormEncodeAppend(a[1..], b);
    }
  }

  function Prepend(c: char, rest: Option<string>): Option<string> {
    if rest.Some? then Some([c] + rest.value) else None
  }

  /**
   * A form decoder for ASCII text, the partner of `FormEncode`: `+` is a space,
   * `%XY` an ASCII byte; a malformed escape or a non-ASCII byte is rejected.
   */
  function FormDecode(t: string): Option<string>
    decreases |t|
  {
    if |t| == 0 then Some("")
    else if t[0] == '%' then
      if |t| >= 3 && IsHexDigit(t[1]) && IsHexDigit(t[2]) && HexValue(t[1]) * 16 + HexValue(t[2]) < 0x80 then
        Prepend((HexValue(t[1]) * 16 + HexValue(t[2])) as char, FormDecode(t[3..]))
      else None
    else if t[0] == '+' then Prepend(' ', FormDecode(t[1..]))
    else Prepend(t[0], FormDecode(t[1..]))
  }

  lemma DecodeEncodedChar(c: char, rest: string)
    requires c as int < 0x80
    ensures FormDecode(EncodeChar(c) + rest) == Prepend(c, FormDecode(rest))
  {
    if !Unreserved(c) && c != ' ' {
      var v := c as int;
      var t := EncodeChar(c) + rest;
      assert Escape([v]) == ['%', HexDigit(v / 16), HexDigit(v % 16)];
      assert t[3..] == rest;
    } else {
      assert (EncodeChar(c) + rest)[1..] == rest;
    }
  }

  /** Decoding undoes encoding on ASCII text. */
  lemma {:induction false} FormRoundTrip(s: string)
    requires IsAscii(s)
    ensures FormDecode(FormEncode(s)) == Some(s)
  {
    if |s| > 0 {
      FormRoundTrip(s[1..]);
      DecodeEncodedChar(s[0], FormEncode(s[1..]));
      assert s == [s[0]] + s[1..];
    }
  }

  const SearchPrefix := "https://github.com/search?q="
  const SearchSuffix := "&type=code"

  /** `buildGitHubSearchUrl`: a link only when the source URL names a GitHub repository. */
  function BuildSearchUrl(url: string, extension: string): Option<string> {
    match Find(url)
    case None => None
    case Some(f) => Some(SearchPrefix + FormEncode(Query(f.repo, extension)) + SearchSuffix)
  }

  /** The link is absent exactly when no `github.com/<owner>/<repo>` occurs in the source URL. */
  lemma LinkIffMatch(url: string, extension: string)
    ensures BuildSearchUrl(url, extension).None? <==> forall j, owner, name :: !RegexMatchAt(url, j, owner, name)
  {
    FindNoneIff(url);
  }

  lemma AsciiAppend(a: string, b: string)
    requires IsAscii(a) && IsAscii(b)
    ensures IsAscii(a + b)
  {
    assert forall k :: 0 <= k < |b| ==> (a + b)[|a| + k] == b[k];
  }

  lemma AsciiSlice(s: string, i: nat, j: nat)
    requires IsAscii(s) && i <= j <= |s|
    ensures IsAscii(s[i..j])
  {
    assert forall k :: 0 <= k < j - i ==> s[i..j][k] == s[i + k];
  }

  /** The matched groups are parts of the URL, so an ASCII URL gives ASCII groups. */
  lemma RepoIsAscii(url: string)
    requires IsAscii(url) && Find(url).Some?
    ensures IsAscii(OwnerRepo(Find(url).value.repo))
  {
    var f := Find(url).value;
    MatchAtSound(url, f.start);
    var o := f.start + |Host|;
    var slash := o + |f.repo.owner|;
    AsciiSlice(url, o, slash);
    AsciiSlice(url, slash + 1, slash + 1 + |f.repo.name|);
    AsciiAppend(f.repo.owner, "/");
    AsciiAppend(f.repo.owner + "/", f.repo.name);
  }

  lemma ShortNameIsAscii(extension: string)
    requires IsAscii(extension)
    ensures IsAscii(ShortName(extension))
  {
    var k := LastIndexOf(extension, '.');
    AsciiSlice(extension, k + 1, |extension|);
  }

  /** The path filter is plain ASCII: every position is among the characters listed. */
  lemma PathFilterIsAscii()
    ensures IsAscii(PathFilter)
  {
    forall i | 0 <= i < |PathFilter|
      ensures PathFilter[i] < 128 as char
    {
      assert PathFilter[i] in " AND(path:*.jvORktxml)";
    }
  }

  /** The query template over ASCII pieces is ASCII. */
  lemma TemplateIsAscii(or: string, extension: string, short: string)
    requires IsAscii(or) && IsAscii(extension) && IsAscii(short)
    ensures IsAscii("repo:" + or + " " + extension + " OR repo:" + or + " " + short + PathFilter)
  {
    var t1 := "repo:" + or;
    AsciiAppend("repo:", or);
    var t2 := t1 + " ";
    AsciiAppend(t1, " ");
    var t3 := t2 + extension;
    AsciiAppend(t2, extension);
    var t4 := t3 + " OR repo:";
    AsciiAppend(t3, " OR repo:");
    var t5 := t4 + or;
    AsciiAppend(t4, or);
    var t6 := t5 + " ";
    AsciiAppend(t5, " ");
    var t7 := t6 + short;
    AsciiAppend(t6, short);
    PathFilterIsAscii();
    AsciiAppend(t7, PathFilter);
  }

  /** For ASCII input, the query is ASCII too. */
  lemma QueryIsAscii(url: string, extension: string)
    requires IsAscii(url) && IsAscii(extension) && Find(url).Some?
    ensures IsAscii(Query(Find(url).value.repo, extension))
  {
    RepoIsAscii(url);
    ShortNameIsAscii(extension);
    TemplateIsAscii(OwnerRepo(Find(url).value.repo), extension, ShortName(extension));
  }

  /**
   * For an ASCII source URL and extension name, the link is the search page
   * with a `q` parameter that decodes to the query for the leftmost matched
   * repository, and `type=code`.
   */
  lemma LinkDecodes(url: string, extension: string)
    requires IsAscii(url) && IsAscii(extension)
    requires BuildSearchUrl(url, extension).Some?
    ensures var link := BuildSearchUrl(url, extension).value;
      |SearchPrefix| + |SearchSuffix| <= |link|
      && link[..|SearchPrefix|] == SearchPrefix
      && link[|link| - |SearchSuffix|..] == SearchSuffix
      && FormDecode(link[|SearchPrefix|..|link| - |SearchSuffix|]) == Some(Query(Find(url).value.repo, extension))
  {
    var q := Query(Find(url).value.repo, extension);
    var link := BuildSearchUrl(url, extension).value;
    QueryIsAscii(url, extension);
    FormRoundTrip(q);
    assert link[|SearchPrefix|..|link| - |SearchSuffix|] == FormEncode(q);
  }
}

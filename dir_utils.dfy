/**
 * Directory and file enumeration of a web target (`enumerate_directories_files`):
 * normalise the target into a base URL, load the candidate paths from a wordlist,
 * send one HEAD request per path and collect a finding line for every path that
 * answers 200, 301 or 403.
 *
 * The HTTP client is a parameter: a `Server` maps each URL to the reply (or the
 * request failure) that `requests.head` would produce for it.  The worker pool is
 * modelled as a sequential loop over the paths; `EntriesPermutation` shows that the
 * collected findings, as a multiset, do not depend on the order of completion.
 */
module DirUtils {
  import opened Wrappers
  import opened Strings
  import opened Selection

  // ---------------------------------------------------------------------------
  // Target normaliser
  // ---------------------------------------------------------------------------

  const HttpScheme: string := "http://"
  const HttpsScheme: string := "https://"

  predicate HasScheme(url: string)
  {
    StartsWith(url, HttpScheme) || StartsWith(url, HttpsScheme)
  }

  /** Prefix `http://` unless the string already starts with `http://` or `https://`. */
  function AddScheme(domain: string): (url: string)
    ensures HasScheme(url)
    ensures EndsWith(url, domain)
  {
    if HasScheme(domain) then domain else HttpScheme + domain
  }

  /** Append `/` unless the string already ends with one. */
  function AddTrailingSlash(url: string): (r: string)
    ensures EndsWith(r, "/")
    ensures StartsWith(r, url) && |r| <= |url| + 1
  {
    if EndsWith(url, "/") then url else url + "/"
  }

  lemma StartsWithExtended(s: string, t: string, p: string)
    requires StartsWith(t, s) && StartsWith(s, p)
    ensures StartsWith(t, p)
  {
  }

  /** The base URL every candidate path is appended to. */
  function NormalizeTarget(domain: string): (base: string)
    ensures HasScheme(base) && EndsWith(base, "/")
  {
    var url := AddScheme(domain);
    SchemeSurvivesSlash(url);
    AddTrailingSlash(url)
  }

  lemma SchemeSurvivesSlash(url: string)
    ensures HasScheme(url) ==> HasScheme(AddTrailingSlash(url))
  {
  }

  /**
   * The input survives intact: the base is the input, behind `http://` exactly when
   * the input had no scheme, followed by at most one added `/`, which is added only
   * when the input does not already end in `/`.  A scheme already present
   * (`http://` or `https://`) is kept as it is.
   */
  lemma NormalizeKeepsInput(domain: string)
    ensures var prefix := if HasScheme(domain) then "" else HttpScheme;
      && StartsWith(NormalizeTarget(domain), prefix + domain)
      && |NormalizeTarget(domain)| <= |prefix + domain| + 1
      && (EndsWith(prefix + domain, "/") <==> NormalizeTarget(domain) == prefix + domain)
    ensures StartsWith(domain, HttpScheme) ==> StartsWith(NormalizeTarget(domain), HttpScheme)
    ensures StartsWith(domain, HttpsScheme) ==> StartsWith(NormalizeTarget(domain), HttpsScheme)
  {
    var base := NormalizeTarget(domain);
    if StartsWith(domain, HttpScheme) {
      StartsWithExtended(domain, base, HttpScheme);
    }
    if StartsWith(domain, HttpsScheme) {
      StartsWithExtended(domain, base, HttpsScheme);
    }
  }

  /** Normalising an already normalised base changes nothing, so normalising twice is normalising once. */
  lemma NormalizeIdempotent(domain: string)
    ensures NormalizeTarget(domain) == domain <==> HasScheme(domain) && EndsWith(domain, "/")
    ensures NormalizeTarget(NormalizeTarget(domain)) == NormalizeTarget(domain)
  {
  }

  // ---------------------------------------------------------------------------
  // Wordlist loader
  // ---------------------------------------------------------------------------

  /** What opening and reading the wordlist file yields. */
  datatype WordlistFile =
    | Missing                    // `open` raises FileNotFoundError
    | Unreadable                 // any other error while opening or reading
    | Lines(lines: seq<string>)  // `f.readlines()`

  /** Every path is non-empty and has no whitespace at either end. */
  predicate AllClean(paths: seq<string>)
  {
    forall k :: 0 <= k < |paths| ==> paths[k] != [] && IsStripped(paths[k])
  }

  lemma AllCleanConcat(a: seq<string>, b: seq<string>)
    requires AllClean(a) && AllClean(b)
    ensures AllClean(a + b)
  {
  }

  /** `[line.strip() for line in lines if line.strip()]` */
  function LoadPaths(lines: seq<string>): (paths: seq<string>)
    ensures |paths| <= |lines|
    ensures AllClean(paths)
  {
    if lines == [] then []
    else
      var p := Strip(lines[|lines| - 1]);
      var init := LoadPaths(lines[..|lines| - 1]);
      var tail := if p != [] then [p] else [];
      AllCleanConcat(init, tail);
      init + tail
  }

  lemma SplitLast<T>(s: seq<T>)
    requires s != []
    ensures s == s[..|s| - 1] + [s[|s| - 1]]
  {
  }

  /** A line that `strip` does not reduce to the empty string. */
  predicate NonBlank(line: string)
  {
    Strip(line) != []
  }

  lemma {:induction false} LoadPathsAtKept(lines: seq<string>)
    ensures CorrespondsTo(lines, Selected(lines, NonBlank), LoadPaths(lines))
  {
    if lines != [] {
      var init, last := lines[..|lines| - 1], lines[|lines| - 1];
      LoadPathsAtKept(init);
      SplitLast(lines);
      LoadPathsAtKeptStep(lines, init, last, Selected(init, NonBlank), LoadPaths(init));
    }
  }

  /** One more line keeps the correspondence between kept line numbers and loaded paths. */
  lemma LoadPathsAtKeptStep(lines: seq<string>, init: seq<string>, last: string, kept: seq<nat>, paths: seq<string>)
    requires lines == init + [last]
    requires |kept| == |paths|
    requires forall k :: 0 <= k < |kept| ==> kept[k] < |init| && paths[k] == Strip(init[kept[k]])
    ensures NonBlank(last) ==> CorrespondsTo(lines, kept + [|init|], paths + [Strip(last)])
    ensures !NonBlank(last) ==> CorrespondsTo(lines, kept, paths)
  {
  }

  /** `paths[k]` is the stripped form of line `kept[k]`, for every `k`. */
  predicate CorrespondsTo(lines: seq<string>, kept: seq<nat>, paths: seq<string>)
  {
    && |kept| == |paths|
    && forall k :: 0 <= k < |kept| ==> kept[k] < |lines| && paths[k] == Strip(lines[kept[k]])
  }

  /**
   * The loaded paths are exactly the stripped non-blank lines in file order:
   * the k-th path is the stripped form of line `Selected(lines, NonBlank)[k]`,
   * those line numbers increase (no line is used twice), and a line is used
   * exactly when it is not blank.
   */
  lemma LoadPathsOrigin(lines: seq<string>)
    ensures |Selected(lines, NonBlank)| == |LoadPaths(lines)|
    ensures forall k :: 0 <= k < |Selected(lines, NonBlank)| ==>
      && Selected(lines, NonBlank)[k] < |lines|
      && LoadPaths(lines)[k] == Strip(lines[Selected(lines, NonBlank)[k]])
    ensures forall k, l :: 0 <= k < l < |Selected(lines, NonBlank)| ==>
      Selected(lines, NonBlank)[k] < Selected(lines, NonBlank)[l]
    ensures forall i :: 0 <= i < |lines| ==> (i in Selected(lines, NonBlank) <==> Strip(lines[i]) != [])
  {
    LoadPathsAtKept(lines);
    assert CorrespondsTo(lines, Selected(lines, NonBlank), LoadPaths(lines));
    SelectedIncreasing(lines, NonBlank);
    SelectedExact(lines, NonBlank);
  }

  /** A wordlist of non-empty stripped lines loads as itself, so loading is idempotent. */
  lemma {:induction false} LoadPathsOfCleanList(lines: seq<string>)
    requires AllClean(lines)
    ensures LoadPaths(lines) == lines
  {
    if lines != [] {
      var init, last := lines[..|lines| - 1], lines[|lines| - 1];
      forall k | 0 <= k < |init| ensures init[k] == lines[k] { }
      LoadPathsOfCleanList(init);
      StripFixedPoint(last);
      SplitLast(lines);
    }
  }

  lemma LoadPathsIdempotent(lines: seq<string>)
    ensures LoadPaths(LoadPaths(lines)) == LoadPaths(lines)
  {
    LoadPathsOfCleanList(LoadPaths(lines));
  }

  // ---------------------------------------------------------------------------
  // Response classifier
  // ---------------------------------------------------------------------------

  /** What `requests.head(url, timeout=5, allow_redirects=False)` produces. */
  datatype Reply =
    | RequestFailed   // a RequestException: timeout, connection or protocol error
    | Answered(status: int, contentLength: Option<string>, location: Option<string>)

  /** The HTTP client, fixed for one run: the reply to a HEAD request for each URL. */
  type Server = string -> Reply

  const Unknown: string := "Unknown"

  /** A recorded probe outcome; the other outcomes are not recorded. */
  datatype Finding =
    | Found(path: string, size: string)
    | Redirect(path: string, location: string)
    | Forbidden(path: string, size: string)

  predicate IsFindingReply(reply: Reply)
  {
    reply.Answered? && (reply.status == 200 || reply.status == 301 || reply.status == 403)
  }

  /** The branch on the status code; headers missing from the reply read as "Unknown". */
  function Classify(path: string, reply: Reply): (f: Option<Finding>)
    ensures f.Some? <==> IsFindingReply(reply)
    ensures f.Some? ==> f.value.path == path
  {
    match reply
    case RequestFailed => None
    case Answered(status, contentLength, location) =>
      var size := contentLength.GetOr(Unknown);
      if status == 200 then Some(Found(path, size))
      else if status == 301 then Some(Redirect(path, location.GetOr(Unknown)))
      else if status == 403 then Some(Forbidden(path, size))
      else None
  }

  const Separator: string := " \t\t("
  const FoundTag: string := "200 OK, Size: "
  const RedirectTag: string := "301 Redirect -> "
  const ForbiddenTag: string := "403 Forbidden, Size: "
  const Closing: string := ")\n"

  /** The status text of a finding line. */
  function Tag(f: Finding): string
  {
    match f
    case Found(_, _) => FoundTag
    case Redirect(_, _) => RedirectTag
    case Forbidden(_, _) => ForbiddenTag
  }

  /** The header value a finding line reports: the size, or the redirect target. */
  function Payload(f: Finding): string
  {
    match f
    case Found(_, size) => size
    case Redirect(_, location) => location
    case Forbidden(_, size) => size
  }

  /** The line appended to the result list for a finding. */
  function Format(f: Finding): (entry: string)
    ensures StartsWith(entry, "/" + f.path + Separator) && EndsWith(entry, Closing)
  {
    var head := "/" + f.path + Separator;
    var entry := head + Tag(f) + Payload(f) + Closing;
    assert entry[..|head|] == head;
    entry
  }

  /** Reads the status text and header value of a finding line back. */
  function ParseBody(path: string, body: string): (f: Option<Finding>)
    ensures f.Some? ==> f.value.path == path
  {
    if StartsWith(body, FoundTag) then Some(Found(path, body[|FoundTag|..]))
    else if StartsWith(body, RedirectTag) then Some(Redirect(path, body[|RedirectTag|..]))
    else if StartsWith(body, ForbiddenTag) then Some(Forbidden(path, body[|ForbiddenTag|..]))
    else None
  }

  /** Reads a finding line back, knowing which path it was produced for. */
  function ParseEntry(path: string, entry: string): (f: Option<Finding>)
    ensures f.Some? ==> f.value.path == path
  {
    var head := "/" + path + Separator;
    if !StartsWith(entry, head) || !EndsWith(entry, Closing) || |entry| < |head| + |Closing| then None
    else ParseBody(path, entry[|head|..|entry| - |Closing|])
  }

  /** A formatted line is its head, its body and the closing. */
  lemma FormatShape(f: Finding)
    ensures Format(f) == ("/" + f.path + Separator) + (Tag(f) + Payload(f)) + Closing
  {
  }

  /** A line made of a head, a body and the closing gives that body back. */
  lemma BodyOfEnvelope(entry: string, head: string, body: string)
    requires entry == head + body + Closing
    ensures StartsWith(entry, head) && EndsWith(entry, Closing)
    ensures |entry| >= |head| + |Closing| && entry[|head|..|entry| - |Closing|] == body
  {
  }

  /** A line accepted by the envelope check is head, body and closing. */
  lemma EnvelopeOfBody(entry: string, head: string, body: string)
    requires StartsWith(entry, head) && EndsWith(entry, Closing) && |entry| >= |head| + |Closing|
    requires body == entry[|head|..|entry| - |Closing|]
    ensures entry == head + body + Closing
  {
  }

  lemma PrefixSplits(s: string, prefix: string)
    requires StartsWith(s, prefix)
    ensures s == prefix + s[|prefix|..]
  {
  }

  /** Tags are told apart by their first character. */
  lemma TagsDistinct(body: string, f: Finding)
    requires StartsWith(body, Tag(f))
    ensures StartsWith(body, FoundTag) <==> f.Found?
    ensures StartsWith(body, RedirectTag) <==> f.Redirect?
    ensures StartsWith(body, ForbiddenTag) <==> f.Forbidden?
  {
    assert body[0] == Tag(f)[0];
    assert StartsWith(body, FoundTag) ==> body[0] == '2';
    assert StartsWith(body, RedirectTag) ==> body[0] == '3';
    assert StartsWith(body, ForbiddenTag) ==> body[0] == '4';
  }

  /** The body of a finding's line reads back as that finding. */
  lemma ParseOfBody(f: Finding)
    ensures ParseBody(f.path, Tag(f) + Payload(f)) == Some(f)
  {
    var body := Tag(f) + Payload(f);
    assert body[..|Tag(f)|] == Tag(f);
    TagsDistinct(body, f);
    assert body[|Tag(f)|..] == Payload(f);
  }

  /** A body that reads back as a finding is that finding's status text and header value. */
  lemma BodyOfParse(path: string, body: string)
    ensures ParseBody(path, body).Some? ==>
      Tag(ParseBody(path, body).value) + Payload(ParseBody(path, body).value) == body
  {
    if ParseBody(path, body).Some? {
      PrefixSplits(body, Tag(ParseBody(path, body).value));
    }
  }

  /** Parsing a formatted line, with its own path, gives back the finding. */
  lemma ParseOfFormat(f: Finding)
    ensures ParseEntry(f.path, Format(f)) == Some(f)
  {
    FormatShape(f);
    BodyOfEnvelope(Format(f), "/" + f.path + Separator, Tag(f) + Payload(f));
    ParseOfBody(f);
  }

  /** A line that parses as a finding is that finding's formatted line. */
  lemma FormatOfParse(path: string, entry: string)
    ensures ParseEntry(path, entry).Some? ==> Format(ParseEntry(path, entry).value) == entry
  {
    if ParseEntry(path, entry).Some? {
      var head := "/" + path + Separator;
      var body := entry[|head|..|entry| - |Closing|];
      var f := ParseBody(path, body).value;
      BodyOfParse(path, body);
      EnvelopeOfBody(entry, head, body);
      FormatShape(f);
    }
  }

  /**
   * A finding line and the path it was produced for determine the finding:
   * `ParseEntry` inverts `Format`, and whatever `ParseEntry` accepts formats back
   * to the same line.
   */
  lemma FormatRoundTrip(f: Finding, entry: string)
    ensures ParseEntry(f.path, Format(f)) == Some(f)
    ensures ParseEntry(f.path, entry) == Some(f) ==> Format(f) == entry
  {
    ParseOfFormat(f);
    FormatOfParse(f.path, entry);
  }

  /** Two findings for the same path never produce the same line. */
  lemma FormatInjective(f: Finding, g: Finding)
    requires f.path == g.path && Format(f) == Format(g)
    ensures f == g
  {
    FormatRoundTrip(f, Format(f));
    FormatRoundTrip(g, Format(g));
  }

  /** The optional line that probing `path` against `base` contributes. */
  function Entry(base: string, path: string, server: Server): (e: Option<string>)
    ensures e.Some? <==> IsFindingReply(server(base + path))
  {
    match Classify(path, server(base + path))
    case Some(f) => Some(Format(f))
    case None => None
  }

  /** The exact line for each recorded status, with "Unknown" for a missing header. */
  lemma EntryText(base: string, path: string, server: Server)
    ensures var reply := server(base + path);
      var size := if reply.Answered? && reply.contentLength.Some? then reply.contentLength.value else "Unknown";
      var location := if reply.Answered? && reply.location.Some? then reply.location.value else "Unknown";
      && (reply.Answered? && reply.status == 200 ==>
            Entry(base, path, server) == Some("/" + path + " \t\t(200 OK, Size: " + size + ")\n"))
      && (reply.Answered? && reply.status == 301 ==>
            Entry(base, path, server) == Some("/" + path + " \t\t(301 Redirect -> " + location + ")\n"))
      && (reply.Answered? && reply.status == 403 ==>
            Entry(base, path, server) == Some("/" + path + " \t\t(403 Forbidden, Size: " + size + ")\n"))
      && (!IsFindingReply(reply) ==> Entry(base, path, server) == None)
  {
    var reply := server(base + path);
    if reply.Answered? {
      var size := reply.contentLength.GetOr(Unknown);
      FoundText(path, size);
      RedirectText(path, reply.location.GetOr(Unknown));
      ForbiddenText(path, size);
    }
  }

  lemma FoundText(path: string, size: string)
    ensures Format(Found(path, size)) == "/" + path + " \t\t(200 OK, Size: " + size + ")\n"
  {
    assert "/" + path + Separator + FoundTag == "/" + path + " \t\t(200 OK, Size: ";
  }

  lemma RedirectText(path: string, location: string)
    ensures Format(Redirect(path, location)) == "/" + path + " \t\t(301 Redirect -> " + location + ")\n"
  {
    assert "/" + path + Separator + RedirectTag == "/" + path + " \t\t(301 Redirect -> ";
  }

  lemma ForbiddenText(path: string, size: string)
    ensures Format(Forbidden(path, size)) == "/" + path + " \t\t(403 Forbidden, Size: " + size + ")\n"
  {
    assert "/" + path + Separator + ForbiddenTag == "/" + path + " \t\t(403 Forbidden, Size: ";
  }

  // ---------------------------------------------------------------------------
  // Collector
  // ---------------------------------------------------------------------------

  function OptionToSeq(e: Option<string>): (s: seq<string>)
    ensures |s| <= 1
  {
    if e.Some? then [e.value] else []
  }

  /** The lines collected when the paths are probed one after another, in this order. */
  function Entries(base: string, paths: seq<string>, server: Server): (found: seq<string>)
    ensures |found| <= |paths|
  {
    if paths == [] then []
    else Entries(base, paths[..|paths| - 1], server) + OptionToSeq(Entry(base, paths[|paths| - 1], server))
  }

  /** The test a path passes when probing it records a line. */
  function Recorded(base: string, server: Server): string -> bool
  {
    path => IsFindingReply(server(base + path))
  }

  /** `found[k]` is the entry of path number `hits[k]`, for every `k`. */
  predicate EntriesAt(base: string, paths: seq<string>, server: Server, hits: seq<nat>, found: seq<string>)
  {
    && |hits| == |found|
    && forall k :: 0 <= k < |hits| ==> hits[k] < |paths| && Entry(base, paths[hits[k]], server) == Some(found[k])
  }

  lemma {:induction false} EntriesAtHits(base: string, paths: seq<string>, server: Server)
    ensures EntriesAt(base, paths, server, Selected(paths, Recorded(base, server)), Entries(base, paths, server))
  {
    if paths != [] {
      var init, last := paths[..|paths| - 1], paths[|paths| - 1];
      EntriesAtHits(base, init, server);
      SplitLast(paths);
      EntriesAtStep(base, paths, init, last, server, Selected(init, Recorded(base, server)), Entries(base, init, server));
    }
  }

  /** One more path keeps the correspondence between hit numbers and collected lines. */
  lemma EntriesAtStep(base: string, paths: seq<string>, init: seq<string>, last: string, server: Server,
                      hits: seq<nat>, found: seq<string>)
    requires paths == init + [last]
    requires EntriesAt(base, init, server, hits, found)
    ensures Recorded(base, server)(last) ==>
      EntriesAt(base, paths, server, hits + [|init|], found + OptionToSeq(Entry(base, last, server)))
    ensures !Recorded(base, server)(last) ==>
      EntriesAt(base, paths, server, hits, found + OptionToSeq(Entry(base, last, server)))
  {
  }

  /**
   * Every collected line comes from exactly one path: the k-th line is the entry of
   * path number `Selected(paths, Recorded(base, server))[k]`, those numbers increase
   * (no path contributes twice), and a path contributes exactly when its reply is
   * 200, 301 or 403.  So the number of lines is the number of paths answered with one
   * of those statuses.
   */
  lemma EntriesOrigin(base: string, paths: seq<string>, server: Server)
    ensures |Selected(paths, Recorded(base, server))| == |Entries(base, paths, server)|
    ensures forall k :: 0 <= k < |Selected(paths, Recorded(base, server))| ==>
      && Selected(paths, Recorded(base, server))[k] < |paths|
      && Entry(base, paths[Selected(paths, Recorded(base, server))[k]], server) == Some(Entries(base, paths, server)[k])
    ensures forall k, l :: 0 <= k < l < |Selected(paths, Recorded(base, server))| ==>
      Selected(paths, Recorded(base, server))[k] < Selected(paths, Recorded(base, server))[l]
    ensures forall i :: 0 <= i < |paths| ==>
      (i in Selected(paths, Recorded(base, server)) <==> IsFindingReply(server(base + paths[i])))
  {
    EntriesAtHits(base, paths, server);
    assert EntriesAt(base, paths, server, Selected(paths, Recorded(base, server)), Entries(base, paths, server));
    SelectedIncreasing(paths, Recorded(base, server));
    SelectedExact(paths, Recorded(base, server));
  }

  /** Probing `p` and then `q` collects the lines of `p` followed by those of `q`. */
  lemma {:induction false} EntriesAppend(base: string, p: seq<string>, q: seq<string>, server: Server)
    ensures Entries(base, p + q, server) == Entries(base, p, server) + Entries(base, q, server)
    decreases |q|
  {
    if q == [] {
      assert p + q == p;
    } else {
      var q' := q[..|q| - 1];
      assert (p + q)[..|p + q| - 1] == p + q';
      assert (p + q)[|p + q| - 1] == q[|q| - 1];
      EntriesAppend(base, p, q', server);
    }
  }

  /** Probing one path between two runs of paths inserts its entry between theirs. */
  lemma EntriesAround(base: string, left: seq<string>, x: string, right: seq<string>, server: Server)
    ensures Entries(base, left + [x] + right, server)
      == Entries(base, left, server) + OptionToSeq(Entry(base, x, server)) + Entries(base, right, server)
  {
    assert Entries(base, [x], server) == OptionToSeq(Entry(base, x, server)) by {
      assert [x][..0] == [];
    }
    EntriesAppend(base, left, [x], server);
    EntriesAppend(base, left + [x], right, server);
  }

  lemma MultisetRemoveLast<T>(a: seq<T>, x: T, left: seq<T>, right: seq<T>)
    requires multiset(a + [x]) == multiset(left + [x] + right)
    ensures multiset(a) == multiset(left + right)
  {
    var mx := multiset{x};
    assert multiset(a + [x]) == multiset(a) + mx;
    assert multiset(left + [x] + right) == multiset(left + right) + mx;
    assert multiset(a) == (multiset(a) + mx) - mx;
    assert multiset(left + right) == (multiset(left + right) + mx) - mx;
  }

  /**
   * Completion order does not matter: probing the same paths in any other order
   * collects the same lines, as a multiset.
   */
  lemma {:induction false} EntriesPermutation(base: string, p: seq<string>, q: seq<string>, server: Server)
    requires multiset(p) == multiset(q)
    ensures multiset(Entries(base, p, server)) == multiset(Entries(base, q, server))
    decreases |p|
  {
    if p == [] {
      assert |q| == |multiset(q)| == 0;
    } else {
      var x := p[|p| - 1];
      var p' := p[..|p| - 1];
      assert p == p' + [x];
      assert x in multiset(q);
      var j :| 0 <= j < |q| && q[j] == x;
      var left, right := q[..j], q[j + 1..];
      assert q == left + [x] + right;
      MultisetRemoveLast(p', x, left, right);
      EntriesPermutation(base, p', left + right, server);
      EntriesAround(base, left, x, right, server);
      EntriesAppend(base, left, right, server);
      var ex := OptionToSeq(Entry(base, x, server));
      assert Entries(base, p, server) == Entries(base, p', server) + ex;
      MultisetInsert(Entries(base, p', server), ex, Entries(base, left, server), Entries(base, right, server));
    }
  }

  lemma MultisetInsert<T>(a: seq<T>, x: seq<T>, left: seq<T>, right: seq<T>)
    requires multiset(a) == multiset(left + right)
    ensures multiset(a + x) == multiset(left + x + right)
  {
  }

  // ---------------------------------------------------------------------------
  // The enumeration
  // ---------------------------------------------------------------------------

  /** Exceptions that escape the enumeration. */
  datatype Failure =
    | WordlistUnreadable  // an error other than FileNotFoundError while reading the wordlist
    | NoWorkers           // ThreadPoolExecutor rejects a worker count below 1 (ValueError)

  datatype Outcome = Returned(found: seq<string>) | Raised(failure: Failure)

  /** The URLs requested when the paths are probed in this order: each path appended to the base. */
  function Urls(base: string, paths: seq<string>): (urls: seq<string>)
    ensures |urls| == |paths|
    ensures forall i :: 0 <= i < |paths| ==> urls[i] == base + paths[i]
  {
    if paths == [] then [] else Urls(base, paths[..|paths| - 1]) + [base + paths[|paths| - 1]]
  }

  /**
   * The submission loop with the nested probe of each path: request `base + path`,
   * append the finding line if the reply is recorded, and advance the progress
   * counter whatever the outcome.
   */
  method ProbeAll(base: string, paths: seq<string>, server: Server)
    returns (found: seq<string>, requested: seq<string>, progress: nat)
    ensures found == Entries(base, paths, server)
    ensures progress == |paths|
    ensures requested == Urls(base, paths)
    ensures paths == [] ==> found == [] && requested == []
  {
    found, requested, progress := [], [], 0;
    for i := 0 to |paths|
      invariant found == Entries(base, paths[..i], server)
      invariant progress == i
      invariant requested == Urls(base, paths[..i])
    {
      var path := paths[i];
      assert paths[..i + 1][..i] == paths[..i];
      assert Entries(base, paths[..i + 1], server) == found + OptionToSeq(Entry(base, path, server));
      assert Urls(base, paths[..i + 1]) == requested + [base + path];
      var url := base + path;
      requested := requested + [url];
      var reply := server(url);
      match Classify(path, reply) {
        case Some(f) => found := found + [Format(f)];
        case None =>
      }
      progress := progress + 1;
    }
    assert paths[..|paths|] == paths;
  }

  /**
   * `enumerate_directories_files(domain, wordlist_path, threads)`.  Besides the outcome
   * it returns the URLs requested, in order, and the final value of the progress counter.
   */
  method EnumerateDirectoriesFiles(domain: string, wordlist: WordlistFile, server: Server, threads: int)
    returns (outcome: Outcome, requested: seq<string>, progress: nat)
    ensures wordlist.Missing? ==> outcome == Returned([]) && requested == [] && progress == 0
    ensures wordlist.Unreadable? ==> outcome == Raised(WordlistUnreadable) && requested == [] && progress == 0
    ensures wordlist.Lines? && threads < 1 ==> outcome == Raised(NoWorkers) && requested == [] && progress == 0
    ensures wordlist.Lines? && threads >= 1 ==>
      var base := NormalizeTarget(domain);
      var paths := LoadPaths(wordlist.lines);
      && outcome == Returned(Entries(base, paths, server))
      && progress == |paths|
      && requested == Urls(base, paths)
  {
    var base := domain;
    if !StartsWith(base, HttpScheme) && !StartsWith(base, HttpsScheme) {
      base := HttpScheme + base;
    }
    if !EndsWith(base, "/") {
      base := base + "/";
    }
    assert base == NormalizeTarget(domain);

    match wordlist {
      case Missing =>
        return Returned([]), [], 0;
      case Unreadable =>
        return Raised(WordlistUnreadable), [], 0;
      case Lines(lines) =>
        var paths := LoadPaths(lines);
        if threads < 1 {
          return Raised(NoWorkers), [], 0;
        }
        var found;
        found, requested, progress := ProbeAll(base, paths, server);
        outcome := Returned(found);
    }
  }

  lemma ProbeThreePaths(base: string, a: string, b: string, c: string, server: Server)
    ensures Entries(base, [a, b, c], server)
      == OptionToSeq(Entry(base, a, server)) + OptionToSeq(Entry(base, b, server)) + OptionToSeq(Entry(base, c, server))
  {
    assert [a, b, c][..2] == [a, b] && [a, b][..1] == [a] && [a][..0] == [];
    assert Entries(base, [a], server) == OptionToSeq(Entry(base, a, server));
    assert Entries(base, [a, b], server) == Entries(base, [a], server) + OptionToSeq(Entry(base, b, server));
  }

  /**
   * A worked example: `admin` answers 200 with length 1234,
   * `backup` answers 403 with length 0 and `login` answers 404; the findings are
   * Found(admin, 1234) and Forbidden(backup, 0), and `login` records nothing.
   */
  lemma ThreePathScenario(base: string, server: Server)
    requires server(base + "admin") == Answered(200, Some("1234"), None)
    requires server(base + "backup") == Answered(403, Some("0"), None)
    requires server(base + "login") == Answered(404, None, None)
    ensures Entries(base, ["admin", "backup", "login"], server)
      == [Format(Found("admin", "1234")), Format(Forbidden("backup", "0"))]
  {
    ProbeThreePaths(base, "admin", "backup", "login", server);
  }

  /** A wordlist line with a single trailing newline loads as the word itself. */
  lemma LoadWordLine(word: string)
    requires word != [] && IsStripped(word)
    ensures LoadPaths([word + "\n"]) == [word]
  {
    assert AllSpace("\n");
    StripUnique(word + "\n", [], word, "\n");
    assert [word + "\n"][..0] == [];
  }
}

/** The text processing of the tracking-code deployment script
    (automation-scripts/deploy-tracking.js): the script name derived from a
    website id, the `domain;id` input file, the tracking tag put into HTML
    pages, and the proxy block put into a site's nginx configuration. Files,
    shell commands and the network are not modelled: file contents and flags
    are parameters. */
module DeployTracking {
  import opened Wrappers
  import opened Strings

  // ---------------------------------------------------------------------------
  // Script names

  /** `generateScriptName`: the website id with its dashes removed, cut to
      its first eight characters, followed by `.js`. */
  function GenerateScriptName(websiteId: string): (name: string)
    ensures EndsWith(name, ".js") && '-' !in name
    ensures var hash := RemoveChar(websiteId, '-');
      && |name| == 3 + (if |hash| < 8 then |hash| else 8)
      && StartsWith(hash, name[..|name| - 3])
  {
    var hash := RemoveChar(websiteId, '-');
    var short := if |hash| <= 8 then hash else hash[..8];
    assert (short + ".js")[..|short|] == short;
    short + ".js"
  }

  /** Removing a character that does not occur changes nothing. */
  lemma {:induction false} RemoveAbsentChar(s: string, c: char)
    requires c !in s
    ensures RemoveChar(s, c) == s
  {
    if s != [] {
      RemoveAbsentChar(s[1..], c);
    }
  }

  /** The dashes of an id play no part in its script name, and an id with at
      least eight other characters always gives an eleven-character name. */
  lemma ScriptNameIgnoresDashes(websiteId: string)
    ensures GenerateScriptName(RemoveChar(websiteId, '-')) == GenerateScriptName(websiteId)
    ensures |RemoveChar(websiteId, '-')| >= 8 ==> |GenerateScriptName(websiteId)| == 11
  {
    RemoveAbsentChar(RemoveChar(websiteId, '-'), '-');
  }

  // ---------------------------------------------------------------------------
  // The `domain;id` input file

  /** A site to provision. */
  datatype Site = Site(domain: string, websiteId: string, scriptName: string)

  /** One line of the input file, in the `map` of `readDomainsWithIds`: the
      line is split on `;`, the first two fields are trimmed and any further
      field is ignored. A blank or missing domain or id makes the line an
      error, which carries the line. */
  function ParseLine(line: string): (r: Result<Site, string>)
    ensures var fields := Split(line, ';');
      r.Err? <==> AllWhitespace(fields[0]) || |fields| < 2 || AllWhitespace(fields[1])
    ensures r.Err? ==> r.error == line
    ensures r.Ok? ==> var fields := Split(line, ';');
      && r.value.domain == Trim(fields[0]) && r.value.domain != ""
      && r.value.websiteId == Trim(fields[1]) && r.value.websiteId != ""
      && r.value.scriptName == GenerateScriptName(r.value.websiteId)
  {
    var fields := Split(line, ';');
    var domain := Trim(fields[0]);
    var id := if |fields| >= 2 then Trim(fields[1]) else "";
    if domain == "" || id == "" then Err(line)
    else Ok(Site(domain, id, GenerateScriptName(id)))
  }

  /** `xs.map(f)` where f may throw: every result when all succeed, else
      the error of the first that fails. */
  function MapUntilError<A, T, E>(xs: seq<A>, f: A -> Result<T, E>): (r: Result<seq<T>, E>)
    ensures r.Ok? <==> forall k :: 0 <= k < |xs| ==> f(xs[k]).Ok?
    ensures r.Ok? ==> |r.value| == |xs| && forall k :: 0 <= k < |xs| ==> r.value[k] == f(xs[k]).value
    ensures r.Err? ==>
      exists k :: 0 <= k < |xs| && f(xs[k]) == Err(r.error) && (forall j :: 0 <= j < k ==> f(xs[j]).Ok?)
  {
    if xs == [] then Ok([])
    else
      match f(xs[0])
      case Err(e) => Err(e)
      case Ok(y) =>
        match MapUntilError(xs[1..], f)
        case Err(e) =>
          ghost var k :| 0 <= k < |xs| - 1 && f(xs[1..][k]) == Err(e)
            && (forall j :: 0 <= j < k ==> f(xs[1..][j]).Ok?);
          assert f(xs[k + 1]) == Err(e);
          assert forall j :: 1 <= j < k + 1 ==> xs[j] == xs[1..][j - 1];
          Err(e)
        case Ok(rest) =>
          assert forall k :: 1 <= k < |xs| ==> xs[k] == xs[1..][k - 1];
          Ok([y] + rest)
  }

  /** When every element succeeds, the map gives exactly their results. */
  lemma MapUntilErrorOk<A, T, E>(xs: seq<A>, f: A -> Result<T, E>, ys: seq<T>)
    requires |ys| == |xs| && forall k :: 0 <= k < |xs| ==> f(xs[k]) == Ok(ys[k])
    ensures MapUntilError(xs, f) == Ok(ys)
  {
    var r := MapUntilError(xs, f);
    assert r.Ok?;
    assert forall k :: 0 <= k < |xs| ==> r.value[k] == ys[k];
    assert r.value == ys;
  }

  /** `readDomainsWithIds` on the file's content: the content is trimmed and
      split into lines, and every line must parse; the first line that does
      not is the error. */
  function ParseSites(content: string): (r: Result<seq<Site>, string>)
    ensures r.Ok? ==> |r.value| == |Split(Trim(content), '\n')|
    ensures r.Ok? ==> forall k :: 0 <= k < |r.value| ==> r.value[k].domain != "" && r.value[k].websiteId != ""
    ensures r.Err? ==> r.error in Split(Trim(content), '\n')
    ensures var lines := Split(Trim(content), '\n');
      r.Ok? <==> forall k :: 0 <= k < |lines| ==> ParseLine(lines[k]).Ok?
    ensures var lines := Split(Trim(content), '\n');
      r.Err? ==> (exists k :: 0 <= k < |lines| && ParseLine(lines[k]) == Err(r.error) &&
                    (forall j :: 0 <= j < k ==> ParseLine(lines[j]).Ok?))
  {
    var lines := Split(Trim(content), '\n');
    var r := MapUntilError(lines, ParseLine);
    assert r.Ok? ==> forall k :: 0 <= k < |r.value| ==> r.value[k].domain != "" && r.value[k].websiteId != "" by {
      if r.Ok? {
        forall k | 0 <= k < |r.value|
          ensures r.value[k].domain != "" && r.value[k].websiteId != ""
        {
          var line := ParseLine(lines[k]);
          assert line.Ok? && r.value[k] == line.value;
        }
      }
    }
    r
  }

  /** A file whose every line parses gives the sites of its lines, in order. */
  lemma ParseSitesOk(content: string, sites: seq<Site>)
    requires var lines := Split(Trim(content), '\n');
      |sites| == |lines| && forall k :: 0 <= k < |lines| ==> ParseLine(lines[k]) == Ok(sites[k])
    ensures ParseSites(content) == Ok(sites)
  {
    MapUntilErrorOk(Split(Trim(content), '\n'), ParseLine, sites);
  }

  /** An empty or blank file is an error, not an empty list of sites. */
  lemma BlankFileRejected(content: string)
    requires AllWhitespace(content)
    ensures ParseSites(content).Err?
  {
    assert Split("", '\n') == [""];
    assert !ParseLine("").Ok?;
  }

  // ---------------------------------------------------------------------------
  // Text insertion

  /** r is s with text inserted at index i. */
  predicate InsertedAt(r: string, s: string, i: nat, text: string) {
    i <= |s| && r == s[..i] + text + s[i..]
  }

  /** Whatever the inserted text contains, the result contains. */
  lemma InsertedContains(r: string, s: string, i: nat, text: string, sub: string)
    requires InsertedAt(r, s, i, text) && Contains(text, sub)
    ensures Contains(r, sub)
  {
    ContainsWithin(s[..i], text, s[i..], sub);
  }

  /** Taking the inserted text out again gives back the original. */
  lemma InsertionRemovable(r: string, s: string, i: nat, text: string)
    requires InsertedAt(r, s, i, text)
    ensures |r| == |s| + |text|
    ensures r[..i] + r[i + |text|..] == s
  {
    assert r[..i] == s[..i];
    assert r[i + |text|..] == s[i..];
  }

  /** Replacing the first occurrence of pat by text followed by pat inserts
      text just before that occurrence. */
  lemma ReplaceInsertsBefore(s: string, pat: string, text: string)
    requires Contains(s, pat)
    ensures InsertedAt(ReplaceFirst(s, pat, text + pat), s, IndexOf(s, pat).value, text)
  {
    var i := IndexOf(s, pat).value;
    assert s[i..] == pat + s[i + |pat|..];
    assert s[..i] + (text + pat) + s[i + |pat|..] == s[..i] + text + s[i..];
  }

  // ---------------------------------------------------------------------------
  // HTML pages

  /** The tracking tag: a deferred script loaded from the site itself under
      the script name, carrying the website id. */
  function TrackingTag(scriptName: string, websiteId: string): (tag: string)
    ensures Contains(tag, "data-website-id")
    ensures Contains(tag, scriptName)
  {
    var before := "<script defer src=\"/";
    var after := "\" " + "data-website-id" + ("=\"" + websiteId + "\"></script>");
    ContainsMiddle(before, scriptName, after);
    ContainsMiddle("\" ", "data-website-id", "=\"" + websiteId + "\"></script>");
    ContainsWithin(before + scriptName, after, "", "data-website-id");
    assert before + scriptName + after + "" == before + scriptName + after;
    before + scriptName + after
  }

  /** The check of `injectTrackingCode` for tracking code already present. */
  predicate AlreadyTracked(html: string, scriptName: string) {
    Contains(html, "data-website-id") || Contains(html, scriptName)
  }

  /** Where the tag goes: the first `</head>`, else the first `</body>`,
      else nowhere inside the page. */
  function InsertionPoint(html: string): (i: Option<nat>)
    ensures Contains(html, "</head>") ==> i == IndexOf(html, "</head>")
    ensures !Contains(html, "</head>") ==> i == IndexOf(html, "</body>")
    ensures i.Some? ==> i.value <= |html|
  {
    match IndexOf(html, "</head>")
    case Some(i) => Some(i)
    case None => IndexOf(html, "</body>")
  }

  /** The text inserted before the closing tag. */
  function IndentedTag(scriptName: string, websiteId: string): (text: string)
    ensures Contains(text, "data-website-id")
  {
    var tag := TrackingTag(scriptName, websiteId);
    ContainsWithin("  ", tag, "\n", "data-website-id");
    "  " + tag + "\n"
  }

  /** `injectTrackingCode` on a page's text: the new text and whether the tag
      was added. A page already tracked is left alone; otherwise the tag,
      indented by two spaces and followed by a newline, goes just before the
      first `</head>`, else just before the first `</body>`, else it is
      appended after a newline. Either way the new page is tracked. */
  function InjectTrackingCode(html: string, scriptName: string, websiteId: string): (r: (string, bool))
    ensures r.1 <==> !AlreadyTracked(html, scriptName)
    ensures !r.1 ==> r.0 == html
    ensures r.1 ==> Contains(r.0, "data-website-id")
    ensures r.1 && InsertionPoint(html).Some? ==>
      InsertedAt(r.0, html, InsertionPoint(html).value, IndentedTag(scriptName, websiteId))
    ensures r.1 && InsertionPoint(html).None? ==> r.0 == html + "\n" + TrackingTag(scriptName, websiteId)
  {
    if AlreadyTracked(html, scriptName) then (html, false)
    else
      match InsertionPoint(html)
      case Some(i) =>
        var text := IndentedTag(scriptName, websiteId);
        ContainsWithin(html[..i], text, html[i..], "data-website-id");
        (html[..i] + text + html[i..], true)
      case None =>
        var tag := TrackingTag(scriptName, websiteId);
        ContainsWithin(html + "\n", tag, "", "data-website-id");
        assert html + "\n" + tag + "" == html + "\n" + tag;
        (html + "\n" + tag, true)
  }

  /** The insertion is what the source's string `replace` does: the closing
      tag is replaced by the indented tag followed by the closing tag. */
  lemma InjectIsReplace(html: string, scriptName: string, websiteId: string)
    requires !AlreadyTracked(html, scriptName)
    ensures var text := IndentedTag(scriptName, websiteId);
      && (Contains(html, "</head>") ==>
            InjectTrackingCode(html, scriptName, websiteId).0 == ReplaceFirst(html, "</head>", text + "</head>"))
      && (!Contains(html, "</head>") && Contains(html, "</body>") ==>
            InjectTrackingCode(html, scriptName, websiteId).0 == ReplaceFirst(html, "</body>", text + "</body>"))
  {
    var text := IndentedTag(scriptName, websiteId);
    if Contains(html, "</head>") {
      ReplaceInsertsBefore(html, "</head>", text);
    } else if Contains(html, "</body>") {
      ReplaceInsertsBefore(html, "</body>", text);
    }
  }

  /** The returned flag says exactly whether the page changed, and a
      changed page is the old one with text inserted, never removed. */
  lemma InjectFlagMeansChanged(html: string, scriptName: string, websiteId: string)
    ensures var (page, injected) := InjectTrackingCode(html, scriptName, websiteId);
      injected <==> page != html
    ensures var (page, injected) := InjectTrackingCode(html, scriptName, websiteId);
      injected ==> |page| > |html|
  {
    var (page, injected) := InjectTrackingCode(html, scriptName, websiteId);
    if injected {
      match InsertionPoint(html)
      case Some(i) =>
        InsertionRemovable(page, html, i, IndentedTag(scriptName, websiteId));
      case None =>
    }
  }

  /** Injection is idempotent: on a page it has already changed, a second
      run changes nothing and reports that nothing was added. */
  lemma InjectIdempotent(html: string, scriptName: string, websiteId: string)
    ensures var page := InjectTrackingCode(html, scriptName, websiteId).0;
      InjectTrackingCode(page, scriptName, websiteId) == (page, false)
  {
  }

  /** `injectTrackingCode` for one site, as the step applied to each page. */
  function Offer(scriptName: string, websiteId: string): string -> (string, bool) {
    html => InjectTrackingCode(html, scriptName, websiteId)
  }

  /** The pages of the HTML step of `processSite` after it has run: each
      page with the tag offered to it, or untouched under a dry run. */
  function WrittenPages(pages: seq<string>, offer: string -> (string, bool), dryRun: bool): (written: seq<string>)
    ensures |written| == |pages|
  {
    if pages == [] then []
    else
      var last := pages[|pages| - 1];
      WrittenPages(pages[..|pages| - 1], offer, dryRun) + [if dryRun then last else offer(last).0]
  }

  /** The page count of the HTML step of `processSite`: the pages the tag
      was added to. */
  function CountInjected(pages: seq<string>, offer: string -> (string, bool)): (n: nat)
    ensures n <= |pages|
  {
    if pages == [] then 0
    else
      var added := if offer(pages[|pages| - 1]).1 then 1 else 0;
      CountInjected(pages[..|pages| - 1], offer) + added
  }

  /** The HTML step of `processSite`: every page is offered the tag in turn
      (`offer` is `Offer(scriptName, websiteId)`) and the pages changed are
      counted; under a dry run no page is written. */
  method InjectPages(pages: seq<string>, offer: string -> (string, bool), dryRun: bool)
    returns (written: seq<string>, injected: nat)
    ensures written == WrittenPages(pages, offer, dryRun)
    ensures injected == CountInjected(pages, offer)
  {
    written := [];
    injected := 0;
    var i := 0;
    while i < |pages|
      invariant 0 <= i <= |pages|
      invariant written == WrittenPages(pages[..i], offer, dryRun)
      invariant injected == CountInjected(pages[..i], offer)
    {
      var result := offer(pages[i]);
      InjectStep(pages, offer, dryRun, i);
      if result.1 {
        injected := injected + 1;
      }
      written := written + [if dryRun then pages[i] else result.0];
      i := i + 1;
    }
    assert pages[..i] == pages;
  }

  /** One more page extends the output by that page and the count by one
      exactly when the tag was added to it. */
  lemma InjectStep(pages: seq<string>, offer: string -> (string, bool), dryRun: bool, i: nat)
    requires i < |pages|
    ensures var result := offer(pages[i]);
      && WrittenPages(pages[..i + 1], offer, dryRun)
         == WrittenPages(pages[..i], offer, dryRun) + [if dryRun then pages[i] else result.0]
      && CountInjected(pages[..i + 1], offer) == CountInjected(pages[..i], offer) + (if result.1 then 1 else 0)
  {
    assert pages[..i + 1][..i] == pages[..i];
  }

  /** Page k of the step's output is page k offered the tag, and under a
      dry run the pages are as they were. */
  lemma {:induction false} WrittenPagesAt(pages: seq<string>, offer: string -> (string, bool), dryRun: bool, k: nat)
    requires k < |pages|
    ensures WrittenPages(pages, offer, dryRun)[k] == if dryRun then pages[k] else offer(pages[k]).0
  {
    if k < |pages| - 1 {
      WrittenPagesAt(pages[..|pages| - 1], offer, dryRun, k);
    }
  }

  /** Running the HTML step a second time over the pages it wrote adds the
      tag to none of them and writes them back unchanged. */
  lemma {:induction false} SecondRunInjectsNothing(pages: seq<string>, scriptName: string, websiteId: string)
    ensures var once := WrittenPages(pages, Offer(scriptName, websiteId), false);
      CountInjected(once, Offer(scriptName, websiteId)) == 0
      && WrittenPages(once, Offer(scriptName, websiteId), false) == once
  {
    if pages != [] {
      var offer := Offer(scriptName, websiteId);
      var front := pages[..|pages| - 1];
      var once := WrittenPages(pages, offer, false);
      SecondRunInjectsNothing(front, scriptName, websiteId);
      assert once[..|once| - 1] == WrittenPages(front, offer, false);
      InjectIdempotent(pages[|pages| - 1], scriptName, websiteId);
    }
  }

  // ---------------------------------------------------------------------------
  // nginx

  /** The host of `UMAMI_SERVER` for the `Host` header: a leading `https://`
      or `http://` and then one trailing `/` removed. */
  function UmamiHost(server: string): (host: string)
    ensures var rest := server[SchemeLength(server)..];
      rest == host || rest == host + "/"
    ensures var rest := server[SchemeLength(server)..];
      EndsWith(rest, "/") ==> host + "/" == rest
    ensures var rest := server[SchemeLength(server)..];
      !EndsWith(rest, "/") ==> host == rest
    ensures !StartsWith(server, "http://") && !StartsWith(server, "https://") && !EndsWith(server, "/") ==> host == server
  {
    var rest := server[SchemeLength(server)..];
    if EndsWith(rest, "/") then rest[..|rest| - 1] else rest
  }

  /** The length of the scheme `^https?://` matches at the start. */
  function SchemeLength(server: string): (n: nat)
    ensures n <= |server|
    ensures n == 8 <==> StartsWith(server, "https://")
    ensures n == 7 <==> StartsWith(server, "http://")
  {
    assert StartsWith(server, "https://") ==> server[4] == 's';
    if StartsWith(server, "https://") then 8
    else if StartsWith(server, "http://") then 7
    else 0
  }

  lemma UmamiHostExamples()
    ensures UmamiHost("https://a.io/") == "a.io"
    ensures UmamiHost("http://a.io") == "a.io"
    ensures UmamiHost("a.io//") == "a.io/"
  {
    HostExample("https://a.io/", 8, "a.io/");
    HostExample("http://a.io", 7, "a.io");
    HostExample("a.io//", 0, "a.io//");
  }

  lemma HostExample(server: string, n: nat, rest: string)
    requires n <= |server| && SchemeLength(server) == n && server[n..] == rest
    ensures UmamiHost(server) == if EndsWith(rest, "/") then rest[..|rest| - 1] else rest
  {
  }


  /** The marker whose presence means the redirect is already configured. */
  function Marker(scriptName: string): string {
    "location = /" + scriptName
  }

  /** The two proxy locations inserted into the configuration: the script
      name is served from the analytics server's `script.js`, and `/api/send`
      is passed on to it. */
  function RedirectBlock(scriptName: string, server: string, host: string): (block: string)
    ensures Contains(block, Marker(scriptName))
  {
    var head := "\n    # Umami Analytics Tracking Script\n    ";
    var headers :=
      "        proxy_ssl_server_name on;\n"
      + "        proxy_set_header Host " + host + ";\n"
      + "        proxy_set_header X-Real-IP $remote_addr;\n"
      + "        proxy_set_header X-Forwarded-For $proxy_add_x_forwarded_for;\n"
      + "        proxy_set_header X-Forwarded-Proto $scheme;\n";
    var tail :=
      " {\n"
      + "        proxy_pass " + server + "/script.js;\n"
      + headers
      + "    }\n"
      + "\n"
      + "    location = /api/send {\n"
      + "        proxy_pass " + server + "/api/send;\n"
      + headers
      + "    }\n";
    ContainsMiddle(head, Marker(scriptName), tail);
    head + Marker(scriptName) + tail
  }

  /** The index just past the whitespace starting at k. */
  function SkipWhitespace(s: string, k: nat): (j: nat)
    requires k <= |s|
    ensures k <= j <= |s|
    ensures forall i :: k <= i < j ==> IsWhitespace(s[i])
    ensures j < |s| ==> !IsWhitespace(s[j])
    decreases |s| - k
  {
    if k < |s| && IsWhitespace(s[k]) then SkipWhitespace(s, k + 1) else k
  }

  /** In `server {location /{x}}` the pattern's `}` is the nested block's,
      at index 20, not the server block's at 21. */
  lemma NestedBlockInsertion()
    ensures var config := "server {location /{x}}";
      FirstServerBlock(config, 0) == Some(0) && ClosingBrace(config, 0) == 20
  {
    var config := "server {location /{x}}";
    var body := config[8..];
    assert |config| == 22 && config[..6] == "server";
    assert config[6] == ' ' && config[7] == '{';
    assert SkipWhitespace(config, 7) == 7;
    assert SkipWhitespace(config, 6) == 7;
    assert body == "location /{x}}";
    assert body[12] == '}' && '}' !in body[..12];
    assert ServerBlockAt(config, 0);
  }

  /** `server\s*{` matches at p. */
  predicate OpensServerBlock(s: string, p: nat) {
    OccursAt(s, "server", p) && SkipWhitespace(s, p + 6) < |s| && s[SkipWhitespace(s, p + 6)] == '{'
  }

  /** `server\s*{[^}]*}` matches at p: a `}` follows the brace. */
  predicate ServerBlockAt(s: string, p: nat) {
    OpensServerBlock(s, p) && '}' in s[SkipWhitespace(s, p + 6) + 1..]
  }

  /** The leftmost match of the server-block pattern at or after `from`. */
  function FirstServerBlock(s: string, from: nat): (r: Option<nat>)
    ensures r.Some? ==> from <= r.value && ServerBlockAt(s, r.value)
    ensures forall p :: from <= p && (r.None? || p < r.value) ==> !ServerBlockAt(s, p)
    decreases |s| - from
  {
    if from + 6 > |s| then None
    else if ServerBlockAt(s, from) then Some(from)
    else FirstServerBlock(s, from + 1)
  }

  /** The `}` ending the match at p: the first one after the block's `{`. */
  function ClosingBrace(s: string, p: nat): (q: nat)
    requires ServerBlockAt(s, p)
    ensures p + 6 <= SkipWhitespace(s, p + 6) < q < |s| && s[q] == '}'
    ensures '}' !in s[SkipWhitespace(s, p + 6) + 1..q]
  {
    var b := SkipWhitespace(s, p + 6);
    var j := CharIndex(s[b + 1..], '}').value;
    assert s[b + 1..][..j] == s[b + 1..b + 1 + j];
    b + 1 + j
  }

  /** The `replace` of the server-block pattern with `$1` + block + newline
      + `$2`, or None when the pattern does not match. */
  function InsertIntoServerBlock(config: string, block: string): (r: Option<string>)
    ensures r.None? <==> forall p :: !ServerBlockAt(config, p)
    ensures r.Some? ==> InsertedAt(r.value, config, ClosingBrace(config, FirstServerBlock(config, 0).value), block + "\n")
  {
    match FirstServerBlock(config, 0)
    case None => None
    case Some(p) =>
      var q := ClosingBrace(config, p);
      var text := block + "\n";
      ReplaceGroups(config, p, q, text);
      Some(config[..p] + config[p..q] + text + config[q..q + 1] + config[q + 1..])
  }

  /** Putting text between the two groups of a match, `$1` = s[p..q] and
      `$2` = s[q], inserts it at q. */
  lemma ReplaceGroups(s: string, p: nat, q: nat, text: string)
    requires p <= q < |s|
    ensures InsertedAt(s[..p] + s[p..q] + text + s[q..q + 1] + s[q + 1..], s, q, text)
  {
    assert s[..p] + s[p..q] == s[..q];
    assert s[q..q + 1] + s[q + 1..] == s[q..];
  }

  /** The steps of `updateNginxConfig` that act on the text. */
  datatype NginxOutcome = DryRun | AlreadyPresent | Updated(config: string)
  datatype NginxError = NoServerBlock

  /** `updateNginxConfig` on the configuration's text: nothing under a dry
      run, nothing when the script's location is already configured, an
      error when no server block matches, otherwise the redirect block
      inserted just before the first `}` after the `{` of the first
      `server {` match. When the server block opens with a nested block, that
      `}` closes the nested block, and the redirect lands inside it
      (`NestedBlockInsertion`). */
  function UpdateNginxConfig(dryRun: bool, config: string, scriptName: string, server: string)
    : (r: Result<NginxOutcome, NginxError>)
    ensures r == Ok(DryRun) <==> dryRun
    ensures r == Ok(AlreadyPresent) <==> !dryRun && Contains(config, Marker(scriptName))
    ensures var inserted := InsertIntoServerBlock(config, RedirectBlock(scriptName, server, UmamiHost(server)));
      !dryRun && !Contains(config, Marker(scriptName)) && inserted.Some? ==> r == Ok(Updated(inserted.value))
    ensures r == Err(NoServerBlock) <==>
      !dryRun && !Contains(config, Marker(scriptName)) && forall p :: !ServerBlockAt(config, p)
    ensures r.Ok? && r.value.Updated? ==>
      InsertedAt(r.value.config, config, ClosingBrace(config, FirstServerBlock(config, 0).value),
                 RedirectBlock(scriptName, server, UmamiHost(server)) + "\n")
    ensures r.Ok? && r.value.Updated? ==> Contains(r.value.config, Marker(scriptName))
  {
    if dryRun then Ok(DryRun)
    else if Contains(config, Marker(scriptName)) then Ok(AlreadyPresent)
    else
      var block := RedirectBlock(scriptName, server, UmamiHost(server));
      var inserted := InsertIntoServerBlock(config, block);
      if inserted.None? then Err(NoServerBlock)
      else
        InsertedBlockHasMarker(config, scriptName, block);
        Ok(Updated(inserted.value))
  }

  /** A configuration with a block inserted holds whatever marker the block holds. */
  lemma InsertedBlockHasMarker(config: string, scriptName: string, block: string)
    requires Contains(block, Marker(scriptName))
    requires InsertIntoServerBlock(config, block).Some?
    ensures Contains(InsertIntoServerBlock(config, block).value, Marker(scriptName))
  {
    ContainsWithin("", block, "\n", Marker(scriptName));
    assert "" + block + "\n" == block + "\n";
    InsertedContains(InsertIntoServerBlock(config, block).value, config,
                     ClosingBrace(config, FirstServerBlock(config, 0).value), block + "\n", Marker(scriptName));
  }

  /** Updating nginx is idempotent: a configuration it has updated is left
      alone by the next run. */
  lemma NginxIdempotent(config: string, scriptName: string, server: string)
    requires UpdateNginxConfig(false, config, scriptName, server).Ok?
    requires UpdateNginxConfig(false, config, scriptName, server).value.Updated?
    ensures var updated := UpdateNginxConfig(false, config, scriptName, server).value.config;
      UpdateNginxConfig(false, updated, scriptName, server) == Ok(AlreadyPresent)
  {
    var updated := UpdateNginxConfig(false, config, scriptName, server).value.config;
    assert Contains(updated, Marker(scriptName));
  }

  /** A configuration with no server block at all is refused. */
  lemma NoServerRefused(config: string, scriptName: string, server: string)
    requires !Contains(config, "server") && !Contains(config, Marker(scriptName))
    ensures UpdateNginxConfig(false, config, scriptName, server) == Err(NoServerBlock)
  {
    forall p | ServerBlockAt(config, p)
      ensures false
    {
      ContainsAt(config, "server", p);
    }
  }

  // ---------------------------------------------------------------------------
  // Page discovery

  /** The file-name test of `findHtmlFiles`: `/\.html?$/i`. */
  predicate IsHtmlFileName(name: string) {
    var lower := ToLower(name);
    EndsWith(lower, ".html") || EndsWith(lower, ".htm")
  }

  /** The directories the search does not enter. */
  predicate SkippedDirectory(name: string) {
    name in ["node_modules", ".git", "vendor", "cache"]
  }

  /** The test ignores letter case. */
  lemma HtmlNameIgnoresCase(name: string)
    ensures IsHtmlFileName(ToLower(name)) == IsHtmlFileName(name)
  {
    assert ToLower(ToLower(name)) == ToLower(name);
  }

  lemma HtmlNameExamples()
    ensures IsHtmlFileName("a.HTM") && !IsHtmlFileName("a.xhtml")
    ensures SkippedDirectory("node_modules") && !SkippedDirectory("public")
  {
    assert ToLower("a.HTM")[1..] == ".htm";
    assert ToLower("a.xhtml")[2..] == "xhtml";
    assert ToLower("a.xhtml")[3..] == "html";
  }
}

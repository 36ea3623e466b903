/** The bulk registration script (automation-scripts/add-domains-to-umami.js):
    the configuration check, the reader of the domain list, the request body
    that registers one domain, the loop that sorts each domain into a result
    or an error, and the `domain;id` file it writes for the deployment
    script. Environment variables, files, the network and the delays between
    requests are not modelled: their values are parameters. */
module AddDomains {
  import opened Wrappers
  import opened Strings
  import opened Seqs
  import DeployTracking

  // ---------------------------------------------------------------------------
  // Configuration

  /** A failed configuration check. */
  datatype ConfigError = MissingUrl | MissingUsername | MissingPassword | MissingInputFile(path: string)

  /** The order in which the checks run. */
  function CheckOrder(e: ConfigError): nat {
    match e
    case MissingUrl => 0
    case MissingUsername => 1
    case MissingPassword => 2
    case MissingInputFile(_) => 3
  }

  /** `validateConfig`: every check runs and every failure is collected, in
      the order the checks are made; the script stops when any failed. An
      empty setting counts as missing. */
  method ValidateConfig(url: string, username: string, password: string, inputFile: string, inputExists: bool)
    returns (errors: seq<ConfigError>)
    ensures MissingUrl in errors <==> url == ""
    ensures MissingUsername in errors <==> username == ""
    ensures MissingPassword in errors <==> password == ""
    ensures MissingInputFile(inputFile) in errors <==> !inputExists
    ensures forall e :: e in errors && e.MissingInputFile? ==> e.path == inputFile
    ensures forall i, j :: 0 <= i < j < |errors| ==> CheckOrder(errors[i]) < CheckOrder(errors[j])
  {
    errors := [];
    if url == "" {
      errors := errors + [MissingUrl];
    }
    if username == "" {
      errors := errors + [MissingUsername];
    }
    if password == "" {
      errors := errors + [MissingPassword];
    }
    if !inputExists {
      errors := errors + [MissingInputFile(inputFile)];
    }
  }

  // ---------------------------------------------------------------------------
  // The domain list

  /** A trimmed line that names a domain: not empty and not a `#` comment. */
  predicate IsDomainLine(trimmed: string) {
    trimmed != "" && !StartsWith(trimmed, "#")
  }

  /** Every line trimmed. */
  function TrimAll(lines: seq<string>): (r: seq<string>)
    ensures |r| == |lines|
    ensures forall k :: 0 <= k < |lines| ==> r[k] == Trim(lines[k])
  {
    Map(lines, Trim)
  }

  /** `readDomains`: the lines of the file, trimmed, keeping those that name
      a domain, in file order. */
  method ReadDomains(lines: seq<string>) returns (domains: seq<string>)
    ensures domains == Filter(TrimAll(lines), IsDomainLine)
  {
    domains := [];
    var i := 0;
    while i < |lines|
      invariant 0 <= i <= |lines|
      invariant domains == Filter(TrimAll(lines[..i]), IsDomainLine)
    {
      var domain := Trim(lines[i]);
      MapStep(lines, Trim, i);
      FilterAppend(TrimAll(lines[..i]), domain, IsDomainLine);
      if domain != "" && !StartsWith(domain, "#") {
        domains := domains + [domain];
      }
      i := i + 1;
    }
    assert lines[..i] == lines;
  }

  /** Trimming twice is trimming once. */
  lemma TrimTwice(s: string)
    ensures Trim(Trim(s)) == Trim(s)
  {
    TrimKeepsTrimmed(Trim(s));
  }

  /** The domains read keep, in order, exactly the trimmed lines that name a
      domain, each as often as it occurs. */
  lemma ReadDomainsKeeps(lines: seq<string>)
    ensures KeepsExactly(Filter(TrimAll(lines), IsDomainLine), TrimAll(lines), IsDomainLine)
  {
    FilterKeepsExactly(TrimAll(lines), IsDomainLine);
  }

  /** Each domain read is non-empty, has no surrounding whitespace and is
      not a comment. */
  lemma ReadDomainsClean(lines: seq<string>)
    ensures forall d :: d in Filter(TrimAll(lines), IsDomainLine) ==>
      d != "" && d[0] != '#' && Trim(d) == d
  {
    FilterMembers(TrimAll(lines), IsDomainLine);
    forall d | d in Filter(TrimAll(lines), IsDomainLine)
      ensures d != "" && d[0] != '#' && Trim(d) == d
    {
      var k :| 0 <= k < |lines| && TrimAll(lines)[k] == d;
      DomainLineClean(lines[k]);
    }
  }

  lemma DomainLineClean(line: string)
    requires IsDomainLine(Trim(line))
    ensures var d := Trim(line); d != "" && d[0] != '#' && Trim(d) == d
  {
    var d := Trim(line);
    assert d != "" && !StartsWith(d, "#");
    assert d[..1] == [d[0]];
    TrimKeepsTrimmed(d);
  }

  // ---------------------------------------------------------------------------
  // Registering one domain

  /** The JSON body of the request that registers a domain. */
  datatype WebsiteBody = WebsiteBody(name: string, domain: string, teamId: Option<string>)

  /** The team a domain is registered under: none when `SKIP_TEAM` is set,
      otherwise the configured team. */
  function TeamFor(skipTeam: bool, teamId: string): (t: Option<string>)
    ensures t.None? <==> skipTeam
    ensures t.Some? ==> t.value == teamId
  {
    if skipTeam then None else Some(teamId)
  }

  /** `createWebsite`'s body: the domain is both name and domain, and the
      team is sent only when one is given and is not empty. */
  function CreateWebsiteBody(domain: string, teamId: Option<string>): (body: WebsiteBody)
    ensures body.name == domain && body.domain == domain
    ensures body.teamId.Some? <==> teamId.Some? && teamId.value != ""
    ensures body.teamId.Some? ==> body.teamId == teamId
  {
    var team := if teamId.Some? && teamId.value != "" then teamId else None;
    WebsiteBody(domain, domain, team)
  }

  /** Under `SKIP_TEAM` no team is sent; otherwise a non-empty team is. */
  lemma SkipTeamOmitsTeam(domain: string, skipTeam: bool, teamId: string)
    ensures var body := CreateWebsiteBody(domain, TeamFor(skipTeam, teamId));
      body.teamId.Some? <==> !skipTeam && teamId != ""
  {
  }

  // ---------------------------------------------------------------------------
  // The registration loop

  /** A registered domain and the id the server gave it. */
  datatype Registered = Registered(domain: string, id: string)

  /** A domain the server refused, with the error message. */
  datatype Failure = Failure(domain: string, error: string)

  /** The registered domains, in input order; outcome k is the server's
      answer for domain k. */
  function Successes(domains: seq<string>, outcomes: seq<Result<string, string>>): (r: seq<Registered>)
    requires |outcomes| == |domains|
    ensures |r| <= |domains|
  {
    if domains == [] then []
    else
      var n := |domains| - 1;
      var front := Successes(domains[..n], outcomes[..n]);
      if outcomes[n].Ok? then front + [Registered(domains[n], outcomes[n].value)] else front
  }

  /** The refused domains, in input order. */
  function Failures(domains: seq<string>, outcomes: seq<Result<string, string>>): (r: seq<Failure>)
    requires |outcomes| == |domains|
    ensures |r| <= |domains|
  {
    if domains == [] then []
    else
      var n := |domains| - 1;
      var front := Failures(domains[..n], outcomes[..n]);
      if outcomes[n].Err? then front + [Failure(domains[n], outcomes[n].error)] else front
  }

  /** The loop of `main`: each domain is registered in turn and lands in the
      results when the server answers with an id, in the errors otherwise. */
  method RegisterAll(domains: seq<string>, outcomes: seq<Result<string, string>>)
    returns (results: seq<Registered>, errors: seq<Failure>)
    requires |outcomes| == |domains|
    ensures results == Successes(domains, outcomes)
    ensures errors == Failures(domains, outcomes)
  {
    results := [];
    errors := [];
    var i := 0;
    while i < |domains|
      invariant 0 <= i <= |domains|
      invariant results == Successes(domains[..i], outcomes[..i])
      invariant errors == Failures(domains[..i], outcomes[..i])
    {
      assert domains[..i + 1][..i] == domains[..i] && outcomes[..i + 1][..i] == outcomes[..i];
      if outcomes[i].Ok? {
        results := results + [Registered(domains[i], outcomes[i].value)];
      } else {
        errors := errors + [Failure(domains[i], outcomes[i].error)];
      }
      i := i + 1;
    }
    assert domains[..i] == domains && outcomes[..i] == outcomes;
  }

  /** The positions, in increasing order, whose outcome is an id (ok) or an
      error (not ok). */
  function Positions(outcomes: seq<Result<string, string>>, ok: bool): (ix: seq<nat>)
    ensures forall j :: 0 <= j < |ix| ==> ix[j] < |outcomes| && outcomes[ix[j]].Ok? == ok
    ensures forall j, j' :: 0 <= j < j' < |ix| ==> ix[j] < ix[j']
    ensures forall k :: 0 <= k < |outcomes| && outcomes[k].Ok? == ok ==> k in ix
  {
    if outcomes == [] then []
    else
      var n := |outcomes| - 1;
      var front := Positions(outcomes[..n], ok);
      assert forall k :: 0 <= k < n ==> outcomes[..n][k] == outcomes[k];
      front + (if outcomes[n].Ok? == ok then [n] else [])
  }

  /** Every domain is accounted for exactly once: the results and the errors
      together are as many as the domains, and each domain's outcome is in
      the list it belongs to. */
  lemma {:induction false} EachDomainOnce(domains: seq<string>, outcomes: seq<Result<string, string>>)
    requires |outcomes| == |domains|
    ensures |Successes(domains, outcomes)| + |Failures(domains, outcomes)| == |domains|
    ensures forall k :: 0 <= k < |domains| && outcomes[k].Ok? ==>
      Registered(domains[k], outcomes[k].value) in Successes(domains, outcomes)
    ensures forall k :: 0 <= k < |domains| && outcomes[k].Err? ==>
      Failure(domains[k], outcomes[k].error) in Failures(domains, outcomes)
  {
    if domains != [] {
      var n := |domains| - 1;
      EachDomainOnce(domains[..n], outcomes[..n]);
      assert forall k :: 0 <= k < n ==> domains[..n][k] == domains[k] && outcomes[..n][k] == outcomes[k];
    }
  }

  /** The results are exactly the domains whose outcome is an id, in the
      order of the domains. */
  lemma {:induction false} SuccessesInOrder(domains: seq<string>, outcomes: seq<Result<string, string>>)
    requires |outcomes| == |domains|
    ensures var ix := Positions(outcomes, true); var r := Successes(domains, outcomes);
      |r| == |ix| && forall j :: 0 <= j < |ix| ==> r[j] == Registered(domains[ix[j]], outcomes[ix[j]].value)
  {
    if domains != [] {
      var n := |domains| - 1;
      SuccessesInOrder(domains[..n], outcomes[..n]);
      var ix, front := Positions(outcomes, true), Positions(outcomes[..n], true);
      var r, rf := Successes(domains, outcomes), Successes(domains[..n], outcomes[..n]);
      assert ix == front + (if outcomes[n].Ok? then [n] else []);
      assert r == rf + (if outcomes[n].Ok? then [Registered(domains[n], outcomes[n].value)] else []);
      forall j | 0 <= j < |ix|
        ensures r[j] == Registered(domains[ix[j]], outcomes[ix[j]].value)
      {
        if j < |front| {
          var k := front[j];
          assert ix[j] == k && r[j] == rf[j] && k < n;
          assert domains[..n][k] == domains[k] && outcomes[..n][k] == outcomes[k];
        }
      }
    }
  }

  /** The errors are exactly the domains whose outcome is an error, in the
      order of the domains. */
  lemma {:induction false} FailuresInOrder(domains: seq<string>, outcomes: seq<Result<string, string>>)
    requires |outcomes| == |domains|
    ensures var ix := Positions(outcomes, false); var e := Failures(domains, outcomes);
      |e| == |ix| && forall j :: 0 <= j < |ix| ==> e[j] == Failure(domains[ix[j]], outcomes[ix[j]].error)
  {
    if domains != [] {
      var n := |domains| - 1;
      FailuresInOrder(domains[..n], outcomes[..n]);
      var ix, front := Positions(outcomes, false), Positions(outcomes[..n], false);
      var r, rf := Failures(domains, outcomes), Failures(domains[..n], outcomes[..n]);
      assert ix == front + (if outcomes[n].Err? then [n] else []);
      assert r == rf + (if outcomes[n].Err? then [Failure(domains[n], outcomes[n].error)] else []);
      forall j | 0 <= j < |ix|
        ensures r[j] == Failure(domains[ix[j]], outcomes[ix[j]].error)
      {
        if j < |front| {
          var k := front[j];
          assert ix[j] == k && r[j] == rf[j] && k < n;
          assert domains[..n][k] == domains[k] && outcomes[..n][k] == outcomes[k];
        }
      }
    }
  }

  // ---------------------------------------------------------------------------
  // Output files

  /** One line of the results file. */
  function ResultLine(r: Registered): string {
    r.domain + ";" + r.id
  }

  function ResultLines(results: seq<Registered>): (lines: seq<string>)
    ensures |lines| == |results|
    ensures forall k :: 0 <= k < |results| ==> lines[k] == ResultLine(results[k])
  {
    seq(|results|, k requires 0 <= k < |results| => ResultLine(results[k]))
  }

  /** `writeResults`: `domain;id` lines joined by newlines, with no newline
      after the last. */
  function WriteResults(results: seq<Registered>): string {
    Join(ResultLines(results), "\n")
  }

  /** The results file is written only when some domain was registered. */
  function ResultsFile(results: seq<Registered>): (file: Option<string>)
    ensures file.Some? <==> results != []
    ensures file.Some? ==> file.value == WriteResults(results)
  {
    if |results| > 0 then Some(WriteResults(results)) else None
  }

  /** The error file: `domain<TAB>message` lines, written only when some
      domain failed. */
  function ErrorsFile(errors: seq<Failure>): (file: Option<string>)
    ensures file.Some? <==> errors != []
    ensures file.Some? ==> file.value == Join(ErrorLines(errors), "\n")
  {
    if |errors| > 0 then Some(Join(ErrorLines(errors), "\n")) else None
  }

  function ErrorLines(errors: seq<Failure>): (lines: seq<string>)
    ensures |lines| == |errors|
    ensures forall k :: 0 <= k < |errors| ==> lines[k] == errors[k].domain + "\t" + errors[k].error
  {
    seq(|errors|, k requires 0 <= k < |errors| => errors[k].domain + "\t" + errors[k].error)
  }

  /** A field that survives the trip through the file: non-empty, free of
      the `;` and newline separators, and without surrounding whitespace. */
  predicate PlainField(s: string) {
    s != "" && ';' !in s && '\n' !in s && !IsWhitespace(s[0]) && !IsWhitespace(s[|s| - 1])
  }

  /** A joined text starts with the first part's first character and ends
      with the last part's last character. */
  lemma {:induction false} JoinEnds(parts: seq<string>, delim: string)
    requires |parts| >= 1
    requires forall k :: 0 <= k < |parts| ==> parts[k] != ""
    ensures var j := Join(parts, delim); var last := parts[|parts| - 1];
      |j| >= 1 && j[0] == parts[0][0] && j[|j| - 1] == last[|last| - 1]
  {
    if |parts| > 1 {
      JoinEnds(parts[1..], delim);
    }
  }

  /** One results line parses back to its site. */
  lemma LineParses(r: Registered)
    requires PlainField(r.domain) && PlainField(r.id)
    ensures DeployTracking.ParseLine(ResultLine(r))
      == Ok(DeployTracking.Site(r.domain, r.id, DeployTracking.GenerateScriptName(r.id)))
  {
    assert Join([r.domain, r.id], ";") == ResultLine(r);
    SplitJoin([r.domain, r.id], ';');
    TrimKeepsTrimmed(r.domain);
    TrimKeepsTrimmed(r.id);
  }

  /** The results file needs no trimming and splits back into its lines. */
  lemma ResultsFileLines(results: seq<Registered>)
    requires results != []
    requires forall k :: 0 <= k < |results| ==> PlainField(results[k].domain) && PlainField(results[k].id)
    ensures Split(Trim(WriteResults(results)), '\n') == ResultLines(results)
  {
    var lines := ResultLines(results);
    var content := WriteResults(results);
    forall k | 0 <= k < |lines|
      ensures '\n' !in lines[k] && lines[k] != ""
    {
      assert lines[k] == results[k].domain + ";" + results[k].id;
    }
    JoinEnds(lines, "\n");
    var first, last := results[0], results[|results| - 1];
    assert lines[0] == first.domain + ";" + first.id;
    assert lines[0][0] == first.domain[0];
    assert lines[|lines| - 1] == last.domain + ";" + last.id;
    TrimKeepsTrimmed(content);
    SplitJoin(lines, '\n');
  }

  /** The sites the deployment script should see for the results. */
  function SitesOf(results: seq<Registered>): (sites: seq<DeployTracking.Site>)
    ensures |sites| == |results|
    ensures forall k :: 0 <= k < |results| ==>
      sites[k] == DeployTracking.Site(results[k].domain, results[k].id, DeployTracking.GenerateScriptName(results[k].id))
  {
    seq(|results|, k requires 0 <= k < |results| =>
      DeployTracking.Site(results[k].domain, results[k].id, DeployTracking.GenerateScriptName(results[k].id)))
  }

  /** The round trip between the two scripts: a results file read by the
      deployment script gives back the same domains and ids, in order,
      provided there is at least one result and every field is plain. */
  lemma WriteThenParse(results: seq<Registered>)
    requires results != []
    requires forall k :: 0 <= k < |results| ==> PlainField(results[k].domain) && PlainField(results[k].id)
    ensures DeployTracking.ParseSites(WriteResults(results)) == Ok(SitesOf(results))
  {
    var lines := ResultLines(results);
    var sites := SitesOf(results);
    ResultsFileLines(results);
    forall k | 0 <= k < |lines|
      ensures DeployTracking.ParseLine(lines[k]) == Ok(sites[k])
    {
      LineParses(results[k]);
    }
    DeployTracking.ParseSitesOk(WriteResults(results), sites);
  }
}

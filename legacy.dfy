/** The older GitHub collector (ksc/collector/github.py). It pages and counts
    like the newer one, with these differences: a response without
    `X-RateLimit-Remaining` is an error, one record the model refuses aborts
    the whole listing, repository URLs are expanded as URI templates, the
    pull-request queries send `base`, and each contribution is a plain
    dictionary that also carries the platform and the time window. */
module LegacyCollector {
  import opened Common
  import opened Utils
  import opened GitHub
  import opened CollectorModel
  import opened Collector

  // ---------------------------------------------------------------------------
  // raise_for_limit and fetch_one
  // ---------------------------------------------------------------------------

  /** `raise_for_limit`: the header is read with `[]`, so a response without
      it fails; a 403 with no requests left ends the run. */
  function LegacyRaiseForLimit(r: Response): (res: Result<bool>)
    ensures res.Ok? <==> r.remaining.Some? && !(r.status == Forbidden && r.remaining.value == 0)
    ensures r.remaining.None? ==> res == Err(MissingRateLimitHeader)
    ensures r.remaining.Some? && res.Err? ==> res.error == RateLimitExceeded
  {
    if r.remaining.None? then Err(MissingRateLimitHeader)
    else if r.status == Forbidden && r.remaining.value == 0 then Err(RateLimitExceeded)
    else Ok(true)
  }

  /** With the header present, both collectors decide the limit alike. */
  lemma LimitChecksAgree(r: Response)
    requires r.remaining.Some?
    ensures LegacyRaiseForLimit(r) == RaiseForLimit(r)
  {
  }

  /** `model(**d)`: the item must be a mapping, and the model must accept it. */
  function Construct<T>(decode: Json -> Option<T>, item: Json): (r: Result<T>)
    ensures r.Ok? <==> item.JObject? && decode(item).Some?
    ensures r.Ok? ==> decode(item) == Some(r.value)
    ensures r.Err? ==> r.error == DecodeFailed
  {
    if !item.JObject? then Err(DecodeFailed)
    else match decode(item)
      case None => Err(DecodeFailed)
      case Some(v) => Ok(v)
  }

  /** `fetch_one`: one request, the limit check, then the model is built from
      the body. */
  function LegacyFetchOne<T>(decode: Json -> Option<T>, server: Server, req: Request): (r: Result<T>)
    ensures r.Ok? <==> req in server && LegacyRaiseForLimit(server[req]).Ok? && Construct(decode, server[req].body).Ok?
    ensures r.Ok? ==> decode(server[req].body) == Some(r.value)
  {
    if req !in server then Err(RequestFailed)
    else
      var resp := server[req];
      var _ :- LegacyRaiseForLimit(resp);
      Construct(decode, resp.body)
  }

  /** For models that accept only objects, and with the header present, both
      collectors fetch one record alike. */
  lemma FetchOneAgrees<T>(decode: Json -> Option<T>, server: Server, req: Request)
    requires forall j: Json :: !j.JObject? ==> decode(j).None?
    requires req in server && server[req].remaining.Some?
    ensures LegacyFetchOne(decode, server, req) == FetchOne(decode, server, req)
  {
  }

  // ---------------------------------------------------------------------------
  // fetch_list
  // ---------------------------------------------------------------------------

  /** The list comprehension over a page: every item must be built, or the
      page fails. */
  function ConstructAll<T>(decode: Json -> Option<T>, items: seq<Json>): (r: Result<seq<T>>)
    ensures r.Ok? <==> forall i :: 0 <= i < |items| ==> items[i].JObject? && decode(items[i]).Some?
    ensures r.Ok? ==> |r.value| == |items| && forall i :: 0 <= i < |items| ==> decode(items[i]) == Some(r.value[i])
    ensures r.Err? ==> r.error == DecodeFailed
  {
    if items == [] then Ok([])
    else
      var x :- Construct(decode, items[0]);
      var rest :- ConstructAll(decode, items[1..]);
      Ok([x] + rest)
  }

  /** The records one page adds. A 409 adds none. Otherwise the body is
      iterated: a list gives its items, an object its keys and a string its
      characters (keys and characters are not mappings, so only an empty one
      gets through), and null, a boolean or a number cannot be iterated. */
  function LegacyPageRecords<T>(decode: Json -> Option<T>, resp: Response): (r: Result<seq<T>>)
    ensures resp.status == EmptyRepo ==> r == Ok([])
    ensures resp.status != EmptyRepo && resp.body.JArray? ==> r == ConstructAll(decode, resp.body.items)
    ensures resp.status != EmptyRepo && (resp.body.JNull? || resp.body.JBool? || resp.body.JInt?) ==> r == Err(NotIterable)
  {
    if resp.status == EmptyRepo then Ok([])
    else match resp.body
      case JArray(items) => ConstructAll(decode, items)
      case JObject(fields) => if fields == map[] then Ok([]) else Err(DecodeFailed)
      case JString(s) => if s == "" then Ok([]) else Err(DecodeFailed)
      case _ => Err(NotIterable)
  }

  /** What the older `fetch_list` gives for a request: as `Collector.Listing`,
      except for the limit check and the page records above. */
  function LegacyListing<T>(decode: Json -> Option<T>, nextLink: LinkReader, server: Server, req: Request, fuel: nat)
    : (r: Result<seq<T>>)
    ensures r.Ok? ==> req in server && LegacyRaiseForLimit(server[req]).Ok? && NextPage(nextLink, server[req]).Ok?
    ensures r.Ok? ==> LegacyPageRecords(decode, server[req]).Ok? && LegacyPageRecords(decode, server[req]).value <= r.value
    decreases fuel
  {
    if fuel == 0 then Err(PageBudgetExhausted)
    else if req !in server then Err(RequestFailed)
    else
      var resp := server[req];
      var _ :- LegacyRaiseForLimit(resp);
      var page :- LegacyPageRecords(decode, resp);
      var next :- NextPage(nextLink, resp);
      if next.Some? then Prepend(page, LegacyListing(decode, nextLink, server, Request(next.value, req.params), fuel - 1))
      else Ok(page)
  }

  /** `data.extend([model(**d) for d in body])`: a 409 extends by nothing;
      otherwise the comprehension builds one record per item, in order, and
      the first item the model refuses raises before `data` is extended. */
  method ExtendPage<T>(decode: Json -> Option<T>, data: seq<T>, resp: Response) returns (r: Result<seq<T>>)
    ensures r == Prepend(data, LegacyPageRecords(decode, resp))
  {
    if resp.status == EmptyRepo {
      assert data + [] == data;
      return Ok(data);
    }
    if !resp.body.JArray? {
      return Prepend(data, LegacyPageRecords(decode, resp));
    }
    var items := resp.body.items;
    var built: seq<T> := [];
    for i := 0 to |items|
      invariant |built| == i
      invariant forall j :: 0 <= j < i ==> items[j].JObject? && decode(items[j]) == Some(built[j])
    {
      var x := Construct(decode, items[i]);
      if x.Err? {
        assert !ConstructAll(decode, items).Ok?;
        return Err(x.error);
      }
      built := built + [x.value];
    }
    var all := ConstructAll(decode, items);
    assert all.Ok? && |all.value| == |built|;
    assert forall j :: 0 <= j < |built| ==> all.value[j] == built[j] by {
      forall j | 0 <= j < |built| ensures all.value[j] == built[j] {
        assert decode(items[j]) == Some(all.value[j]);
      }
    }
    assert all.value == built && LegacyPageRecords(decode, resp) == all;
    return Ok(data + built);
  }

  /** `fetch_list`: fetches `req`, extends `data` with the page and, while
      there is a next page, calls itself on it with the records so far. */
  method LegacyFetchList<T>(decode: Json -> Option<T>, nextLink: LinkReader, server: Server, req: Request, fuel: nat,
                            data: seq<T>)
    returns (r: Result<seq<T>>)
    ensures r == Prepend(data, LegacyListing(decode, nextLink, server, req, fuel))
    decreases fuel
  {
    if fuel == 0 {
      return Err(PageBudgetExhausted);
    }
    if req !in server {
      return Err(RequestFailed);
    }
    var resp := server[req];
    var limit := LegacyRaiseForLimit(resp);
    if limit.Err? {
      return Err(limit.error);
    }
    var extended := ExtendPage(decode, data, resp);
    if extended.Err? {
      return extended;
    }
    var page := LegacyPageRecords(decode, resp);
    var next := NextPage(nextLink, resp);
    if next.Err? {
      return Err(next.error);
    }
    if next.value.None? {
      return extended;
    }
    r := LegacyFetchList(decode, nextLink, server, Request(next.value.value, req.params), fuel - 1, extended.value);
    PrependTwice(data, page.value, LegacyListing(decode, nextLink, server, Request(next.value.value, req.params), fuel - 1));
  }

  /** A response the older collector reads without complaint: the header is
      present and the page is empty (409) or a list of records the model accepts. */
  predicate Clean<T>(decode: Json -> Option<T>, resp: Response)
  {
    && resp.remaining.Some?
    && (resp.status == EmptyRepo ||
        (resp.body.JArray? && forall i :: 0 <= i < |resp.body.items| ==>
           resp.body.items[i].JObject? && decode(resp.body.items[i]).Some?))
  }

  /** On such a page both collectors keep the same records. */
  lemma CleanPageAgrees<T>(decode: Json -> Option<T>, resp: Response)
    requires Clean(decode, resp)
    ensures LegacyPageRecords(decode, resp) == Ok(PageRecords(decode, resp))
  {
    if resp.status != EmptyRepo {
      var r := ConstructAll(decode, resp.body.items);
      DecodedAll(decode, resp.body.items, r.value);
    }
  }

  /** Where every response is clean, both collectors list the same records
      and fail the same way. */
  lemma {:induction false} ListingsAgree<T>(decode: Json -> Option<T>, nextLink: LinkReader, server: Server,
                                            req: Request, fuel: nat)
    requires forall q :: q in server ==> Clean(decode, server[q])
    ensures LegacyListing(decode, nextLink, server, req, fuel) == Listing(decode, nextLink, server, req, fuel)
    decreases fuel
  {
    if fuel > 0 && req in server {
      var resp := server[req];
      LimitChecksAgree(resp);
      CleanPageAgrees(decode, resp);
      var next := NextPage(nextLink, resp);
      if RaiseForLimit(resp).Ok? && next.Ok? && next.value.Some? {
        ListingsAgree(decode, nextLink, server, Request(next.value.value, req.params), fuel - 1);
      }
    }
  }

  /** One item the model refuses fails the whole listing. */
  lemma BadRecordAborts<T>(decode: Json -> Option<T>, nextLink: LinkReader, server: Server, req: Request, fuel: nat,
                           i: nat)
    requires fuel > 0 && req in server && LegacyRaiseForLimit(server[req]).Ok?
    requires server[req].status != EmptyRepo && server[req].body.JArray?
    requires i < |server[req].body.items| && decode(server[req].body.items[i]).None?
    ensures LegacyListing(decode, nextLink, server, req, fuel) == Err(DecodeFailed)
  {
  }

  /** A page without the rate-limit header fails the listing, whatever it holds. */
  lemma MissingHeaderAborts<T>(decode: Json -> Option<T>, nextLink: LinkReader, server: Server, req: Request, fuel: nat)
    requires fuel > 0 && req in server && server[req].remaining.None?
    ensures LegacyListing(decode, nextLink, server, req, fuel) == Err(MissingRateLimitHeader)
  {
  }

  // ---------------------------------------------------------------------------
  // fetch_contributions
  // ---------------------------------------------------------------------------

  /** `pr_author`: the association lowers to `owner` or `contributor`, and the
      login is the author's. */
  function PrAuthor(author: string): PullRequest -> bool
  {
    (pr: PullRequest) => Lower(pr.author_association) in ["owner", "contributor"] && pr.user.login == author
  }

  /** `pr_author` and `is_authored_by` accept the same pull requests. */
  lemma PrAuthorIsAuthoredBy(author: string, pr: PullRequest)
    ensures PrAuthor(author)(pr) == IsAuthoredBy(pr, author)
  {
    AuthoredIff(pr, author);
  }

  /** `filter_pr_merged_since`, which falls off its end (`None`) for a pull
      request neither merged nor closed. */
  function LegacyMergedSince(since: int, pr: PullRequest): (r: Option<bool>)
    ensures r.None? <==> pr.merged_at.None? && pr.closed_at.None?
  {
    if pr.merged_at.Some? then Some(pr.merged_at.value >= since)
    else if pr.closed_at.Some? then Some(pr.closed_at.value >= since)
    else None
  }

  /** The filter keeps a pull request when the answer is truthy. */
  function LegacyMergedFilter(since: int): PullRequest -> bool
  {
    (pr: PullRequest) => LegacyMergedSince(since, pr) == Some(true)
  }

  /** `None` is falsy, so the older filter keeps what the newer one keeps. */
  lemma MergedFiltersAgree(since: int, pr: PullRequest)
    ensures LegacyMergedFilter(since)(pr) == MergedSince(since)(pr)
  {
  }

  /** The dictionary one repository gives. */
  datatype LegacyContribution = LegacyContribution(
    repo: string,
    is_fork: bool,
    is_private: bool,
    platform: string,
    from: int,
    until: int,
    commits_count: CommitsCount,
    issues_count: IssuesCount,
    pull_request_count: PullRequestCount)

  /** The older collector's counting: the same steps with its own filters. */
  function LegacyAggregate(repo: Repo, since: int, until: int, author: string, sha: string -> string, platform: string,
                           f: Fetched): (r: Option<LegacyContribution>)
    ensures r.Some? ==> r.value.platform == platform && r.value.from == since && r.value.until == until
  {
    var openSince := Filter(OpenedSince(since), f.openPulls);
    var closedSince := Filter(LegacyMergedFilter(since), f.closedPulls);
    var lengths := [|f.commits|, |f.authoredCommits|, |f.issues|, |f.createdIssues|, |openSince|, |closedSince|];
    if ILen(Filter((n: int) => n > 0, lengths)) == 0 then None
    else
      Some(LegacyContribution(
        if !repo.private then repo.full_name else sha(repo.full_name),
        repo.fork, repo.private, platform, since, until,
        CommitsCount(|f.commits|, |f.authoredCommits|),
        IssuesCount(|f.issues|, |f.createdIssues|),
        PullRequestCount(
          PullRequestCountStat(|openSince|, |closedSince|),
          PullRequestCountStat(ILen(Filter(PrAuthor(author), openSince)), ILen(Filter(PrAuthor(author), closedSince))))))
  }

  /** The newer record with the older dictionary's extra keys. */
  function AsDictionary(c: Contribution, platform: string, since: int, until: int): LegacyContribution
  {
    LegacyContribution(c.repo, c.is_fork, c.is_private, platform, since, until,
                       c.commits_count, c.issues_count, c.pull_request_count)
  }

  /** Both collectors report the same repositories with the same counts. */
  lemma AggregatesAgree(repo: Repo, since: int, until: int, author: string, sha: string -> string, platform: string,
                        f: Fetched)
    ensures var c := Aggregate(repo, since, author, sha, f);
      LegacyAggregate(repo, since, until, author, sha, platform, f) ==
        if c.Some? then Some(AsDictionary(c.value, platform, since, until)) else None
  {
    forall pr ensures LegacyMergedFilter(since)(pr) == MergedSince(since)(pr) {
      MergedFiltersAgree(since, pr);
    }
    FilterSame(LegacyMergedFilter(since), MergedSince(since), f.closedPulls);
    forall pr ensures PrAuthor(author)(pr) == AuthoredBy(author)(pr) {
      PrAuthorIsAuthoredBy(author, pr);
    }
    FilterSame(PrAuthor(author), AuthoredBy(author), Filter(OpenedSince(since), f.openPulls));
    FilterSame(PrAuthor(author), AuthoredBy(author), Filter(MergedSince(since), f.closedPulls));
  }

  /** What the older collector is given from outside: as `Collector.Upstream`,
      plus URI template expansion (`purl.expand`) and the platform name. */
  datatype LegacyUpstream = LegacyUpstream(
    server: Server, iso: int -> string, sha: string -> string, expand: string -> string, platform: string, fuel: nat)

  /** The six listings of one repository, on the expanded URLs. The
      pull-request queries send `base`. */
  function LegacyRepoRequests(up: LegacyUpstream, repo: Repo, sinceIso: string, author: string): seq<Request>
  {
    [Request(up.expand(repo.commits_url), map["since" := sinceIso, "per_page" := PerPage]),
     Request(up.expand(repo.commits_url), map["author" := author, "since" := sinceIso, "per_page" := PerPage]),
     Request(up.expand(repo.issues_url), map["since" := sinceIso, "per_page" := PerPage]),
     Request(up.expand(repo.issues_url), map["creator" := author, "since" := sinceIso, "per_page" := PerPage]),
     Request(up.expand(repo.pulls_url), map["base" := "master", "state" := "open", "sort" := "created", "per_page" := PerPage]),
     Request(up.expand(repo.pulls_url), map["base" := "master", "state" := "closed", "sort" := "created", "per_page" := PerPage])]
  }

  /** `fetch_contributions` of the older collector. */
  function LegacyFetchContributions(nextLink: LinkReader, up: LegacyUpstream, repo: Repo, since: int, until: int,
                                    author: string)
    : (r: Result<Option<LegacyContribution>>)
    ensures var q := LegacyRepoRequests(up, repo, up.iso(since), author);
      r.Ok? <==>
        && LegacyListing(DecodeCommit, nextLink, up.server, q[0], up.fuel).Ok?
        && LegacyListing(DecodeCommit, nextLink, up.server, q[1], up.fuel).Ok?
        && LegacyListing(DecodeIssue, nextLink, up.server, q[2], up.fuel).Ok?
        && LegacyListing(DecodeIssue, nextLink, up.server, q[3], up.fuel).Ok?
        && LegacyListing(DecodePullRequest, nextLink, up.server, q[4], up.fuel).Ok?
        && LegacyListing(DecodePullRequest, nextLink, up.server, q[5], up.fuel).Ok?
    ensures r.Ok? && r.value.Some? ==> r.value.value.from == since && r.value.value.until == until
    ensures var q := LegacyRepoRequests(up, repo, up.iso(since), author);
      r.Ok? ==> r.value == LegacyAggregate(repo, since, until, author, up.sha, up.platform, Fetched(
        LegacyListing(DecodeCommit, nextLink, up.server, q[0], up.fuel).value,
        LegacyListing(DecodeCommit, nextLink, up.server, q[1], up.fuel).value,
        LegacyListing(DecodeIssue, nextLink, up.server, q[2], up.fuel).value,
        LegacyListing(DecodeIssue, nextLink, up.server, q[3], up.fuel).value,
        LegacyListing(DecodePullRequest, nextLink, up.server, q[4], up.fuel).value,
        LegacyListing(DecodePullRequest, nextLink, up.server, q[5], up.fuel).value))
  {
    var q := LegacyRepoRequests(up, repo, up.iso(since), author);
    var commits :- LegacyListing(DecodeCommit, nextLink, up.server, q[0], up.fuel);
    var authoredCommits :- LegacyListing(DecodeCommit, nextLink, up.server, q[1], up.fuel);
    var issues :- LegacyListing(DecodeIssue, nextLink, up.server, q[2], up.fuel);
    var createdIssues :- LegacyListing(DecodeIssue, nextLink, up.server, q[3], up.fuel);
    var openPulls :- LegacyListing(DecodePullRequest, nextLink, up.server, q[4], up.fuel);
    var closedPulls :- LegacyListing(DecodePullRequest, nextLink, up.server, q[5], up.fuel);
    Ok(LegacyAggregate(repo, since, until, author, up.sha, up.platform,
                       Fetched(commits, authoredCommits, issues, createdIssues, openPulls, closedPulls)))
  }

  // ---------------------------------------------------------------------------
  // main and collect
  // ---------------------------------------------------------------------------

  /** The outcome of a run of the older collector. */
  datatype LegacyResult = LegacyResult(user: string, since: int, until: int, contributions: seq<LegacyContribution>)

  function LegacyOutcomes(nextLink: LinkReader, up: LegacyUpstream, repos: seq<Repo>, since: int, until: int,
                          author: string)
    : (os: seq<Result<Option<LegacyContribution>>>)
    ensures |os| == |repos|
    ensures forall i :: 0 <= i < |repos| ==> os[i] == LegacyFetchContributions(nextLink, up, repos[i], since, until, author)
  {
    seq(|repos|, i requires 0 <= i < |repos| => LegacyFetchContributions(nextLink, up, repos[i], since, until, author))
  }

  /** `main` of the older collector: the window is given, not read from a clock. */
  function LegacyMain(nextLink: LinkReader, up: LegacyUpstream, since: int, until: int): (r: Result<LegacyResult>)
    ensures r.Ok? ==> r.value.since == since && r.value.until == until
    ensures r.Ok? ==> LegacyFetchOne(DecodeAPILimit, up.server, Request(RateLimitUrl, map[])).Ok?
    ensures r.Ok? ==> LegacyFetchOne(DecodeAPILimit, up.server, Request(RateLimitUrl, map[])).value.rate.remaining != 0
  {
    var limit :- LegacyFetchOne(DecodeAPILimit, up.server, Request(RateLimitUrl, map[]));
    if limit.rate.remaining == 0 then Err(NoLimitAvailable)
    else
      var user :- LegacyFetchOne(DecodeUser, up.server, Request(UserUrl, map[]));
      var owned :- LegacyListing(DecodeRepo, nextLink, up.server, Request(user.repos_url, map["per_page" := PerPage]), up.fuel);
      var visible :- LegacyListing(DecodeRepo, nextLink, up.server,
                                   Request(AllReposUrl, map["visibility" := "private", "per_page" := PerPage]), up.fuel);
      var contributions :- Collected(LegacyOutcomes(nextLink, up, owned + visible, since, until, user.login));
      Ok(LegacyResult(user.login, since, until, contributions))
  }

  /** A rate-limit response without the header ends the run before anything else. */
  lemma LimitHeaderRequired(nextLink: LinkReader, up: LegacyUpstream, since: int, until: int)
    requires Request(RateLimitUrl, map[]) in up.server
    requires up.server[Request(RateLimitUrl, map[])].remaining.None?
    ensures LegacyMain(nextLink, up, since, until) == Err(MissingRateLimitHeader)
  {
  }

  /** No request is spent when the limit reports nothing left. */
  lemma LegacyNoLimitAborts(nextLink: LinkReader, up: LegacyUpstream, since: int, until: int, limit: APILimit)
    requires LegacyFetchOne(DecodeAPILimit, up.server, Request(RateLimitUrl, map[])) == Ok(limit)
    requires limit.rate.remaining == 0
    ensures LegacyMain(nextLink, up, since, until) == Err(NoLimitAvailable)
  {
  }

  /** `collect`: a missing start falls back to the last run, a missing end to today. */
  function Window(lastRun: int, since: Option<int>, until: Option<int>, today: int): (int, int)
  {
    (if since.Some? then since.value else lastRun, if until.Some? then until.value else today)
  }

  function Collect(nextLink: LinkReader, up: LegacyUpstream, lastRun: int, since: Option<int>, until: Option<int>,
                   today: int): (r: Result<LegacyResult>)
    ensures r.Ok? ==> r.value.since == (if since.Some? then since.value else lastRun)
    ensures r.Ok? ==> r.value.until == (if until.Some? then until.value else today)
  {
    var w := Window(lastRun, since, until, today);
    LegacyMain(nextLink, up, w.0, w.1)
  }
}

/** The GitHub collector (ksc/collector/github/collector.py): paging through
    list endpoints, counting one repository's contributions, and the run that
    puts the counts together.

    The network is a `Server`: a map from a request to the response it gets.
    A request with no entry stands for a transport failure or a timeout. */
module Collector {
  import opened Common
  import opened Utils
  import opened GitHub
  import opened CollectorModel

  /** A GET request: the URL and its query parameters. */
  datatype Request = Request(url: string, params: map<string, string>)

  /** What the collector reads from a response: the status, the
      `X-RateLimit-Remaining` header when present, the `link` header (the
      empty string when absent) and the JSON body. */
  datatype Response = Response(status: int, remaining: Option<int>, link: string, body: Json)

  type Server = map<Request, Response>

  const Forbidden := 403
  const EmptyRepo := 409
  const PerPage := "1000"

  // ---------------------------------------------------------------------------
  // raise_for_limit
  // ---------------------------------------------------------------------------

  /** The `X-RateLimit-Remaining` header, `-1` when the response has none. */
  function Remaining(r: Response): int
  {
    if r.remaining.Some? then r.remaining.value else -1
  }

  /** `raise_for_limit`: a 403 that reports no remaining requests ends the run. */
  function RaiseForLimit(r: Response): (res: Result<bool>)
    ensures res.Err? <==> r.status == Forbidden && r.remaining == Some(0)
    ensures res.Err? ==> res.error == RateLimitExceeded
  {
    if r.status == Forbidden && Remaining(r) == 0 then Err(RateLimitExceeded) else Ok(true)
  }

  /** A response without the header never trips the limit, whatever its status. */
  lemma MissingHeaderNeverLimits(status: int, link: string, body: Json)
    ensures RaiseForLimit(Response(status, None, link, body)).Ok?
  {
  }

  // ---------------------------------------------------------------------------
  // fetch_one
  // ---------------------------------------------------------------------------

  /** `fetch_one`: one request, the limit check, then the model reads the body. */
  function FetchOne<T>(decode: Json -> Option<T>, server: Server, req: Request): (r: Result<T>)
    ensures r.Ok? <==> req in server && RaiseForLimit(server[req]).Ok? && decode(server[req].body).Some?
    ensures r.Ok? ==> decode(server[req].body) == Some(r.value)
    ensures req in server && server[req].status == Forbidden && server[req].remaining == Some(0) ==>
              r == Err(RateLimitExceeded)
  {
    if req !in server then Err(RequestFailed)
    else
      var resp := server[req];
      if RaiseForLimit(resp).Err? then Err(RateLimitExceeded)
      else match decode(resp.body)
        case None => Err(DecodeFailed)
        case Some(v) => Ok(v)
  }

  /** A user served as its own JSON object is read back unchanged. */
  lemma FetchServedUser(server: Server, req: Request, u: User)
    requires req in server && server[req].body == EncodeUser(u)
    requires server[req].status != Forbidden
    ensures FetchOne(DecodeUser, server, req) == Ok(u)
  {
    UserRoundTrip(u);
  }

  // ---------------------------------------------------------------------------
  // One page of fetch_list
  // ---------------------------------------------------------------------------

  /** The records of a JSON list that the model accepts, in order; the others
      are dropped (`parse_obj_safe` turns them into `None`, and the filter
      discards those). */
  function Decoded<T>(decode: Json -> Option<T>, items: seq<Json>): (r: seq<T>)
    ensures |r| <= |items|
  {
    if items == [] then []
    else (if decode(items[0]).Some? then [decode(items[0]).value] else []) + Decoded(decode, items[1..])
  }

  /** The records of two lists of items are those of the first, then those
      of the second. */
  lemma {:induction false} DecodedAppend<T>(decode: Json -> Option<T>, a: seq<Json>, b: seq<Json>)
    ensures Decoded(decode, a + b) == Decoded(decode, a) + Decoded(decode, b)
  {
    if a == [] {
      assert a + b == b;
    } else {
      assert (a + b)[0] == a[0] && (a + b)[1..] == a[1..] + b;
      DecodedAppend(decode, a[1..], b);
      var head := if decode(a[0]).Some? then [decode(a[0]).value] else [];
      assert head + (Decoded(decode, a[1..]) + Decoded(decode, b)) == (head + Decoded(decode, a[1..])) + Decoded(decode, b);
    }
  }

  /** One item: its record, or nothing when the model refuses it. */
  lemma DecodedOne<T>(decode: Json -> Option<T>, x: Json)
    ensures Decoded(decode, [x]) == if decode(x).Some? then [decode(x).value] else []
  {
    assert [x][1..] == [];
  }

  /** When every item is accepted, every record is kept, in order. */
  lemma {:induction false} DecodedAll<T>(decode: Json -> Option<T>, items: seq<Json>, xs: seq<T>)
    requires |items| == |xs|
    requires forall i :: 0 <= i < |items| ==> decode(items[i]) == Some(xs[i])
    ensures Decoded(decode, items) == xs
  {
    if items != [] {
      assert decode(items[0]) == Some(xs[0]);
      DecodedAll(decode, items[1..], xs[1..]);
      assert xs == [xs[0]] + xs[1..];
    }
  }

  /** A record the model refuses is dropped; the records around it are kept. */
  lemma BadRecordDropped<T>(decode: Json -> Option<T>, a: seq<Json>, bad: Json, b: seq<Json>)
    requires decode(bad).None?
    ensures Decoded(decode, a + [bad] + b) == Decoded(decode, a) + Decoded(decode, b)
  {
    DecodedAppend(decode, a + [bad], b);
    DecodedAppend(decode, a, [bad]);
    DecodedOne(decode, bad);
    assert Decoded(decode, a) + [] == Decoded(decode, a);
  }

  /** The records one page adds: none for an empty repository (409) or a body
      that is not a list, else the accepted records of the list. */
  function PageRecords<T>(decode: Json -> Option<T>, resp: Response): (r: seq<T>)
    ensures resp.status == EmptyRepo || !resp.body.JArray? ==> r == []
    ensures resp.status != EmptyRepo && resp.body.JArray? ==> r == Decoded(decode, resp.body.items)
  {
    if resp.status == EmptyRepo then []
    else if resp.body.JArray? then Decoded(decode, resp.body.items)
    else []
  }

  /** The records of a page placed before what the rest of a listing gives. */
  function Prepend<T>(data: seq<T>, r: Result<seq<T>>): Result<seq<T>>
  {
    if r.Ok? then Ok(data + r.value) else r
  }

  lemma PrependTwice<T>(a: seq<T>, b: seq<T>, r: Result<seq<T>>)
    ensures Prepend(a, Prepend(b, r)) == Prepend(a + b, r)
  {
    if r.Ok? {
      assert a + (b + r.value) == (a + b) + r.value;
    }
  }

  // ---------------------------------------------------------------------------
  // fetch_list
  // ---------------------------------------------------------------------------

  /** How a `link` header is read. The collector uses `get_next_link`
      (`Utils.GetNextLink`); the paging below holds for any reader. */
  type LinkReader = string -> Result<Option<string>>

  /** The page after this one: the link the reader finds, unless it is empty
      (an empty string is falsy, so it ends the listing like `False`). */
  function NextPage(nextLink: LinkReader, resp: Response): (r: Result<Option<string>>)
    ensures r.Ok? <==> nextLink(resp.link).Ok?
    ensures r.Ok? && r.value.Some? ==> r.value.value != "" && nextLink(resp.link).value == r.value
    ensures r.Ok? ==> (r.value.Some? <==> nextLink(resp.link).value.Some? && nextLink(resp.link).value.value != "")
  {
    var next :- nextLink(resp.link);
    Ok(if next.Some? && next.value != "" then next else None)
  }

  /** What `fetch_list` gives for a request: the records of its page followed
      by those of the pages its links lead to, each asked for with the same
      query parameters. A page over the limit, an unreadable link header or a
      failed request ends the listing with that error. At most `fuel` pages
      are fetched. */
  function Listing<T>(decode: Json -> Option<T>, nextLink: LinkReader, server: Server, req: Request, fuel: nat)
    : (r: Result<seq<T>>)
    ensures r.Ok? ==> req in server && RaiseForLimit(server[req]).Ok? && NextPage(nextLink, server[req]).Ok?
    ensures r.Ok? ==> PageRecords(decode, server[req]) <= r.value
    ensures req in server && RaiseForLimit(server[req]).Err? ==> r.Err?
    decreases fuel
  {
    if fuel == 0 then Err(PageBudgetExhausted)
    else if req !in server then Err(RequestFailed)
    else
      var resp := server[req];
      var _ :- RaiseForLimit(resp);
      var next :- NextPage(nextLink, resp);
      if next.Some? then
        Prepend(PageRecords(decode, resp), Listing(decode, nextLink, server, Request(next.value, req.params), fuel - 1))
      else Ok(PageRecords(decode, resp))
  }

  /** A page that is answered, not over the limit, and whose link header reads. */
  predicate Served(nextLink: LinkReader, server: Server, req: Request)
  {
    req in server && RaiseForLimit(server[req]).Ok? && NextPage(nextLink, server[req]).Ok?
  }

  /** The last page: its records end the listing. */
  lemma ListingLastPage<T>(decode: Json -> Option<T>, nextLink: LinkReader, server: Server, req: Request, fuel: nat)
    requires fuel > 0 && Served(nextLink, server, req) && NextPage(nextLink, server[req]).value.None?
    ensures Listing(decode, nextLink, server, req, fuel) == Ok(PageRecords(decode, server[req]))
  {
  }

  /** A page with a next one: its records come before those of the rest. */
  lemma ListingNextPage<T>(decode: Json -> Option<T>, nextLink: LinkReader, server: Server, req: Request, fuel: nat)
    requires fuel > 0 && Served(nextLink, server, req) && NextPage(nextLink, server[req]).value.Some?
    ensures Listing(decode, nextLink, server, req, fuel) ==
              Prepend(PageRecords(decode, server[req]),
                      Listing(decode, nextLink, server, Request(NextPage(nextLink, server[req]).value.value, req.params), fuel - 1))
  {
  }

  /** What the rest of a listing gives, prefixed by the records gathered so
      far and those of this page, is what the listing from this page gives
      prefixed by the records gathered so far. */
  lemma ListingFollows<T>(decode: Json -> Option<T>, nextLink: LinkReader, server: Server, req: Request, fuel: nat,
                          data: seq<T>, gathered: seq<T>, r: Result<seq<T>>)
    requires fuel > 0 && Served(nextLink, server, req) && NextPage(nextLink, server[req]).value.Some?
    requires gathered == data + PageRecords(decode, server[req])
    requires r == Prepend(gathered, Listing(decode, nextLink, server,
                                            Request(NextPage(nextLink, server[req]).value.value, req.params), fuel - 1))
    ensures r == Prepend(data, Listing(decode, nextLink, server, req, fuel))
  {
    var rest := Listing(decode, nextLink, server, Request(NextPage(nextLink, server[req]).value.value, req.params), fuel - 1);
    ListingNextPage(decode, nextLink, server, req, fuel);
    PrependTwice(data, PageRecords(decode, server[req]), rest);
  }

  /** Appends the records of one page to `data`: nothing for an empty
      repository or a body that is not a list, else each accepted record of
      the list, one at a time. */
  method AppendPage<T>(decode: Json -> Option<T>, data: seq<T>, resp: Response) returns (out: seq<T>)
    ensures out == data + PageRecords(decode, resp)
  {
    out := data;
    if resp.status == EmptyRepo || !resp.body.JArray? {
      assert out == data + [];
      return;
    }
    var items := resp.body.items;
    for i := 0 to |items|
      invariant out == data + Decoded(decode, items[..i])
    {
      assert items[..i + 1] == items[..i] + [items[i]];
      DecodedAppend(decode, items[..i], [items[i]]);
      DecodedOne(decode, items[i]);
      var d := decode(items[i]);
      if d.Some? {
        out := out + [d.value];
      }
    }
    assert items[..|items|] == items;
  }

  /** `fetch_list`: fetches `req`, appends the accepted records of the page to
      `data` and, while there is a next page, calls itself on it with the same
      query parameters and the records gathered so far. */
  method FetchList<T>(decode: Json -> Option<T>, nextLink: LinkReader, server: Server, req: Request, fuel: nat,
                      data: seq<T>)
    returns (r: Result<seq<T>>)
    ensures r == Prepend(data, Listing(decode, nextLink, server, req, fuel))
    decreases fuel
  {
    if fuel == 0 {
      return Err(PageBudgetExhausted);
    }
    if req !in server {
      return Err(RequestFailed);
    }
    var resp := server[req];
    if RaiseForLimit(resp).Err? {
      return Err(RateLimitExceeded);
    }
    var gathered := AppendPage(decode, data, resp);
    var next := NextPage(nextLink, resp);
    if next.Err? {
      return Err(next.error);
    }
    if next.value.None? {
      ListingLastPage(decode, nextLink, server, req, fuel);
      return Ok(gathered);
    }
    var following := Request(next.value.value, req.params);
    r := FetchList(decode, nextLink, server, following, fuel - 1, gathered);
    ListingFollows(decode, nextLink, server, req, fuel, data, gathered, r);
  }

  // ---------------------------------------------------------------------------
  // Properties of a listing
  // ---------------------------------------------------------------------------

  /** The records of the pages at `urls`, in order. */
  function ChainRecords<T>(decode: Json -> Option<T>, server: Server, urls: seq<string>, params: map<string, string>)
    : seq<T>
    requires forall i :: 0 <= i < |urls| ==> Request(urls[i], params) in server
  {
    if urls == [] then []
    else PageRecords(decode, server[Request(urls[0], params)]) + ChainRecords(decode, server, urls[1..], params)
  }

  /** Pages that are all answered, each but the last under the limit and
      linking to the next one. */
  predicate Chained(nextLink: LinkReader, server: Server, urls: seq<string>, params: map<string, string>)
  {
    && (forall i :: 0 <= i < |urls| ==> Request(urls[i], params) in server)
    && (forall i :: 0 <= i < |urls| - 1 ==>
          && RaiseForLimit(server[Request(urls[i], params)]).Ok?
          && NextPage(nextLink, server[Request(urls[i], params)]) == Ok(Some(urls[i + 1])))
  }

  lemma ChainedTail(nextLink: LinkReader, server: Server, urls: seq<string>, params: map<string, string>)
    requires |urls| >= 1 && Chained(nextLink, server, urls, params)
    ensures Chained(nextLink, server, urls[1..], params)
  {
    var rest := urls[1..];
    forall i | 0 <= i < |rest|
      ensures Request(rest[i], params) in server
    {
      assert rest[i] == urls[i + 1];
    }
    forall i | 0 <= i < |rest| - 1
      ensures RaiseForLimit(server[Request(rest[i], params)]).Ok?
      ensures NextPage(nextLink, server[Request(rest[i], params)]) == Ok(Some(rest[i + 1]))
    {
      assert rest[i] == urls[i + 1] && rest[i + 1] == urls[i + 2];
    }
  }

  /** A chain of pages whose last one is under the limit and links nowhere is
      listed whole, in order, once the budget covers every page. */
  lemma {:induction false} ListingOfChain<T>(decode: Json -> Option<T>, nextLink: LinkReader, server: Server,
                                             urls: seq<string>, params: map<string, string>, fuel: nat)
    requires |urls| >= 1 && fuel >= |urls|
    requires Chained(nextLink, server, urls, params)
    requires RaiseForLimit(server[Request(urls[|urls| - 1], params)]).Ok?
    requires NextPage(nextLink, server[Request(urls[|urls| - 1], params)]) == Ok(None)
    ensures Listing(decode, nextLink, server, Request(urls[0], params), fuel) == Ok(ChainRecords(decode, server, urls, params))
    decreases |urls|
  {
    var req := Request(urls[0], params);
    assert req in server;
    if |urls| == 1 {
      ListingLastPage(decode, nextLink, server, req, fuel);
      assert ChainRecords(decode, server, urls[1..], params) == [];
      var page := PageRecords(decode, server[req]);
      assert ChainRecords(decode, server, urls, params) == page + [] == page;
    } else {
      assert NextPage(nextLink, server[req]) == Ok(Some(urls[1]));
      ListingNextPage(decode, nextLink, server, req, fuel);
      ChainedTail(nextLink, server, urls, params);
      assert urls[1..][0] == urls[1] && urls[1..][|urls[1..]| - 1] == urls[|urls| - 1];
      ListingOfChain(decode, nextLink, server, urls[1..], params, fuel - 1);
    }
  }

  /** A chain longer than the budget ends with the budget exhausted. */
  lemma {:induction false} ChainOverBudget<T>(decode: Json -> Option<T>, nextLink: LinkReader, server: Server,
                                              urls: seq<string>, params: map<string, string>, fuel: nat)
    requires fuel < |urls|
    requires Chained(nextLink, server, urls, params)
    ensures Listing(decode, nextLink, server, Request(urls[0], params), fuel) == Err(PageBudgetExhausted)
    decreases fuel
  {
    if fuel > 0 {
      var req := Request(urls[0], params);
      assert req in server && NextPage(nextLink, server[req]) == Ok(Some(urls[1]));
      ListingNextPage(decode, nextLink, server, req, fuel);
      ChainedTail(nextLink, server, urls, params);
      ChainOverBudget(decode, nextLink, server, urls[1..], params, fuel - 1);
    }
  }

  /** A page that links to itself is fetched until the budget runs out. */
  lemma {:induction false} SelfLinkExhausts<T>(decode: Json -> Option<T>, nextLink: LinkReader, server: Server,
                                               req: Request, fuel: nat)
    requires Served(nextLink, server, req) && NextPage(nextLink, server[req]) == Ok(Some(req.url))
    ensures Listing(decode, nextLink, server, req, fuel) == Err(PageBudgetExhausted)
    decreases fuel
  {
    if fuel > 0 {
      ListingNextPage(decode, nextLink, server, req, fuel);
      SelfLinkExhausts(decode, nextLink, server, req, fuel - 1);
    }
  }

  /** A page over the limit ends the listing, wherever it is in the chain:
      the records of the pages before it are lost. */
  lemma {:induction false} LimitOnLaterPage<T>(decode: Json -> Option<T>, nextLink: LinkReader, server: Server,
                                               urls: seq<string>, params: map<string, string>, fuel: nat)
    requires |urls| >= 1 && fuel >= |urls|
    requires Chained(nextLink, server, urls, params)
    requires server[Request(urls[|urls| - 1], params)].status == Forbidden
    requires server[Request(urls[|urls| - 1], params)].remaining == Some(0)
    ensures Listing(decode, nextLink, server, Request(urls[0], params), fuel) == Err(RateLimitExceeded)
    decreases |urls|
  {
    var req := Request(urls[0], params);
    assert req in server;
    if |urls| >= 2 {
      assert NextPage(nextLink, server[req]) == Ok(Some(urls[1]));
      ListingNextPage(decode, nextLink, server, req, fuel);
      ChainedTail(nextLink, server, urls, params);
      assert urls[1..][|urls[1..]| - 1] == urls[|urls| - 1];
      LimitOnLaterPage(decode, nextLink, server, urls[1..], params, fuel - 1);
    }
  }

  /** An empty repository (409) adds no records but its link is still followed. */
  lemma EmptyRepoFollowsLink<T>(decode: Json -> Option<T>, nextLink: LinkReader, server: Server, req: Request,
                                fuel: nat, url: string)
    requires fuel > 0 && Served(nextLink, server, req)
    requires server[req].status == EmptyRepo && NextPage(nextLink, server[req]) == Ok(Some(url))
    ensures Listing(decode, nextLink, server, req, fuel) == Listing(decode, nextLink, server, Request(url, req.params), fuel - 1)
  {
    var rest := Listing(decode, nextLink, server, Request(url, req.params), fuel - 1);
    if rest.Ok? {
      assert [] + rest.value == rest.value;
    }
  }

  /** With `get_next_link`: a page whose header names a `next` relation is
      followed there, whatever other relations the header carries after it. */
  lemma FollowsNextRelation(resp: Response, links: seq<Link>, i: nat)
    requires forall k :: 0 <= k < |links| ==> WellFormed(links[k])
    requires i < |links| && links[i].rel == "next" && links[i].url != ""
    requires forall j :: i < j < |links| ==> links[j].rel != "next"
    requires resp.link == FormatLinkHeader(links)
    ensures NextPage(GetNextLink, resp) == Ok(Some(links[i].url))
  {
    NextPreferred(links, i);
  }

  // ---------------------------------------------------------------------------
  // fetch_contributions
  // ---------------------------------------------------------------------------

  /** `filter_pr_open_since`: opened at or after `since`. */
  function OpenedSince(since: int): PullRequest -> bool
  {
    (pr: PullRequest) => pr.created_at >= since
  }

  /** `filter_pr_merged_since`: merged at or after `since`; one that was not
      merged counts by when it was closed; one never closed does not count. */
  function MergedSince(since: int): PullRequest -> bool
  {
    (pr: PullRequest) => if pr.merged_at.Some? then pr.merged_at.value >= since
                         else pr.closed_at.Some? && pr.closed_at.value >= since
  }

  /** A later cutoff never counts more pull requests as opened, nor as merged. */
  lemma LaterCutoffCountsFewer(prs: seq<PullRequest>, earlier: int, later: int)
    requires earlier <= later
    ensures |Filter(OpenedSince(later), prs)| <= |Filter(OpenedSince(earlier), prs)|
    ensures |Filter(MergedSince(later), prs)| <= |Filter(MergedSince(earlier), prs)|
  {
    FilterWeaker(OpenedSince(later), OpenedSince(earlier), prs);
    FilterWeaker(MergedSince(later), MergedSince(earlier), prs);
  }

  /** `is_authored_by(author)` as a filter. */
  function AuthoredBy(author: string): PullRequest -> bool
  {
    (pr: PullRequest) => IsAuthoredBy(pr, author)
  }

  /** The six lists `fetch_contributions` waits for, in their order. */
  datatype Fetched = Fetched(
    commits: seq<Commit>,
    authoredCommits: seq<Commit>,
    issues: seq<Issue>,
    createdIssues: seq<Issue>,
    openPulls: seq<PullRequest>,
    closedPulls: seq<PullRequest>)

  /** The lengths the collector logs, after the two pull-request lists are
      narrowed to those opened and merged since `since`. */
  function Lengths(since: int, f: Fetched): seq<int>
  {
    [|f.commits|, |f.authoredCommits|, |f.issues|, |f.createdIssues|,
     |Filter(OpenedSince(since), f.openPulls)|, |Filter(MergedSince(since), f.closedPulls)|]
  }

  /** At least one of the six lists has something in it. */
  predicate Active(since: int, f: Fetched)
  {
    ILen(Filter((n: int) => n > 0, Lengths(since, f))) != 0
  }

  /** The name a contribution is filed under: the full name, or its SHA-256
      hex digest for a private repository. */
  function RepoIdentity(repo: Repo, sha: string -> string): string
  {
    if repo.private then sha(repo.full_name) else repo.full_name
  }

  /** The contribution built from the counts, with the given authored
      pull-request counts. */
  function Counted(repo: Repo, since: int, sha: string -> string, f: Fetched, authored: PullRequestCountStat): Contribution
  {
    Contribution(
      RepoIdentity(repo, sha), repo.fork, repo.private,
      CommitsCount(|f.commits|, |f.authoredCommits|),
      IssuesCount(|f.issues|, |f.createdIssues|),
      PullRequestCount(
        PullRequestCountStat(|Filter(OpenedSince(since), f.openPulls)|, |Filter(MergedSince(since), f.closedPulls)|),
        authored))
  }

  /** The authored pull-request counts: those of the narrowed lists that
      `is_authored_by` accepts. */
  function AuthoredStat(since: int, author: string, f: Fetched): PullRequestCountStat
  {
    PullRequestCountStat(
      ILen(Filter(AuthoredBy(author), Filter(OpenedSince(since), f.openPulls))),
      ILen(Filter(AuthoredBy(author), Filter(MergedSince(since), f.closedPulls))))
  }

  /** The contribution of one repository, or `None` when there is nothing to
      report, with both authored counts passed under their declared names. */
  function Aggregate(repo: Repo, since: int, author: string, sha: string -> string, f: Fetched): (r: Option<Contribution>)
    ensures r.Some? ==> r.value.repo == (if repo.private then sha(repo.full_name) else repo.full_name)
    ensures r.Some? ==> r.value.is_fork == repo.fork && r.value.is_private == repo.private
    ensures r.Some? ==> r.value.pull_request_count.authored.open <= r.value.pull_request_count.total.open
    ensures r.Some? ==> r.value.pull_request_count.authored.merged <= r.value.pull_request_count.total.merged
  {
    if Active(since, f) then Some(Counted(repo, since, sha, f, AuthoredStat(since, author, f))) else None
  }

  /** The all-zero check: a repository is active exactly when one of the six
      lengths is positive. */
  lemma ActiveIff(since: int, f: Fetched)
    ensures Active(since, f) <==>
              || |f.commits| > 0 || |f.authoredCommits| > 0 || |f.issues| > 0 || |f.createdIssues| > 0
              || |Filter(OpenedSince(since), f.openPulls)| > 0 || |Filter(MergedSince(since), f.closedPulls)| > 0
  {
    var ls := Lengths(since, f);
    FilterEmpty((n: int) => n > 0, ls);
    assert ls[0] == |f.commits| && ls[1] == |f.authoredCommits| && ls[2] == |f.issues| && ls[3] == |f.createdIssues|;
    assert ls[4] == |Filter(OpenedSince(since), f.openPulls)| && ls[5] == |Filter(MergedSince(since), f.closedPulls)|;
  }

  /** A repository is skipped exactly when the author did nothing in it since
      `since`: no commits, no issues, no pull request opened since then and
      none merged (or closed) since then. */
  lemma IdleSkipped(repo: Repo, since: int, author: string, sha: string -> string, f: Fetched)
    ensures Aggregate(repo, since, author, sha, f).None? <==>
              && f.commits == [] && f.authoredCommits == [] && f.issues == [] && f.createdIssues == []
              && (forall i :: 0 <= i < |f.openPulls| ==> f.openPulls[i].created_at < since)
              && (forall i :: 0 <= i < |f.closedPulls| ==> !MergedSince(since)(f.closedPulls[i]))
  {
    ActiveIff(since, f);
    FilterEmpty(OpenedSince(since), f.openPulls);
    FilterEmpty(MergedSince(since), f.closedPulls);
  }

  /** The counts of a contribution: the four list lengths, the pull requests
      opened and merged since `since`, and of those the ones the author owns
      or contributed. */
  lemma ContributionCounts(repo: Repo, since: int, author: string, sha: string -> string, f: Fetched)
    requires Aggregate(repo, since, author, sha, f).Some?
    ensures var c := Aggregate(repo, since, author, sha, f).value;
      && c.commits_count == CommitsCount(|f.commits|, |f.authoredCommits|)
      && c.issues_count == IssuesCount(|f.issues|, |f.createdIssues|)
      && c.pull_request_count.total.open == CountWhere(OpenedSince(since), f.openPulls)
      && c.pull_request_count.total.merged == CountWhere(MergedSince(since), f.closedPulls)
      && c.pull_request_count.authored.open == CountWhere(Both(OpenedSince(since), AuthoredBy(author)), f.openPulls)
      && c.pull_request_count.authored.merged == CountWhere(Both(MergedSince(since), AuthoredBy(author)), f.closedPulls)
  {
    FilterCounts(OpenedSince(since), f.openPulls);
    FilterCounts(MergedSince(since), f.closedPulls);
    FilterTwice(OpenedSince(since), AuthoredBy(author), f.openPulls);
    FilterTwice(MergedSince(since), AuthoredBy(author), f.closedPulls);
    FilterCounts(Both(OpenedSince(since), AuthoredBy(author)), f.openPulls);
    FilterCounts(Both(MergedSince(since), AuthoredBy(author)), f.closedPulls);
  }

  /** The contribution exactly as `fetch_contributions` builds it: the
      authored merged count is passed as `marged=`, which the record does not
      declare, so its required `merged` is missing. */
  function AggregateAsWritten(repo: Repo, since: int, author: string, sha: string -> string, f: Fetched)
    : (r: Result<Option<Contribution>>)
    ensures r.Ok? && r.value.Some? ==> r.value.value.repo == RepoIdentity(repo, sha)
  {
    if !Active(since, f) then Ok(None)
    else
      var stat := AuthoredStat(since, author, f);
      var authored :- MakeStat(map["open" := stat.open, "marged" := stat.merged]);
      Ok(Some(Counted(repo, since, sha, f, authored)))
  }

  /** As written, every repository with something to report makes the
      collection fail; only idle repositories get through. */
  lemma MargedRejected(repo: Repo, since: int, author: string, sha: string -> string, f: Fetched)
    ensures AggregateAsWritten(repo, since, author, sha, f) ==
              if Aggregate(repo, since, author, sha, f).Some? then Err(ValidationFailed) else Ok(None)
  {
    if Active(since, f) {
      var stat := AuthoredStat(since, author, f);
      assert "merged" !in map["open" := stat.open, "marged" := stat.merged];
    }
  }

  /** The six listings of one repository: its commits since `since`, those
      by the author, its issues since `since`, those the author created, and
      its open and closed pull requests. Each carries `per_page`. The
      pull-request queries send a `collector` key where the older collector
      sent `base`. */
  function RepoRequests(repo: Repo, sinceIso: string, author: string): seq<Request>
  {
    [Request(repo.commits_url, map["since" := sinceIso, "per_page" := PerPage]),
     Request(repo.commits_url, map["author" := author, "since" := sinceIso, "per_page" := PerPage]),
     Request(repo.issues_url, map["since" := sinceIso, "per_page" := PerPage]),
     Request(repo.issues_url, map["creator" := author, "since" := sinceIso, "per_page" := PerPage]),
     Request(repo.pulls_url, map["collector" := "master", "state" := "open", "sort" := "created", "per_page" := PerPage]),
     Request(repo.pulls_url, map["collector" := "master", "state" := "closed", "sort" := "created", "per_page" := PerPage])]
  }

  /** What the collector is given from outside: the server, how a timestamp
      is written in a query (`isoformat`), SHA-256 as a hex digest, and the
      page budget of one listing. */
  datatype Upstream = Upstream(server: Server, iso: int -> string, sha: string -> string, fuel: nat)

  /** `fetch_contributions`: the six listings, all of which must succeed,
      then the counts. */
  function FetchContributions(nextLink: LinkReader, up: Upstream, repo: Repo, since: int, author: string)
    : (r: Result<Option<Contribution>>)
    ensures var q := RepoRequests(repo, up.iso(since), author);
      r.Ok? <==>
        && Listing(DecodeCommit, nextLink, up.server, q[0], up.fuel).Ok?
        && Listing(DecodeCommit, nextLink, up.server, q[1], up.fuel).Ok?
        && Listing(DecodeIssue, nextLink, up.server, q[2], up.fuel).Ok?
        && Listing(DecodeIssue, nextLink, up.server, q[3], up.fuel).Ok?
        && Listing(DecodePullRequest, nextLink, up.server, q[4], up.fuel).Ok?
        && Listing(DecodePullRequest, nextLink, up.server, q[5], up.fuel).Ok?
    ensures r.Ok? && r.value.Some? ==> r.value.value.repo == RepoIdentity(repo, up.sha)
    ensures var q := RepoRequests(repo, up.iso(since), author);
      r.Ok? ==> r.value == Aggregate(repo, since, author, up.sha, Fetched(
        Listing(DecodeCommit, nextLink, up.server, q[0], up.fuel).value,
        Listing(DecodeCommit, nextLink, up.server, q[1], up.fuel).value,
        Listing(DecodeIssue, nextLink, up.server, q[2], up.fuel).value,
        Listing(DecodeIssue, nextLink, up.server, q[3], up.fuel).value,
        Listing(DecodePullRequest, nextLink, up.server, q[4], up.fuel).value,
        Listing(DecodePullRequest, nextLink, up.server, q[5], up.fuel).value))
  {
    var q := RepoRequests(repo, up.iso(since), author);
    var commits :- Listing(DecodeCommit, nextLink, up.server, q[0], up.fuel);
    var authoredCommits :- Listing(DecodeCommit, nextLink, up.server, q[1], up.fuel);
    var issues :- Listing(DecodeIssue, nextLink, up.server, q[2], up.fuel);
    var createdIssues :- Listing(DecodeIssue, nextLink, up.server, q[3], up.fuel);
    var openPulls :- Listing(DecodePullRequest, nextLink, up.server, q[4], up.fuel);
    var closedPulls :- Listing(DecodePullRequest, nextLink, up.server, q[5], up.fuel);
    Ok(Aggregate(repo, since, author, up.sha, Fetched(commits, authoredCommits, issues, createdIssues, openPulls, closedPulls)))
  }

  // ---------------------------------------------------------------------------
  // main
  // ---------------------------------------------------------------------------

  const RateLimitUrl := "https://api.github.com/rate_limit"
  const UserUrl := "https://api.github.com/user"
  const AllReposUrl := "https://api.github.com/user/repos"

  /** What `fetch_contributions` gives for each repository, in order. */
  function Outcomes(nextLink: LinkReader, up: Upstream, repos: seq<Repo>, since: int, author: string)
    : (os: seq<Result<Option<Contribution>>>)
    ensures |os| == |repos|
    ensures forall i :: 0 <= i < |repos| ==> os[i] == FetchContributions(nextLink, up, repos[i], since, author)
  {
    seq(|repos|, i requires 0 <= i < |repos| => FetchContributions(nextLink, up, repos[i], since, author))
  }

  /** `main`: checks the limit, fetches the user, its own repositories and
      the private ones it can see, then the contributions of all of them.
      `lastRun` is where the window starts and `today` where it ends. */
  function Main(nextLink: LinkReader, up: Upstream, lastRun: int, today: int): (r: Result<CollectorResult>)
    ensures r.Ok? ==> r.value.since == lastRun && r.value.until == today
    ensures r.Ok? ==> FetchOne(DecodeAPILimit, up.server, Request(RateLimitUrl, map[])).Ok?
    ensures r.Ok? ==> FetchOne(DecodeAPILimit, up.server, Request(RateLimitUrl, map[])).value.rate.remaining != 0
    ensures r.Ok? ==> FetchOne(DecodeUser, up.server, Request(UserUrl, map[])).Ok?
    ensures r.Ok? ==> r.value.user == FetchOne(DecodeUser, up.server, Request(UserUrl, map[])).value.login
  {
    var limit :- FetchOne(DecodeAPILimit, up.server, Request(RateLimitUrl, map[]));
    if limit.rate.remaining == 0 then Err(NoLimitAvailable)
    else
      var user :- FetchOne(DecodeUser, up.server, Request(UserUrl, map[]));
      var owned :- Listing(DecodeRepo, nextLink, up.server, Request(user.repos_url, map["per_page" := PerPage]), up.fuel);
      var visible :- Listing(DecodeRepo, nextLink, up.server,
                             Request(AllReposUrl, map["visibility" := "private", "per_page" := PerPage]), up.fuel);
      var contributions :- Collected(Outcomes(nextLink, up, owned + visible, lastRun, user.login));
      Ok(CollectorResult(user.login, lastRun, today, contributions))
  }

  /** A run with the real link reader. */
  function Run(up: Upstream, lastRun: int, today: int): (r: Result<CollectorResult>)
    ensures r.Ok? ==> r.value.since == lastRun && r.value.until == today
    ensures r.Ok? ==> FetchOne(DecodeAPILimit, up.server, Request(RateLimitUrl, map[])).Ok?
    ensures r.Ok? ==> FetchOne(DecodeAPILimit, up.server, Request(RateLimitUrl, map[])).value.rate.remaining != 0
    ensures r.Ok? ==> FetchOne(DecodeUser, up.server, Request(UserUrl, map[])).Ok?
    ensures r.Ok? ==> r.value.user == FetchOne(DecodeUser, up.server, Request(UserUrl, map[])).value.login
  {
    Main(GetNextLink, up, lastRun, today)
  }

  /** The outcomes of two lists of repositories are those of the first, then
      those of the second. */
  lemma OutcomesAppend(nextLink: LinkReader, up: Upstream, a: seq<Repo>, b: seq<Repo>, since: int, author: string)
    ensures Outcomes(nextLink, up, a + b, since, author) == Outcomes(nextLink, up, a, since, author) + Outcomes(nextLink, up, b, since, author)
  {
    var f := (r: Repo) => FetchContributions(nextLink, up, r, since, author);
    MapAppend(f, a, b, Outcomes(nextLink, up, a, since, author), Outcomes(nextLink, up, b, since, author),
              Outcomes(nextLink, up, a + b, since, author));
  }

  /** The contributions of the user's own repositories come first, in their
      order, then those of the private ones; nothing is merged or dropped. */
  lemma OwnedBeforePrivate(nextLink: LinkReader, up: Upstream, owned: seq<Repo>, visible: seq<Repo>, since: int,
                           author: string)
    requires Collected(Outcomes(nextLink, up, owned, since, author)).Ok?
    requires Collected(Outcomes(nextLink, up, visible, since, author)).Ok?
    ensures Collected(Outcomes(nextLink, up, owned + visible, since, author)) ==
              Ok(Collected(Outcomes(nextLink, up, owned, since, author)).value +
                 Collected(Outcomes(nextLink, up, visible, since, author)).value)
  {
    OutcomesAppend(nextLink, up, owned, visible, since, author);
    CollectedAppend(Outcomes(nextLink, up, owned, since, author), Outcomes(nextLink, up, visible, since, author));
  }

  /** No request is spent when the limit reports nothing left. */
  lemma NoLimitAborts(nextLink: LinkReader, up: Upstream, lastRun: int, today: int, limit: APILimit)
    requires FetchOne(DecodeAPILimit, up.server, Request(RateLimitUrl, map[])) == Ok(limit)
    requires limit.rate.remaining == 0
    ensures Main(nextLink, up, lastRun, today) == Err(NoLimitAvailable)
  {
  }

  /** A run that gets through the limit, the user and both repository
      listings reports the contributions of the user's own repositories
      followed by those of the private ones, for the user's login. */
  lemma MainCollects(nextLink: LinkReader, up: Upstream, lastRun: int, today: int,
                     limit: APILimit, user: User, owned: seq<Repo>, visible: seq<Repo>)
    requires FetchOne(DecodeAPILimit, up.server, Request(RateLimitUrl, map[])) == Ok(limit)
    requires limit.rate.remaining != 0
    requires FetchOne(DecodeUser, up.server, Request(UserUrl, map[])) == Ok(user)
    requires Listing(DecodeRepo, nextLink, up.server, Request(user.repos_url, map["per_page" := PerPage]), up.fuel) == Ok(owned)
    requires Listing(DecodeRepo, nextLink, up.server,
                     Request(AllReposUrl, map["visibility" := "private", "per_page" := PerPage]), up.fuel) == Ok(visible)
    ensures var cs := Collected(Outcomes(nextLink, up, owned + visible, lastRun, user.login));
      Main(nextLink, up, lastRun, today) == (if cs.Ok? then Ok(CollectorResult(user.login, lastRun, today, cs.value)) else Err(cs.error))
  {
  }

  /** A repository listed twice (own and private) is counted twice. */
  lemma ListedTwiceCountedTwice(nextLink: LinkReader, up: Upstream, repo: Repo, since: int, author: string,
                                c: Contribution)
    requires FetchContributions(nextLink, up, repo, since, author) == Ok(Some(c))
    ensures Collected(Outcomes(nextLink, up, [repo, repo], since, author)) == Ok([c, c])
  {
    assert Outcomes(nextLink, up, [repo, repo], since, author) == [Ok(Some(c)), Ok(Some(c))];
    CollectedTwice(c);
  }

  /** One repository whose listings fail makes the whole run fail. */
  lemma FailingRepoFailsRun(nextLink: LinkReader, up: Upstream, repos: seq<Repo>, since: int, author: string, i: nat)
    requires i < |repos| && FetchContributions(nextLink, up, repos[i], since, author).Err?
    ensures Collected(Outcomes(nextLink, up, repos, since, author)).Err?
  {
  }
}

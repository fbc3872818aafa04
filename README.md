# korni-stats-collector: the GitHub collector, modelled in Dafny

korni-stats-collector counts what one GitHub user did since the last run. It
reads the commits, issues and pull requests of every repository the user can
see, and reports one contribution record per active repository. This project
models the decision-making of that collector and proves properties of it:

- `utils.dfy` (module `Utils`) models `ksc/utils.py`. It holds the parser of
  the HTTP `Link` header (section 3 of RFC 8288), with Python's `str.split`,
  `str.strip` and the greedy, start-anchored `re.match` of
  `<(?P<url>.*)>;\s*rel="(?P<rel>.*)"` written out. It also holds
  `get_next_link`, which follows `next`, else `last`, else nothing, and
  `ilen`. The loop of `parse_link_header` is the method `AddRelations`, and
  the function `AddLinks` specifies it.
- `github.dfy` (module `GitHub`) models the records of
  `ksc/collector/github/github.py`:
  - JSON documents are a `Json` datatype, and `parse_obj` is a decoder per
    record.
  - Each record has an encoder and a round-trip lemma.
  - Lemmas state which fields are required and which are optional.
  - It also models `PullRequest.is_authored_by`.
- `collector_model.dfy` (module `CollectorModel`) holds the result records of
  `ksc/collector/model/collector.py`. `MakeStat` builds a
  `PullRequestCountStat` from keyword arguments the way pydantic does:
  undeclared keys are ignored, and a missing declared key is refused.
- `collector.dfy` (module `Collector`) models the collector in
  `ksc/collector/github/collector.py`:
  - `raise_for_limit` and `fetch_one`.
  - `fetch_list`, as the recursive method `FetchList`. Like the source, it
    calls itself on the next page with the records gathered so far. The
    method `AppendPage` is the loop that appends one page's accepted records.
    Both are proved against the specification function `Listing`.
  - `fetch_contributions`: the six listings, the two pull-request filters,
    the all-zero check, the counts, and the repository name, which is hashed
    when the repository is private.
  - `main`: the limit check, the user, own repositories followed by private
    ones, and every repository's contribution with the idle ones dropped,
    in repository order and with repeats kept (`OwnedBeforePrivate`).
- `legacy.dfy` (module `LegacyCollector`) models the older collector in
  `ksc/collector/github.py`, including `collect`'s defaulting of the time
  window. The loop that builds one page's records is the method
  `ExtendPage`, proved against `LegacyPageRecords`. Lemmas state where the
  older collector differs from the newer one and where it agrees.
- `common.dfy` (module `Common`) holds `Option`, `Result`, the error outcomes,
  and the Python built-ins the collector relies on: `filter`,
  `filter(None, …)`, and the all-or-nothing wait of `asyncio.gather`.

## How the outside world is modelled

- **Server.** The network is a `Server`: a map from a request (a URL and its
  query parameters) to a response. A request with no entry stands for a
  failed or timed-out request. A response holds:
  - the status;
  - the `X-RateLimit-Remaining` header, when present;
  - the `link` header, `""` when absent;
  - the JSON body.
- **Timestamps** are integers, because the collector only compares them with
  `>=`.
- **Parameters.** These things become parameters:
  - `isoformat` and SHA-256 as a hex digest;
  - the clock: `today`, the last run, and `since`/`until`;
  - for the older collector, URI template expansion (`purl.expand`) and the
    platform constant.
- **Page budget.** Each listing has a budget (`fuel`) of pages. Running out
  of it is the error `PageBudgetExhausted`, which the collector itself does
  not have.
- **Link reader.** How a `link` header is read is a parameter (`LinkReader`)
  of every function that follows links. The collector reads it with
  `Utils.GetNextLink`, which `Run` passes in. The paging lemmas hold for any
  reader. `FollowsNextRelation` ties the paging to the real parser.
- **Legacy records.** The older collector is given the same record types and
  decoders as the newer one. Its own model (`ksc/collector/model/github.py`,
  jsonmodels) is not part of this model.
- **As written.**
  - The closed-pull-request filter counts a pull request that was closed
    without being merged by its closing time (`MergedSince`).
  - The newer collector's pull-request queries send a `collector` key where
    the older one sent `base` (`RepoRequests`, `LegacyRepoRequests`).
  - The newer collector uses repository URLs such as `commits_url` as given.
    The older one expands them as URI templates first.

## Model

| member | source | states |
|---|---|---|
| Common.Filter | ksc/collector/github/collector.py:136-137 | `list(filter(p, xs))`: no longer than `xs`; every kept element is in `xs` and satisfies `p`; every element of `xs` that satisfies `p` is kept |
| Common.FilterAppend | ksc/collector/github/collector.py:136-137 | filtering a concatenation is the concatenation of the filtered parts |
| Common.FilterKeepsAll | ksc/collector/github/collector.py:136-137 | a filter that every element passes changes nothing |
| Common.FilterCounts | ksc/collector/github/collector.py:158-163 | the length of a filtered list is the number of elements satisfying the predicate, counted one by one |
| Common.FilterTwice | ksc/collector/github/collector.py:136-137 | filtering by `p` and then by `q` keeps exactly what satisfies both |
| Common.FilterSame | ksc/collector/github.py:106-107 | predicates that agree on every element filter alike |
| Common.FilterEmpty | ksc/collector/github/collector.py:136-150 | a filter gives nothing exactly when no element satisfies the predicate |
| Common.Somes | ksc/collector/github/collector.py:307-309 | `filter(None, xs)`: every kept record came from an element of `xs`, every present element is kept, and `SomesAppend`/`SomesOne` fix the order and keep repeats |
| Common.SomesAppend | ksc/collector/github/collector.py:307-309 | `filter(None, …)` of a concatenation is the concatenation of the parts, so order and repeats are kept |
| Common.SomesOne | ksc/collector/github/collector.py:307-309 | one present element is kept as itself; `None` is dropped |
| Common.GatherAll | ksc/collector/github/collector.py:308-320 | `asyncio.gather`: succeeds exactly when every outcome succeeds, with the values in position order; otherwise fails with one of the outcomes' errors |
| Common.GatherAppend | ksc/collector/github/collector.py:308-320 | gathering two successful lists of outcomes gives the first list's values followed by the second's |
| Common.Collected | ksc/collector/github/collector.py:306-321 | succeeds exactly when every repository's outcome does; keeps at most one record per outcome; every kept record is one of the outcomes; every present outcome is kept; with `CollectedAppend` and `CollectedOne`, the records come in repository order with repeats kept |
| Common.CollectedAppend | ksc/collector/github/collector.py:306-321 | the contributions of two successful lists of outcomes are those of the first followed by those of the second |
| Common.CollectedOne | ksc/collector/github/collector.py:306-321 | one outcome gives its error, or its contribution, or nothing when it is `None` |
| Common.CollectedTwice | ksc/collector/github/collector.py:306-321 | the same record listed twice is reported twice (no de-duplication) |
| Utils.StripLeft | ksc/utils.py:7 | `lstrip`: a suffix of the text that does not start with white space, and only white space is removed |
| Utils.StripRight | ksc/utils.py:7 | `rstrip`: a prefix of the text that does not end with white space, and only white space is removed |
| Utils.Strip | ksc/utils.py:7 | `strip`: no longer than the text, and it neither starts nor ends with white space |
| Utils.StripLeftSkipsSpace | ksc/utils.py:7 | white space in front of a text makes no difference to `lstrip` |
| Utils.StripRightSkipsSpace | ksc/utils.py:7 | white space after a text makes no difference to `rstrip` |
| Utils.StripPadded | ksc/utils.py:7 | stripping removes exactly the white space around a text whose ends are not white space |
| Utils.SplitOn | ksc/utils.py:7 | `split(',')`: at least one piece, and no piece contains the separator |
| Utils.JoinSplit | ksc/utils.py:7 | joining the pieces with the separator gives the text back |
| Utils.SplitNoSeparator | ksc/utils.py:7 | a text without the separator is one piece |
| Utils.SplitAfterPiece | ksc/utils.py:7 | a separator-free piece followed by the separator is the first piece, whatever follows |
| Utils.SkipSpace | ksc/utils.py:9 | `\s*` stops at the end of the text or at the first character that is not white space |
| Utils.SkipSpaceTakesSpace | ksc/utils.py:9 | everything `\s*` takes is white space |
| Utils.QuoteEnd | ksc/utils.py:9 | the greedy `(?P<rel>.*)"`: where it ends, a quote follows and the group has no newline |
| Utils.QuoteEndGreedy | ksc/utils.py:9 | no later quote could have ended the rel group |
| Utils.TailAt | ksc/utils.py:9 | the part of the pattern after the url group, when it matches, starts with `>;` and its rel group has no newline |
| Utils.UrlEnd | ksc/utils.py:9 | the greedy `<(?P<url>.*)`: where the url group ends, the rest of the pattern matches |
| Utils.UrlEndGreedy | ksc/utils.py:9 | the rest of the pattern matches at no later end of the url group |
| Utils.MatchLink | ksc/utils.py:9-11 | `re.match`: a match starts with `<`, its url is the text right after it, and neither group holds a newline |
| Utils.StripAll | ksc/utils.py:7 | one entry per piece, and entry i is piece i stripped |
| Utils.Entries | ksc/utils.py:7 | entry i of the header is its i-th comma-separated piece, stripped |
| Utils.AddRelations | ksc/utils.py:10-12 | the loop over the entries gives what `AddLinks` specifies: each match sets `rels[rel] = url`, and a non-matching entry fails |
| Utils.ParseLinkHeader | ksc/utils.py:5-13 | `parse_link_header` gives `LinkRels(header)`: the map of the stripped entries, or the error of one that does not match |
| Utils.AddLinks | ksc/utils.py:10-12 | fails only with `MalformedLinkHeader`; every relation given stays a key, and every value is either a given relation's or the url of a matching entry with that rel |
| Utils.LinkRels | ksc/utils.py:5-13 | fails only with `MalformedLinkHeader`; every relation of the result is the url and rel of one entry that matches |
| Utils.EmptyHeaderHasNoLink | ksc/utils.py:17-18 | an empty header gives "no link" without parsing (parsing it would fail) |
| Utils.AddLinksFails | ksc/utils.py:10-12 | the loop fails exactly when some entry does not match, and then with `MalformedLinkHeader` |
| Utils.LinkRelsFailsIffMalformed | ksc/utils.py:11 | parsing a header fails exactly when one of its stripped entries does not match the pattern |
| Utils.MatchEntry | ksc/utils.py:9 | `<u>;` followed by any white space and `rel="r"` matches with url `u` and rel `r` |
| Utils.MatchWellFormedEntry | ksc/utils.py:9 | a formatted relation matches as itself |
| Utils.EntriesOfFormatted | ksc/utils.py:7 | the entries of a formatted header are the texts of its relations |
| Utils.ParseFormatted | ksc/utils.py:5-13 | formatting relations as `<u>; rel="r"` joined by `, ` and parsing them back gives each relation, the last one of a name winning |
| Utils.FoldLinksUntouched | ksc/utils.py:12 | a relation name no entry carries stays as it was |
| Utils.FoldLinksLastWins | ksc/utils.py:12 | a later entry with the same relation name overwrites an earlier one |
| Utils.NextPreferred | ksc/utils.py:20-22 | `get_next_link` returns the `next` URL even when `last` is present |
| Utils.LastFallback | ksc/utils.py:22 | without `next`, `get_next_link` returns the `last` URL |
| Utils.NeitherNextNorLast | ksc/utils.py:22 | with neither `next` nor `last`, `get_next_link` returns "no link" |
| Utils.GetNextLink | ksc/utils.py:16-22 | fails exactly when a non-empty header does not parse; a link it gives is the value of a relation in the header; for a parsed header it gives a link exactly when `next` or `last` is present |
| Utils.CountFromAdds | ksc/utils.py:26 | the `reduce` that adds one per element ends at the start value plus the length |
| Utils.ILen | ksc/utils.py:25-26 | `ilen` is the number of elements |
| GitHub.APILimitRoundTrip | ksc/collector/github/github.py:7-13 | an API limit written as JSON is read back unchanged |
| GitHub.UserRoundTrip | ksc/collector/github/github.py:16-18 | a user written as JSON is read back unchanged |
| GitHub.RepoRoundTrip | ksc/collector/github/github.py:21-30 | a repository written as JSON is read back unchanged |
| GitHub.IssueRoundTrip | ksc/collector/github/github.py:33-34 | an issue written as JSON is read back unchanged |
| GitHub.BranchRoundTrip | ksc/collector/github/github.py:37-40 | a branch written as JSON is read back unchanged |
| GitHub.CommitRoundTrip | ksc/collector/github/github.py:66-67 | a commit written as JSON is read back unchanged |
| GitHub.DecodeAPILimitRate | ksc/collector/github/github.py:7-9 | a non-object is refused; an accepted rate carries the document's `limit` and `remaining` |
| GitHub.DecodeAPILimit | ksc/collector/github/github.py:12-13 | a non-object is refused; an accepted limit carries the decoded `rate` object |
| GitHub.DecodeUser | ksc/collector/github/github.py:16-18 | a non-object is refused; an accepted user carries the document's `login` and `repos_url` |
| GitHub.DecodeRepo | ksc/collector/github/github.py:21-30 | a non-object is refused; an accepted repository carries all seven of the document's fields |
| GitHub.DecodeIssue | ksc/collector/github/github.py:33-34 | a non-object is refused; an accepted issue carries the document's `comments` |
| GitHub.DecodeBranch | ksc/collector/github/github.py:37-40 | a non-object is refused; an accepted branch carries `ref`, `label` and the decoded `user` |
| GitHub.DecodePullRequest | ksc/collector/github/github.py:43-54 | a non-object is refused; an accepted pull request carries each required field as the document gives it and each optional one as present or absent there |
| GitHub.DecodeCommit | ksc/collector/github/github.py:66-67 | a non-object is refused; an accepted commit carries the document's `message` |
| GitHub.RequiredFieldsRead | ksc/collector/github/github.py:44-52 | the required fields of a pull request read back as written, whatever other keys are present |
| GitHub.OptionalFieldsRead | ksc/collector/github/github.py:43-54 | the optional fields read back as written, with null standing for absent |
| GitHub.PullRequestRoundTrip | ksc/collector/github/github.py:43-54 | a pull request written as JSON is read back unchanged |
| GitHub.PullRequestNeedsRequired | ksc/collector/github/github.py:44-52 | a pull request that lacks any of `state`, `user`, `head`, `base`, `author_association`, `created_at`, `updated_at` is refused |
| GitHub.PullRequestOptionalDefaults | ksc/collector/github/github.py:43-54 | with only the required fields, the pull request is read with `assignee`, `closed_at` and `merged_at` absent |
| GitHub.OptionalFieldsAbsent | ksc/collector/github/github.py:43-54 | a missing optional field reads as absent |
| GitHub.RepoNeedsAll | ksc/collector/github/github.py:21-30 | a repository that lacks any of its seven fields is refused |
| GitHub.BranchNeedsAll | ksc/collector/github/github.py:37-40 | a branch that lacks `ref`, `label` or `user` is refused |
| GitHub.UserIgnoresExtraKeys | ksc/collector/github/github.py:16-18 | keys a record does not declare are ignored |
| GitHub.Lower | ksc/collector/github/github.py:58 | `lower()` keeps the length |
| GitHub.LowerAt | ksc/collector/github/github.py:58 | `lower()` works character by character |
| GitHub.LowerIffSpells | ksc/collector/github/github.py:58 | a text lowers to a lower-case word exactly when it spells that word with each letter in either case |
| GitHub.IsAuthoredBy | ksc/collector/github/github.py:56-63 | a pull request is authored only by its own login |
| GitHub.AuthoredIff | ksc/collector/github/github.py:56-63 | `is_authored_by(a)` holds exactly when the login is `a` and the association spells `owner` or `contributor` in any mix of cases |
| GitHub.OwnerInCapitals | ksc/collector/github/github.py:58-61 | `OWNER` is accepted |
| GitHub.AssociationCaseIgnored | ksc/collector/github/github.py:58 | only the lower-cased association matters |
| GitHub.OtherLoginNotAuthor | ksc/collector/github/github.py:62-63 | another login is never the author, whatever the association |
| GitHub.OtherAssociationsRejected | ksc/collector/github/github.py:57-61 | `none`, `member` and `collaborator`, in either case, are rejected even for the right login |
| CollectorModel.MakeStat | ksc/collector/model/collector.py:17-19 | the stat is built exactly when both `open` and `merged` are given, with their values; otherwise it is refused |
| Collector.RaiseForLimit | ksc/collector/github/collector.py:332-335 | fails exactly when the status is 403 and the header is present and 0 |
| Collector.MissingHeaderNeverLimits | ksc/collector/github/collector.py:333 | a response without the header (read as -1) never trips the limit |
| Collector.FetchOne | ksc/collector/github/collector.py:203-214 | succeeds exactly when the request is answered, the limit check passes and the model accepts the body, with the decoded value; a 403 with 0 left is `RateLimitExceeded` |
| Collector.FetchServedUser | ksc/collector/github/collector.py:203-214 | a user served as its JSON object is fetched unchanged |
| Collector.Decoded | ksc/collector/github/collector.py:237-257 | the accepted records of a list, front to back, are no more than its items |
| Collector.DecodedAppend | ksc/collector/github/collector.py:251-257 | the records of two lists of items are those of each, in order |
| Collector.DecodedOne | ksc/collector/github/collector.py:251-257 | one item gives its record when the model accepts it and nothing otherwise |
| Collector.DecodedAll | ksc/collector/github/collector.py:251-257 | when every item is accepted, every record is kept, in order |
| Collector.BadRecordDropped | ksc/collector/github/collector.py:237-257 | a record the model refuses is dropped and the records around it are kept |
| Collector.PageRecords | ksc/collector/github/collector.py:246-263 | a 409 or a body that is not a list gives no records; a list gives its accepted records |
| Collector.PrependTwice | ksc/collector/github/collector.py:255-257 | appending to the accumulator page by page is appending the pages' records together |
| Collector.Listing | ksc/collector/github/collector.py:217-274 | a finished listing was answered, passed the limit check and had a readable link header on its first page, and starts with that page's records; a first page over the limit fails it |
| Collector.NextPage | ksc/collector/github/collector.py:265-266 | a page is followed exactly when the reader finds a non-empty link, and then to that link; an unreadable header is an error |
| Collector.ListingLastPage | ksc/collector/github/collector.py:265-274 | a page with no next link ends the listing with its own records |
| Collector.ListingNextPage | ksc/collector/github/collector.py:265-273 | a page with a next link gives its records followed by the listing of the next page, with the same query parameters |
| Collector.ListingFollows | ksc/collector/github/collector.py:265-273 | the recursive call with the records gathered so far gives the listing from this page, after those records |
| Collector.AppendPage | ksc/collector/github/collector.py:246-263 | the loop appends exactly the page's records to the accumulator |
| Collector.FetchList | ksc/collector/github/collector.py:217-274 | `fetch_list(…, data)` gives `data` followed by the records of every page reached from the request, or the error that stopped it |
| Collector.ChainedTail | ksc/collector/github/collector.py:265-273 | the pages after the first of a linked chain are a linked chain |
| Collector.ListingOfChain | ksc/collector/github/collector.py:217-274 | a chain of linked pages whose last one links nowhere is listed whole, page by page, in order |
| Collector.ChainOverBudget | ksc/collector/github/collector.py:265-273 | a chain of linked pages longer than the budget exhausts it |
| Collector.SelfLinkExhausts | ksc/collector/github/collector.py:265-273 | a page linking to itself is fetched until the budget runs out |
| Collector.LimitOnLaterPage | ksc/collector/github/collector.py:233-235 | a page over the limit anywhere in a chain fails the whole listing, losing the records before it |
| Collector.EmptyRepoFollowsLink | ksc/collector/github/collector.py:246-247 | a 409 page adds no records, but its link is still followed |
| Collector.FollowsNextRelation | ksc/collector/github/collector.py:265 | with `get_next_link`, a page whose header carries a `next` relation is followed to that URL |
| Collector.LaterCutoffCountsFewer | ksc/collector/github/collector.py:71-79 | a later cutoff never counts more pull requests as opened, nor as merged |
| Collector.Aggregate | ksc/collector/github/collector.py:145-192 | a contribution carries the full name, or its hash when private; the repository's fork and private flags; authored pull-request counts at most the totals |
| Collector.ActiveIff | ksc/collector/github/collector.py:139-145 | the all-zero check passes exactly when one of the six lengths is positive |
| Collector.IdleSkipped | ksc/collector/github/collector.py:71-150 | no contribution exactly when there are no commits or issues, no pull request opened since `since`, and none merged (or closed unmerged) since `since` |
| Collector.ContributionCounts | ksc/collector/github/collector.py:152-163 | the counts are the four list lengths, the pull requests opened and merged since `since`, and of those the ones `is_authored_by` accepts |
| Collector.AggregateAsWritten | ksc/collector/github/collector.py:187-190 | the contribution as the code builds it, with `marged=`; a built one carries the repository's name |
| Collector.MargedRejected | ksc/collector/github/collector.py:187-190 | as written, every repository with activity fails validation; idle ones give no contribution |
| Collector.FetchContributions | ksc/collector/github/collector.py:64-192 | succeeds exactly when all six listings succeed, and then gives `Aggregate` of the six listings, each in its own slot; a contribution carries the repository's name, hashed when private |
| Collector.Outcomes | ksc/collector/github/collector.py:308-320 | one `fetch_contributions` per repository, in order |
| Collector.Main | ksc/collector/github/collector.py:277-329 | a finished run passed the limit check with a non-zero budget, fetched the user, reports the user's login, and spans `lastRun` to `today` |
| Collector.Run | ksc/collector/github/collector.py:277-329 | `main` with links read by `get_next_link`: a finished run passed the limit check with a non-zero budget, fetched the user, reports the user's login and spans `lastRun` to `today` |
| Collector.NoLimitAborts | ksc/collector/github/collector.py:289-292 | a budget of zero ends the run before the user is fetched |
| Collector.MainCollects | ksc/collector/github/collector.py:296-329 | past the limit, the user and both repository listings, the run reports the contributions of the own repositories followed by the private ones |
| Collector.OutcomesAppend | ksc/collector/github/collector.py:297-321 | the outcomes of two repository lists are those of the first followed by those of the second |
| Collector.OwnedBeforePrivate | ksc/collector/github/collector.py:297-321 | the contributions of own repositories followed by private ones are those of the own repositories, then those of the private ones |
| Collector.ListedTwiceCountedTwice | ksc/collector/github/collector.py:297-321 | a repository listed both as own and as private is reported twice |
| Collector.FailingRepoFailsRun | ksc/collector/github/collector.py:306-321 | one repository whose listings fail makes the whole run fail |
| LegacyCollector.LegacyRaiseForLimit | ksc/collector/github.py:280-283 | fails exactly when the header is missing, or the status is 403 with 0 left |
| LegacyCollector.LimitChecksAgree | ksc/collector/github.py:280-283 | with the header present, both collectors' limit checks agree |
| LegacyCollector.Construct | ksc/collector/github.py:224-226 | `model(**d)` succeeds exactly when `d` is a mapping the model accepts |
| LegacyCollector.LegacyFetchOne | ksc/collector/github.py:179-194 | succeeds exactly when the request is answered, the limit check passes and the body is a mapping the model accepts |
| LegacyCollector.FetchOneAgrees | ksc/collector/github.py:179-194 | with the header present, both collectors fetch one record alike |
| LegacyCollector.ConstructAll | ksc/collector/github.py:224-226 | the comprehension succeeds exactly when every item is accepted, giving one record per item in order |
| LegacyCollector.LegacyPageRecords | ksc/collector/github.py:221-226 | a 409 gives no records; a list is built item by item; null, a boolean or a number cannot be iterated |
| LegacyCollector.LegacyListing | ksc/collector/github.py:197-233 | a finished listing was answered, passed the older limit check and had a readable link header on its first page, and starts with that page's records |
| LegacyCollector.ExtendPage | ksc/collector/github.py:221-226 | the loop over one page's items extends `data` with exactly the page's records, or fails at the first item the model refuses |
| LegacyCollector.LegacyFetchList | ksc/collector/github.py:197-233 | `fetch_list(…, data)` gives `data` followed by the records of every page reached, or the error that stopped it |
| LegacyCollector.CleanPageAgrees | ksc/collector/github.py:221-226 | on a page with the header and only acceptable records, both collectors keep the same records |
| LegacyCollector.ListingsAgree | ksc/collector/github.py:197-233 | where every response is such a page, both collectors' listings give the same result |
| LegacyCollector.BadRecordAborts | ksc/collector/github.py:224-226 | one item the model refuses fails the whole listing |
| LegacyCollector.MissingHeaderAborts | ksc/collector/github.py:280-283 | a page without the rate-limit header fails the listing |
| LegacyCollector.PrAuthorIsAuthoredBy | ksc/collector/github.py:56-58 | `pr_author` accepts exactly the pull requests `is_authored_by` accepts |
| LegacyCollector.LegacyMergedSince | ksc/collector/github.py:63-67 | returns `None` exactly when the pull request was neither merged nor closed |
| LegacyCollector.MergedFiltersAgree | ksc/collector/github.py:63-67 | `None` is falsy, so the older filter keeps what the newer one keeps |
| LegacyCollector.LegacyAggregate | ksc/collector/github.py:141-166 | the dictionary carries the platform, `from` as `since`, and `until` |
| LegacyCollector.AggregatesAgree | ksc/collector/github.py:106-168 | the older dictionary is the newer contribution with the platform and the window added, and both skip the same repositories |
| LegacyCollector.LegacyFetchContributions | ksc/collector/github.py:52-168 | succeeds exactly when all six listings succeed, and then gives `LegacyAggregate` of the six listings, each in its own slot; a contribution carries the window it was asked for |
| LegacyCollector.LegacyOutcomes | ksc/collector/github.py:261-268 | one `fetch_contributions` per repository, in order |
| LegacyCollector.LegacyMain | ksc/collector/github.py:236-277 | a finished run passed the limit check with a non-zero budget and spans the given window |
| LegacyCollector.LimitHeaderRequired | ksc/collector/github.py:243-245 | a rate-limit response without the header ends the run |
| LegacyCollector.LegacyNoLimitAborts | ksc/collector/github.py:245-249 | a budget of zero ends the run before the user is fetched |
| LegacyCollector.Collect | ksc/collector/github.py:286-297 | a finished run spans the explicit window where given, else last run to today |

## Left out

- I/O: HTTP sessions, authentication headers, `async_timeout` and its 360-second timeout. A request that does not complete is a request missing from the `Server`.
- Concurrency: `asyncio.gather` runs its tasks at once and raises the error of whichever fails first in time. The model fails with the first error in position order.
- JSON parsing of the body: the body is given as a `Json` value, and malformed JSON is not modelled.
- A non-numeric `X-RateLimit-Remaining` (a `ValueError` in `int(...)`) is not modelled; the header is an optional integer.
- pydantic coercion is not modelled. A field of the wrong JSON type is refused rather than converted (a numeric string for an `int`, say). `datetime` fields are integers.
- `lower()` is modelled on ASCII letters only.
- `took_ms` (wall-clock time) is not part of the result records; `CollectorResult` holds the other fields.
- `isoformat`, SHA-256, `datetime.today()` and URI template expansion are parameters, not definitions.
- The `const` module, which defines the platform constant of the older collector, is not part of this model; the platform is a parameter.
- LegacyMain: `ksc/collector/base.py` defines no `CollectorResult`, so the return annotations at ksc/collector/github.py:239 and 290 raise `AttributeError` as soon as the module is loaded, and the construction at line 271 would too. The model returns the `LegacyResult` evidently intended instead of modelling that failure.
- The older collector's own records (`ksc/collector/model/github.py`, jsonmodels) are not part of this model. Those records have no pull-request timestamps and a nullable `user`, so `filter_pr_open_since`, `filter_pr_merged_since` and `pr_author` would fail on attribute access there. They also build without checking required fields. The model gives the older collector the newer records and decoders.
- The page budget: a listing longer than `fuel` pages ends with `PageBudgetExhausted`, which the collector does not have; it would follow links without end.
- `fetch_list` adds `per_page` to the caller's own `params` dictionary, and the next page is requested with the same dictionary. The model puts `per_page` in each request's parameters and keeps them for the next page. The sharing of that dictionary between calls is not modelled, since every caller passes a fresh one.
- FetchList, LegacyFetchList, ExtendPage: in the source, `data` is one list that each page extends in place and hands down the recursion, and `params` is one dictionary that each call updates in place. The model passes both as values, so the sharing of that list and dictionary between calls (aliasing) is not captured. The page walk stays recursive, as in the source (ksc/collector/github.py:228-233, ksc/collector/github/collector.py:265-274). The per-item loops are methods (`AppendPage`, `ExtendPage`) proved against `PageRecords` and `LegacyPageRecords`.
- The in-place overwrite of `contributions[4]` and `contributions[5]` is modelled on values: the filtered lists are computed, not stored back.
- `GithubCollector.collect` of the newer collector, which passes `self.since` as the last run, is not modelled.
- `fetch_repos`, `fetch_user` and `fetch_api_limit` (ksc/collector/github/collector.py:48-61,195-200) are `FetchList`/`Listing` and `FetchOne` applied to fixed URLs; `Main` and `LegacyMain` apply them inline rather than through members of their own.
- `Collector.Aggregate`: the precise counts and the "no contribution exactly when idle" property are stated by the lemmas `ContributionCounts` and `IdleSkipped`, not in the function's own contract.

## Findings

| source | as written | input that shows it | evidently intended | confidence | as-written member | corrected member |
|---|---|---|---|---|---|---|
| ksc/collector/github/collector.py:189 | the authored pull-request stat is built with `open=` and `marged=`; `PullRequestCountStat` declares `merged` as required, and pydantic ignores the undeclared `marged`, so validation fails | any repository with at least one commit, issue or pull request since the last run: `MargedRejected` shows the result is `Err(ValidationFailed)` whenever `Aggregate` gives a contribution | `merged=` with the count of authored pull requests merged (or closed) since the last run, as on lines 161-163 | not executed | Collector.AggregateAsWritten | Collector.Aggregate |

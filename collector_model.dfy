/** The records a collection run produces (ksc/collector/model/collector.py). */
module CollectorModel {
  import opened Common

  datatype CommitsCount = CommitsCount(total: int, authored: int)
  datatype IssuesCount = IssuesCount(total: int, authored: int)
  datatype PullRequestCountStat = PullRequestCountStat(open: int, merged: int)
  datatype PullRequestCount = PullRequestCount(total: PullRequestCountStat, authored: PullRequestCountStat)

  /** What one repository contributed since the last run. */
  datatype Contribution = Contribution(
    repo: string,
    is_fork: bool,
    is_private: bool,
    commits_count: CommitsCount,
    issues_count: IssuesCount,
    pull_request_count: PullRequestCount)

  /** The outcome of a run; `since` and `until` are timestamps. */
  datatype CollectorResult = CollectorResult(
    user: string,
    since: int,
    until: int,
    contributions: seq<Contribution>)

  /** `PullRequestCountStat(**kwargs)`: both declared fields are required,
      keys the record does not declare are ignored. */
  function MakeStat(kwargs: map<string, int>): (r: Result<PullRequestCountStat>)
    ensures r.Ok? <==> "open" in kwargs && "merged" in kwargs
    ensures r.Ok? ==> r.value.open == kwargs["open"] && r.value.merged == kwargs["merged"]
    ensures r.Err? ==> r.error == ValidationFailed
  {
    if "open" in kwargs && "merged" in kwargs then Ok(PullRequestCountStat(kwargs["open"], kwargs["merged"]))
    else Err(ValidationFailed)
  }
}

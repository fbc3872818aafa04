/** The records the GitHub API returns (ksc/collector/github/github.py), the
    JSON they are read from, and the authorship test on pull requests.
    Timestamps are whole numbers (seconds), since the collector only compares
    them with `>=`. */
module GitHub {
  import opened Common

  /** A decoded JSON document. Timestamps arrive as `JInt`. */
  datatype Json =
    | JNull
    | JBool(b: bool)
    | JInt(i: int)
    | JString(s: string)
    | JArray(items: seq<Json>)
    | JObject(fields: map<string, Json>)

  datatype APILimitRate = APILimitRate(limit: int, remaining: int)
  datatype APILimit = APILimit(rate: APILimitRate)
  datatype User = User(login: string, repos_url: string)
  datatype Repo = Repo(name: string, full_name: string,
                       commits_url: string, pulls_url: string, issues_url: string,
                       private: bool, fork: bool)
  datatype Issue = Issue(comments: int)
  /** A branch end of a pull request; the record's `label` field is `branchLabel` here. */
  datatype Branch = Branch(ref: string, branchLabel: string, user: User)
  datatype PullRequest = PullRequest(
    state: string,
    user: User,
    assignee: Option<User>,
    head: Branch,
    base: Branch,
    author_association: string,
    created_at: int,
    updated_at: int,
    closed_at: Option<int>,
    merged_at: Option<int>)
  datatype Commit = Commit(message: string)

  // ---------------------------------------------------------------------------
  // Reading fields: a required field must be present with the right type; an
  // optional one may be absent or null, and then reads as None.
  // ---------------------------------------------------------------------------

  function Str(o: map<string, Json>, k: string): Option<string>
  {
    if k in o && o[k].JString? then Some(o[k].s) else None
  }

  function Int(o: map<string, Json>, k: string): Option<int>
  {
    if k in o && o[k].JInt? then Some(o[k].i) else None
  }

  function Bool(o: map<string, Json>, k: string): Option<bool>
  {
    if k in o && o[k].JBool? then Some(o[k].b) else None
  }

  function Field(o: map<string, Json>, k: string): Option<Json>
  {
    if k in o then Some(o[k]) else None
  }

  /** An optional field: absent or null gives `Some(None)`, a value that does not decode gives `None`. */
  function Optional<T>(o: map<string, Json>, k: string, decode: Json -> Option<T>): Option<Option<T>>
  {
    if k !in o || o[k] == JNull then Some(None)
    else match decode(o[k])
      case None => None
      case Some(v) => Some(Some(v))
  }

  function OptInt(j: Json): Option<int>
  {
    if j.JInt? then Some(j.i) else None
  }

  // ---------------------------------------------------------------------------
  // `Model.parse_obj`: a document that is not an object, lacks a required
  // field or has a field of the wrong type is refused; other keys are ignored.
  // ---------------------------------------------------------------------------

  function DecodeAPILimitRate(j: Json): (r: Option<APILimitRate>)
    ensures !j.JObject? ==> r.None?
    ensures r.Some? ==> Int(j.fields, "limit") == Some(r.value.limit) && Int(j.fields, "remaining") == Some(r.value.remaining)
  {
    if !j.JObject? then None
    else
      var limit :- Int(j.fields, "limit");
      var remaining :- Int(j.fields, "remaining");
      Some(APILimitRate(limit, remaining))
  }

  function DecodeAPILimit(j: Json): (r: Option<APILimit>)
    ensures !j.JObject? ==> r.None?
    ensures r.Some? ==> "rate" in j.fields && DecodeAPILimitRate(j.fields["rate"]) == Some(r.value.rate)
  {
    if !j.JObject? then None
    else
      var rate :- Field(j.fields, "rate");
      var r :- DecodeAPILimitRate(rate);
      Some(APILimit(r))
  }

  function DecodeUser(j: Json): (r: Option<User>)
    ensures !j.JObject? ==> r.None?
    ensures r.Some? ==> Str(j.fields, "login") == Some(r.value.login) && Str(j.fields, "repos_url") == Some(r.value.repos_url)
  {
    if !j.JObject? then None
    else
      var login :- Str(j.fields, "login");
      var repos_url :- Str(j.fields, "repos_url");
      Some(User(login, repos_url))
  }

  function DecodeRepo(j: Json): (r: Option<Repo>)
    ensures !j.JObject? ==> r.None?
    ensures r.Some? ==>
      && Str(j.fields, "name") == Some(r.value.name) && Str(j.fields, "full_name") == Some(r.value.full_name)
      && Str(j.fields, "commits_url") == Some(r.value.commits_url) && Str(j.fields, "pulls_url") == Some(r.value.pulls_url)
      && Str(j.fields, "issues_url") == Some(r.value.issues_url)
      && Bool(j.fields, "private") == Some(r.value.private) && Bool(j.fields, "fork") == Some(r.value.fork)
  {
    if !j.JObject? then None
    else
      var o := j.fields;
      var name :- Str(o, "name");
      var full_name :- Str(o, "full_name");
      var commits_url :- Str(o, "commits_url");
      var pulls_url :- Str(o, "pulls_url");
      var issues_url :- Str(o, "issues_url");
      var private :- Bool(o, "private");
      var fork :- Bool(o, "fork");
      Some(Repo(name, full_name, commits_url, pulls_url, issues_url, private, fork))
  }

  function DecodeIssue(j: Json): (r: Option<Issue>)
    ensures !j.JObject? ==> r.None?
    ensures r.Some? ==> Int(j.fields, "comments") == Some(r.value.comments)
  {
    if !j.JObject? then None
    else
      var comments :- Int(j.fields, "comments");
      Some(Issue(comments))
  }

  function DecodeBranch(j: Json): (r: Option<Branch>)
    ensures !j.JObject? ==> r.None?
    ensures r.Some? ==> Str(j.fields, "ref") == Some(r.value.ref) && Str(j.fields, "label") == Some(r.value.branchLabel)
                        && "user" in j.fields && DecodeUser(j.fields["user"]) == Some(r.value.user)
  {
    if !j.JObject? then None
    else
      var ref :- Str(j.fields, "ref");
      var lbl :- Str(j.fields, "label");
      var u :- Field(j.fields, "user");
      var user :- DecodeUser(u);
      Some(Branch(ref, lbl, user))
  }

  function DecodePullRequest(j: Json): (r: Option<PullRequest>)
    ensures !j.JObject? ==> r.None?
    ensures r.Some? ==>
      && Str(j.fields, "state") == Some(r.value.state)
      && "user" in j.fields && DecodeUser(j.fields["user"]) == Some(r.value.user)
      && Optional(j.fields, "assignee", DecodeUser) == Some(r.value.assignee)
      && "head" in j.fields && DecodeBranch(j.fields["head"]) == Some(r.value.head)
      && "base" in j.fields && DecodeBranch(j.fields["base"]) == Some(r.value.base)
      && Str(j.fields, "author_association") == Some(r.value.author_association)
      && Int(j.fields, "created_at") == Some(r.value.created_at) && Int(j.fields, "updated_at") == Some(r.value.updated_at)
      && Optional(j.fields, "closed_at", OptInt) == Some(r.value.closed_at)
      && Optional(j.fields, "merged_at", OptInt) == Some(r.value.merged_at)
  {
    if !j.JObject? then None
    else
      var o := j.fields;
      var state :- Str(o, "state");
      var u :- Field(o, "user");
      var user :- DecodeUser(u);
      var assignee :- Optional(o, "assignee", DecodeUser);
      var h :- Field(o, "head");
      var head :- DecodeBranch(h);
      var b :- Field(o, "base");
      var base :- DecodeBranch(b);
      var association :- Str(o, "author_association");
      var created_at :- Int(o, "created_at");
      var updated_at :- Int(o, "updated_at");
      var closed_at :- Optional(o, "closed_at", OptInt);
      var merged_at :- Optional(o, "merged_at", OptInt);
      Some(PullRequest(state, user, assignee, head, base, association,
                       created_at, updated_at, closed_at, merged_at))
  }

  function DecodeCommit(j: Json): (r: Option<Commit>)
    ensures !j.JObject? ==> r.None?
    ensures r.Some? ==> Str(j.fields, "message") == Some(r.value.message)
  {
    if !j.JObject? then None
    else
      var message :- Str(j.fields, "message");
      Some(Commit(message))
  }

  // ---------------------------------------------------------------------------
  // Writing records back as the API sends them (`Model.dict()` as JSON); an
  // absent optional field is written as null.
  // ---------------------------------------------------------------------------

  function EncodeAPILimit(l: APILimit): Json
  {
    JObject(map["rate" := JObject(map["limit" := JInt(l.rate.limit), "remaining" := JInt(l.rate.remaining)])])
  }

  function EncodeUser(u: User): Json
  {
    JObject(map["login" := JString(u.login), "repos_url" := JString(u.repos_url)])
  }

  function EncodeRepo(r: Repo): Json
  {
    JObject(map["name" := JString(r.name), "full_name" := JString(r.full_name),
                "commits_url" := JString(r.commits_url), "pulls_url" := JString(r.pulls_url),
                "issues_url" := JString(r.issues_url),
                "private" := JBool(r.private), "fork" := JBool(r.fork)])
  }

  function EncodeIssue(i: Issue): Json
  {
    JObject(map["comments" := JInt(i.comments)])
  }

  function EncodeBranch(b: Branch): Json
  {
    JObject(map["ref" := JString(b.ref), "label" := JString(b.branchLabel), "user" := EncodeUser(b.user)])
  }

  function EncodeOptUser(u: Option<User>): Json
  {
    if u.Some? then EncodeUser(u.value) else JNull
  }

  function EncodeOptInt(t: Option<int>): Json
  {
    if t.Some? then JInt(t.value) else JNull
  }

  /** The fields every pull request carries. */
  function RequiredPullRequestFields(pr: PullRequest): map<string, Json>
  {
    map["state" := JString(pr.state), "user" := EncodeUser(pr.user),
        "head" := EncodeBranch(pr.head), "base" := EncodeBranch(pr.base),
        "author_association" := JString(pr.author_association),
        "created_at" := JInt(pr.created_at), "updated_at" := JInt(pr.updated_at)]
  }

  function PullRequestFields(pr: PullRequest): map<string, Json>
  {
    RequiredPullRequestFields(pr)["assignee" := EncodeOptUser(pr.assignee)]
      ["closed_at" := EncodeOptInt(pr.closed_at)]["merged_at" := EncodeOptInt(pr.merged_at)]
  }

  function EncodePullRequest(pr: PullRequest): Json
  {
    JObject(PullRequestFields(pr))
  }

  function EncodeCommit(c: Commit): Json
  {
    JObject(map["message" := JString(c.message)])
  }

  // ---------------------------------------------------------------------------
  // Round trips
  // ---------------------------------------------------------------------------

  lemma APILimitRoundTrip(l: APILimit)
    ensures DecodeAPILimit(EncodeAPILimit(l)) == Some(l)
  {
  }

  lemma UserRoundTrip(u: User)
    ensures DecodeUser(EncodeUser(u)) == Some(u)
  {
  }

  lemma RepoRoundTrip(r: Repo)
    ensures DecodeRepo(EncodeRepo(r)) == Some(r)
  {
  }

  lemma IssueRoundTrip(i: Issue)
    ensures DecodeIssue(EncodeIssue(i)) == Some(i)
  {
  }

  lemma BranchRoundTrip(b: Branch)
    ensures DecodeBranch(EncodeBranch(b)) == Some(b)
  {
    UserRoundTrip(b.user);
  }

  lemma CommitRoundTrip(c: Commit)
    ensures DecodeCommit(EncodeCommit(c)) == Some(c)
  {
  }

  /** The required fields read back as written, whatever optional fields are added. */
  lemma RequiredFieldsRead(pr: PullRequest, o: map<string, Json>)
    requires forall k :: k in RequiredPullRequestFields(pr) ==> k in o && o[k] == RequiredPullRequestFields(pr)[k]
    ensures Str(o, "state") == Some(pr.state) && Field(o, "user") == Some(EncodeUser(pr.user)) &&
            Field(o, "head") == Some(EncodeBranch(pr.head)) && Field(o, "base") == Some(EncodeBranch(pr.base)) &&
            Str(o, "author_association") == Some(pr.author_association) &&
            Int(o, "created_at") == Some(pr.created_at) && Int(o, "updated_at") == Some(pr.updated_at)
  {
    var req := RequiredPullRequestFields(pr);
    assert "state" in req && "user" in req && "head" in req && "base" in req;
    assert "author_association" in req && "created_at" in req && "updated_at" in req;
  }

  /** The optional fields of an encoded pull request read back as written, null standing for absent. */
  lemma OptionalFieldsRead(pr: PullRequest)
    ensures var o := PullRequestFields(pr);
            Optional(o, "assignee", DecodeUser) == Some(pr.assignee) &&
            Optional(o, "closed_at", OptInt) == Some(pr.closed_at) &&
            Optional(o, "merged_at", OptInt) == Some(pr.merged_at)
  {
    if pr.assignee.Some? {
      UserRoundTrip(pr.assignee.value);
    }
  }

  lemma PullRequestRoundTrip(pr: PullRequest)
    ensures DecodePullRequest(EncodePullRequest(pr)) == Some(pr)
  {
    var o := PullRequestFields(pr);
    assert forall k :: k in RequiredPullRequestFields(pr) ==> k in o && o[k] == RequiredPullRequestFields(pr)[k];
    RequiredFieldsRead(pr, o);
    OptionalFieldsRead(pr);
    UserRoundTrip(pr.user);
    BranchRoundTrip(pr.head);
    BranchRoundTrip(pr.base);
  }

  // ---------------------------------------------------------------------------
  // Required and optional fields
  // ---------------------------------------------------------------------------

  /** The keys a pull request cannot do without. */
  const PullRequestRequired: seq<string> :=
    ["state", "user", "head", "base", "author_association", "created_at", "updated_at"]

  /** The optional keys of a pull request. */
  const PullRequestOptional: seq<string> := ["assignee", "closed_at", "merged_at"]

  /** A pull request that lacks a required key is refused. */
  lemma PullRequestNeedsRequired(o: map<string, Json>, k: string)
    requires k in PullRequestRequired && k !in o
    ensures DecodePullRequest(JObject(o)) == None
  {
  }

  /** The optional keys may be left out: they default to absent. */
  lemma PullRequestOptionalDefaults(pr: PullRequest)
    ensures DecodePullRequest(JObject(RequiredPullRequestFields(pr)))
            == Some(pr.(assignee := None, closed_at := None, merged_at := None))
  {
    var o := RequiredPullRequestFields(pr);
    RequiredFieldsRead(pr, o);
    OptionalFieldsAbsent(pr);
    UserRoundTrip(pr.user);
    BranchRoundTrip(pr.head);
    BranchRoundTrip(pr.base);
  }

  lemma OptionalFieldsAbsent(pr: PullRequest)
    ensures var o := RequiredPullRequestFields(pr);
            Optional(o, "assignee", DecodeUser) == Some(None) &&
            Optional(o, "closed_at", OptInt) == Some(None) &&
            Optional(o, "merged_at", OptInt) == Some(None)
  {
    var o := RequiredPullRequestFields(pr);
    assert o.Keys == {"state", "user", "head", "base", "author_association", "created_at", "updated_at"};
  }

  /** A repository that lacks any of its seven fields is refused. */
  lemma RepoNeedsAll(o: map<string, Json>, k: string)
    requires k in ["name", "full_name", "commits_url", "pulls_url", "issues_url", "private", "fork"]
    requires k !in o
    ensures DecodeRepo(JObject(o)) == None
  {
  }

  /** A branch needs its `ref`, its `label` and an embedded user. */
  lemma BranchNeedsAll(o: map<string, Json>, k: string)
    requires k in ["ref", "label", "user"] && k !in o
    ensures DecodeBranch(JObject(o)) == None
  {
  }

  /** Keys the record does not declare do not matter. */
  lemma UserIgnoresExtraKeys(u: User, k: string, v: Json)
    requires k != "login" && k != "repos_url"
    ensures DecodeUser(JObject(EncodeUser(u).fields[k := v])) == Some(u)
  {
  }

  // ---------------------------------------------------------------------------
  // is_authored_by
  // ---------------------------------------------------------------------------

  /** `str.lower()` on one character, for the ASCII letters. */
  function LowerChar(c: char): char
  {
    if 'A' <= c <= 'Z' then (c as int + 32) as char else c
  }

  /** `str.lower()`, for the ASCII letters. */
  function Lower(s: string): (r: string)
    ensures |r| == |s|
  {
    if s == [] then [] else [LowerChar(s[0])] + Lower(s[1..])
  }

  /** Lowering works character by character. */
  lemma {:induction false} LowerAt(s: string, i: int)
    requires 0 <= i < |s|
    ensures Lower(s)[i] == LowerChar(s[i])
  {
    if i > 0 {
      LowerAt(s[1..], i - 1);
    }
  }

  /** `pr.is_authored_by(author)`: the author opened it and is its owner or a contributor. */
  predicate IsAuthoredBy(pr: PullRequest, author: string)
    ensures IsAuthoredBy(pr, author) ==> pr.user.login == author
  {
    if pr.user.login == author then Lower(pr.author_association) in ["owner", "contributor"]
    else false
  }

  /** `s` spells the lower-case word `w`, each letter in either case. */
  predicate SpellsIgnoringCase(s: string, w: string)
  {
    |s| == |w| && forall i :: 0 <= i < |s| ==> s[i] == w[i] || s[i] as int == w[i] as int - 32
  }

  predicate LowerWord(w: string)
  {
    forall i :: 0 <= i < |w| ==> 'a' <= w[i] <= 'z'
  }

  lemma LowerIffSpells(s: string, w: string)
    requires LowerWord(w)
    ensures Lower(s) == w <==> SpellsIgnoringCase(s, w)
  {
    if SpellsIgnoringCase(s, w) {
      forall i | 0 <= i < |s|
        ensures Lower(s)[i] == w[i]
      {
        LowerAt(s, i);
      }
    }
    if Lower(s) == w {
      forall i | 0 <= i < |s|
        ensures s[i] == w[i] || s[i] as int == w[i] as int - 32
      {
        LowerAt(s, i);
      }
    }
  }

  /** Authorship holds exactly when the login matches and the association spells
      `owner` or `contributor` in any mix of cases. */
  lemma AuthoredIff(pr: PullRequest, author: string)
    ensures IsAuthoredBy(pr, author) <==>
              pr.user.login == author &&
              (SpellsIgnoringCase(pr.author_association, "owner") ||
               SpellsIgnoringCase(pr.author_association, "contributor"))
  {
    LowerIffSpells(pr.author_association, "owner");
    LowerIffSpells(pr.author_association, "contributor");
  }

  /** `OWNER` is accepted. */
  lemma OwnerInCapitals(pr: PullRequest)
    requires pr.author_association == "OWNER"
    ensures IsAuthoredBy(pr, pr.user.login)
  {
    AuthoredIff(pr, pr.user.login);
    assert SpellsIgnoringCase("OWNER", "owner");
  }

  /** Only the lower-cased association matters: two spellings that lower to
      the same word give the same answer. */
  lemma AssociationCaseIgnored(pr: PullRequest, author: string, assoc: string)
    requires Lower(assoc) == Lower(pr.author_association)
    ensures IsAuthoredBy(pr.(author_association := assoc), author) == IsAuthoredBy(pr, author)
  {
  }

  /** Another login is never the author, whatever the association. */
  lemma OtherLoginNotAuthor(pr: PullRequest, author: string)
    requires pr.user.login != author
    ensures !IsAuthoredBy(pr, author)
  {
  }

  /** Members, collaborators and outsiders are not counted as authors. */
  lemma OtherAssociationsRejected(pr: PullRequest)
    requires pr.author_association in ["NONE", "MEMBER", "COLLABORATOR", "none", "member", "collaborator"]
    ensures !IsAuthoredBy(pr, pr.user.login)
  {
    AuthoredIff(pr, pr.user.login);
  }
}

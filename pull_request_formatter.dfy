/**
  A model of GitHub-import's pull-request formatter: it turns one GitHub
  pull-request record into the attribute hash of a GitLab merge request.

  The collaborators the formatter only reads (repository storage, the
  user-id mapping, the milestone table, the author-line formatter) are
  fields of `Context`; the lazily memoized accessors live in `Formatter`.
*/
module PullRequestFormatter {
  import opened Optional

  // ---------------------------------------------------------------------------
  // Data model
  // ---------------------------------------------------------------------------

  /** A timestamp as the GitHub API delivers it; no date arithmetic is modelled. */
  datatype Timestamp = Timestamp(iso8601: string)

  /** The repository a pull-request side belongs to (`head.repo`, `base.repo`). */
  datatype Repository = Repository(id: int)

  /** One side of a pull request: `head` (source) or `base` (target). */
  datatype Side = Side(ref: string, sha: Option<string>, repo: Option<Repository>)

  datatype GithubUser = GithubUser(id: int, login: string)

  datatype GithubMilestone = GithubMilestone(number: int)

  /** The raw pull-request record, as read from the GitHub API. */
  datatype RawPullRequest = RawPullRequest(
    number: int,
    title: string,
    body: Option<string>,
    user: GithubUser,
    assignee: Option<GithubUser>,
    milestone: Option<GithubMilestone>,
    head: Side,
    base: Side,
    state: string,
    createdAt: Option<Timestamp>,
    updatedAt: Option<Timestamp>,
    mergedAt: Option<Timestamp>,
    closedAt: Option<Timestamp>)

  /** The GitLab project the pull request is imported into. */
  datatype Project = Project(id: int, creatorId: int)

  /** A milestone of the target project, found by its project-scoped `iid`. */
  datatype Milestone = Milestone(id: int, iid: int, title: string)

  /**
    What the formatter reads besides the raw record:
    `branchExists` is `project.repository.branch_exists?`,
    `glUserId` maps GitHub user ids to GitLab user ids,
    `findMilestone` is `project.milestones.find_by(iid: ...)`,
    `authorLine` is `formatter.author_line`.
  */
  datatype Context = Context(
    project: Project,
    branchExists: string -> bool,
    glUserId: map<int, int>,
    findMilestone: int -> Option<Milestone>,
    authorLine: string -> string)

  /** The derived merge-request state, with the timestamp that belongs to it. */
  datatype MergeRequestState = Opened | Closed | Merged {

    /** The state as the string stored in the attribute hash. */
    function Name(): string
    {
      match this
      case Opened => "opened"
      case Closed => "closed"
      case Merged => "merged"
    }

    /** The `updated_at` this state selects from the raw record. */
    function UpdatedAt(raw: RawPullRequest): Option<Timestamp>
    {
      match this
      case Merged => raw.mergedAt
      case Closed => raw.closedAt
      case Opened => raw.updatedAt
    }
  }

  /** The merge-request attribute hash the formatter produces. */
  datatype MergeRequestAttributes = MergeRequestAttributes(
    iid: int,
    title: string,
    description: string,
    sourceProject: Project,
    sourceBranch: string,
    headSourceSha: Option<string>,
    targetProject: Project,
    targetBranch: string,
    baseTargetSha: Option<string>,
    state: MergeRequestState,
    milestone: Option<Milestone>,
    authorId: int,
    assigneeId: Option<int>,
    createdAt: Option<Timestamp>,
    updatedAt: Option<Timestamp>)

  // ---------------------------------------------------------------------------
  // Cross-fork validity
  // ---------------------------------------------------------------------------

  /** `cross_project?`: both sides name a repository and the two differ. */
  predicate IsCrossProject(raw: RawPullRequest)
  {
    raw.head.repo.Some? && raw.base.repo.Some? && raw.head.repo.value.id != raw.base.repo.value.id
  }

  /** `valid?`: the record can be imported. */
  predicate IsValid(raw: RawPullRequest)
  {
    !IsCrossProject(raw)
  }

  /** The ids of the repositories the record names, on either side. */
  function RepositoryIds(raw: RawPullRequest): set<int>
  {
    (if raw.head.repo.Some? then {raw.head.repo.value.id} else {})
    + (if raw.base.repo.Some? then {raw.base.repo.value.id} else {})
  }

  /** A record is importable exactly when it names at most one repository. */
  lemma ValidIffAtMostOneRepository(raw: RawPullRequest)
    ensures IsValid(raw) <==> |RepositoryIds(raw)| <= 1
  {
    if raw.head.repo.Some? && raw.base.repo.Some? {
      var h, b := raw.head.repo.value.id, raw.base.repo.value.id;
      assert RepositoryIds(raw) == {h} + {b};
      if h != b {
        assert {h} + {b} == {h, b};
        assert |{h, b}| == 2;
      } else {
        assert {h} + {b} == {h};
      }
    } else if raw.head.repo.Some? {
      assert RepositoryIds(raw) == {raw.head.repo.value.id};
    } else if raw.base.repo.Some? {
      assert RepositoryIds(raw) == {raw.base.repo.value.id};
    } else {
      assert RepositoryIds(raw) == {};
    }
  }

  /** `valid?` in both directions: false exactly for two present, different repositories. */
  lemma ValidityCases(raw: RawPullRequest)
    ensures !IsValid(raw) <==>
              raw.head.repo.Some? && raw.base.repo.Some? && raw.head.repo.value.id != raw.base.repo.value.id
    ensures raw.head.repo.None? || raw.base.repo.None? ==> IsValid(raw)
    ensures raw.head.repo.Some? && raw.base.repo.Some? && raw.head.repo == raw.base.repo ==> IsValid(raw)
  {
  }

  // ---------------------------------------------------------------------------
  // Branch resolution
  // ---------------------------------------------------------------------------

  const DefaultShortIdLength := 7

  /** Ruby's `to_s` on a possibly nil string. */
  function ToS(s: Option<string>): string
  {
    s.GetOr("")
  }

  function Min(a: int, b: int): int { if a <= b then a else b }

  function Max(a: int, b: int): int { if a <= b then b else a }

  /**
    `short_id(sha, length)`, that is `sha.to_s[0..length]`: a Ruby inclusive
    range, so a non-negative `length` keeps `length + 1` characters, and a
    negative one counts the last index from the end of the string.
  */
  function ShortId(sha: Option<string>, length: int): (r: string)
    ensures |r| <= |ToS(sha)| && r == ToS(sha)[..|r|]
    ensures 0 <= length ==> |r| == Min(|ToS(sha)|, length + 1)
    ensures length < 0 ==> |r| == Max(0, |ToS(sha)| + length + 1)
  {
    var s := ToS(sha);
    var last := if length < 0 then |s| + length else length;
    var count := if last + 1 < 0 then 0 else if last + 1 > |s| then |s| else last + 1;
    s[..count]
  }

  /** With the default length the suffix has up to eight characters; a nil or empty sha gives "". */
  lemma DefaultShortIdBounds(sha: Option<string>)
    ensures |ShortId(sha, DefaultShortIdLength)| == Min(|ToS(sha)|, 8)
    ensures 8 <= |ToS(sha)| ==> ShortId(sha, DefaultShortIdLength) == ToS(sha)[..8]
    ensures sha.None? || sha == Some("") ==> ShortId(sha, DefaultShortIdLength) == ""
  {
  }

  /** The disambiguated name `"{ref}-{short_id(sha)}"` used when the ref no longer exists. */
  function SynthesizedBranch(side: Side): string
  {
    side.ref + "-" + ShortId(side.sha, DefaultShortIdLength)
  }

  /** The branch name a side resolves to, `source_branch` / `target_branch` without memoization. */
  function ResolveBranch(branchExists: string -> bool, side: Side): (r: string)
    ensures branchExists(side.ref) ==> r == side.ref
    ensures !branchExists(side.ref) ==>
              |r| == |side.ref| + 1 + |ShortId(side.sha, DefaultShortIdLength)|
              && r[..|side.ref|] == side.ref
              && r[|side.ref|] == '-'
              && r[|side.ref| + 1..] == ShortId(side.sha, DefaultShortIdLength)
  {
    if branchExists(side.ref) then side.ref else SynthesizedBranch(side)
  }

  /**
    Two shas of the same missing ref give the same synthesized name exactly
    when their short ids agree: the suffix is not lost in the concatenation.
  */
  lemma SynthesizedBranchCollisionIff(branchExists: string -> bool, s1: Side, s2: Side)
    requires s1.ref == s2.ref && !branchExists(s1.ref)
    ensures ResolveBranch(branchExists, s1) == ResolveBranch(branchExists, s2)
            <==> ShortId(s1.sha, DefaultShortIdLength) == ShortId(s2.sha, DefaultShortIdLength)
  {
    var n1, n2 := ResolveBranch(branchExists, s1), ResolveBranch(branchExists, s2);
    if n1 == n2 {
      assert n1[|s1.ref| + 1..] == n2[|s2.ref| + 1..];
    }
  }

  /**
    For dash-free shas (a git sha is hexadecimal), a synthesized name
    determines both the ref and the short id: the suffix starts after the
    last '-' of the name, so two missing refs never share a synthesized name.
  */
  lemma SynthesizedBranchDeterminesRefAndShortId(branchExists: string -> bool, s1: Side, s2: Side)
    requires !branchExists(s1.ref) && !branchExists(s2.ref)
    requires '-' !in ToS(s1.sha) && '-' !in ToS(s2.sha)
    ensures ResolveBranch(branchExists, s1) == ResolveBranch(branchExists, s2) <==>
              s1.ref == s2.ref && ShortId(s1.sha, DefaultShortIdLength) == ShortId(s2.sha, DefaultShortIdLength)
  {
    var n1, n2 := ResolveBranch(branchExists, s1), ResolveBranch(branchExists, s2);
    var p1, p2 := ShortId(s1.sha, DefaultShortIdLength), ShortId(s2.sha, DefaultShortIdLength);
    if n1 == n2 {
      if |s1.ref| < |s2.ref| {
        DashFreeSuffix(n1, s1.ref, p1, ToS(s1.sha), |s2.ref|);
      } else if |s2.ref| < |s1.ref| {
        DashFreeSuffix(n2, s2.ref, p2, ToS(s2.sha), |s1.ref|);
      }
      assert s1.ref == n1[..|s1.ref|] == n2[..|s2.ref|] == s2.ref;
      SynthesizedBranchCollisionIff(branchExists, s1, s2);
    }
  }

  /** In `ref + "-" + p` with `p` a prefix of a dash-free string, no '-' follows position `|ref|`. */
  lemma DashFreeSuffix(name: string, ref: string, p: string, sha: string, k: int)
    requires name == ref + "-" + p && |p| <= |sha| && p == sha[..|p|] && '-' !in sha
    requires |ref| < k < |name|
    ensures name[k] != '-'
  {
    assert name[k] == p[k - |ref| - 1] == sha[k - |ref| - 1];
  }

  /** The branch name depends on the repository only through whether that one ref exists. */
  lemma ResolveBranchDependsOnRefOnly(e1: string -> bool, e2: string -> bool, side: Side)
    requires e1(side.ref) == e2(side.ref)
    ensures ResolveBranch(e1, side) == ResolveBranch(e2, side)
  {
  }

  /** A missing ref with an absent or empty sha still resolves, to `ref + "-"`. */
  lemma MissingShaDegradesToDash(branchExists: string -> bool, side: Side)
    requires !branchExists(side.ref) && (side.sha.None? || side.sha == Some(""))
    ensures ResolveBranch(branchExists, side) == side.ref + "-"
  {
  }

  // ---------------------------------------------------------------------------
  // State and timestamp
  // ---------------------------------------------------------------------------

  /** `state`, first match wins: closed and merged, closed, otherwise opened. */
  function DeriveState(raw: RawPullRequest): (r: MergeRequestState)
    ensures r == Merged <==> raw.state == "closed" && raw.mergedAt.Some?
    ensures r == Closed <==> raw.state == "closed" && raw.mergedAt.None?
    ensures r == Opened <==> raw.state != "closed"
  {
    if raw.state == "closed" && raw.mergedAt.Some? then Merged
    else if raw.state == "closed" then Closed
    else Opened
  }

  /** `updated_at`: the timestamp that matches the derived state. */
  function UpdatedAtOf(raw: RawPullRequest): Option<Timestamp>
  {
    DeriveState(raw).UpdatedAt(raw)
  }

  /** `updated_at` in terms of the raw flags. */
  lemma UpdatedAtCases(raw: RawPullRequest)
    ensures raw.state == "closed" && raw.mergedAt.Some? ==> UpdatedAtOf(raw) == raw.mergedAt
    ensures raw.state == "closed" && raw.mergedAt.None? ==> UpdatedAtOf(raw) == raw.closedAt
    ensures raw.state != "closed" ==> UpdatedAtOf(raw) == raw.updatedAt
  {
  }

  /** An open record's `updated_at` ignores stray `merged_at` / `closed_at` values. */
  lemma OpenedIgnoresStrayTimestamps(raw: RawPullRequest, mergedAt: Option<Timestamp>, closedAt: Option<Timestamp>)
    requires raw.state != "closed"
    ensures DeriveState(raw.(mergedAt := mergedAt, closedAt := closedAt)) == Opened
    ensures UpdatedAtOf(raw.(mergedAt := mergedAt, closedAt := closedAt)) == UpdatedAtOf(raw)
  {
  }

  /** A closed record's `updated_at` never reads the raw `updated_at`. */
  lemma ClosedIgnoresRawUpdatedAt(raw: RawPullRequest, updatedAt: Option<Timestamp>)
    requires raw.state == "closed"
    ensures UpdatedAtOf(raw.(updatedAt := updatedAt)) == UpdatedAtOf(raw)
    ensures UpdatedAtOf(raw) == (if raw.mergedAt.Some? then raw.mergedAt else raw.closedAt)
  {
  }

  // ---------------------------------------------------------------------------
  // Identity, milestone and description
  // ---------------------------------------------------------------------------

  /** `gl_user_id`: the GitLab user a GitHub user id maps to, if any. */
  function GlUserId(ctx: Context, githubId: int): (r: Option<int>)
    ensures r.Some? <==> githubId in ctx.glUserId
    ensures r.Some? ==> r.value == ctx.glUserId[githubId]
  {
    if githubId in ctx.glUserId then Some(ctx.glUserId[githubId]) else None
  }

  /** `author_id`: resolve or fall back to the project creator; never absent. */
  function AuthorId(raw: RawPullRequest, ctx: Context): (r: int)
    ensures raw.user.id in ctx.glUserId ==> r == ctx.glUserId[raw.user.id]
    ensures raw.user.id !in ctx.glUserId ==> r == ctx.project.creatorId
  {
    GlUserId(ctx, raw.user.id).GetOr(ctx.project.creatorId)
  }

  /** `assignee_id`: resolve or stay absent; there is no creator fallback. */
  function AssigneeId(raw: RawPullRequest, ctx: Context): (r: Option<int>)
    ensures raw.assignee.None? ==> r.None?
    ensures r.Some? <==> raw.assignee.Some? && raw.assignee.value.id in ctx.glUserId
    ensures r.Some? ==> r.value == ctx.glUserId[raw.assignee.value.id]
  {
    if raw.assignee.Some? then GlUserId(ctx, raw.assignee.value.id) else None
  }

  /**
    The asymmetry between the two resolutions: for the same GitHub user,
    the assignee id is the author id when the user is mapped, and absent
    (while the author falls back to the creator) when not.
  */
  lemma AuthorAssigneeAsymmetry(raw: RawPullRequest, ctx: Context)
    requires raw.assignee == Some(raw.user)
    ensures raw.user.id in ctx.glUserId ==> AssigneeId(raw, ctx) == Some(AuthorId(raw, ctx))
    ensures raw.user.id !in ctx.glUserId ==>
              AssigneeId(raw, ctx).None? && AuthorId(raw, ctx) == ctx.project.creatorId
  {
  }

  /** `milestone`: looked up by the raw milestone number only when there is one. */
  function MilestoneOf(raw: RawPullRequest, ctx: Context): (r: Option<Milestone>)
    ensures raw.milestone.None? ==> r.None?
    ensures raw.milestone.Some? ==> r == ctx.findMilestone(raw.milestone.value.number)
  {
    if raw.milestone.Some? then ctx.findMilestone(raw.milestone.value.number) else None
  }

  /** `body`: a nil body reads as the empty string. */
  function Body(raw: RawPullRequest): (r: string)
    ensures raw.body.None? ==> r == ""
    ensures raw.body.Some? ==> r == raw.body.value
  {
    raw.body.GetOr("")
  }

  /** `description`: the author line, then the body. */
  function Description(raw: RawPullRequest, ctx: Context): string
  {
    ctx.authorLine(raw.user.login) + Body(raw)
  }

  /** The description splits back into the author line and the (defaulted) body. */
  lemma DescriptionSplits(raw: RawPullRequest, ctx: Context)
    ensures var line := ctx.authorLine(raw.user.login);
            |Description(raw, ctx)| == |line| + |Body(raw)|
            && Description(raw, ctx)[..|line|] == line
            && Description(raw, ctx)[|line|..] == Body(raw)
    ensures raw.body.None? ==> Description(raw, ctx) == ctx.authorLine(raw.user.login)
  {
  }

  /** `source_project` and `target_project` are both the import's project. */
  function SourceProject(ctx: Context): (p: Project)
    ensures p == TargetProject(ctx)
  {
    ctx.project
  }

  function TargetProject(ctx: Context): Project
  {
    ctx.project
  }

  // ---------------------------------------------------------------------------
  // The attribute hash
  // ---------------------------------------------------------------------------

  /** `attributes`, as a value: what the memoized accessors of `Formatter` add up to. */
  function AttributesOf(raw: RawPullRequest, ctx: Context): MergeRequestAttributes
  {
    MergeRequestAttributes(
      iid := raw.number,
      title := raw.title,
      description := Description(raw, ctx),
      sourceProject := SourceProject(ctx),
      sourceBranch := ResolveBranch(ctx.branchExists, raw.head),
      headSourceSha := raw.head.sha,
      targetProject := TargetProject(ctx),
      targetBranch := ResolveBranch(ctx.branchExists, raw.base),
      baseTargetSha := raw.base.sha,
      state := DeriveState(raw),
      milestone := MilestoneOf(raw, ctx),
      authorId := AuthorId(raw, ctx),
      assigneeId := AssigneeId(raw, ctx),
      createdAt := raw.createdAt,
      updatedAt := UpdatedAtOf(raw))
  }

  /** The fixed relationships between the hash and the raw record. */
  lemma AttributesRelationships(raw: RawPullRequest, ctx: Context)
    ensures var a := AttributesOf(raw, ctx);
            && a.sourceProject == a.targetProject == ctx.project
            && a.iid == raw.number
            && a.title == raw.title
            && a.description == ctx.authorLine(raw.user.login) + raw.body.GetOr("")
            && a.headSourceSha == raw.head.sha
            && a.baseTargetSha == raw.base.sha
            && a.createdAt == raw.createdAt
            && a.updatedAt == a.state.UpdatedAt(raw)
            && a.state.Name() in {"opened", "closed", "merged"}
            && (raw.assignee.None? ==> a.assigneeId.None?)
            && (raw.milestone.None? ==> a.milestone.None?)
  {
  }

  /** Both branch names of the hash follow the one resolution rule, side by side. */
  lemma AttributesBranches(raw: RawPullRequest, ctx: Context)
    ensures var a := AttributesOf(raw, ctx);
            && (ctx.branchExists(raw.head.ref) ==> a.sourceBranch == raw.head.ref)
            && (!ctx.branchExists(raw.head.ref) ==>
                  a.sourceBranch == raw.head.ref + "-" + ShortId(raw.head.sha, DefaultShortIdLength))
            && (ctx.branchExists(raw.base.ref) ==> a.targetBranch == raw.base.ref)
            && (!ctx.branchExists(raw.base.ref) ==>
                  a.targetBranch == raw.base.ref + "-" + ShortId(raw.base.sha, DefaultShortIdLength))
  {
  }

  // ---------------------------------------------------------------------------
  // Concrete scenarios
  // ---------------------------------------------------------------------------

  /** Head repository 7 and base repository 9: a cross-fork record, rejected. */
  lemma ScenarioCrossFork(raw: RawPullRequest)
    requires raw.head.repo == Some(Repository(7)) && raw.base.repo == Some(Repository(9))
    ensures !IsValid(raw)
  {
  }

  /** Missing ref "feature-x" with sha "abcdef1234567890" resolves to "feature-x-abcdef12". */
  lemma ScenarioMissingBranch(branchExists: string -> bool)
    requires !branchExists("feature-x")
    ensures ResolveBranch(branchExists, Side("feature-x", Some("abcdef1234567890"), None)) == "feature-x-abcdef12"
  {
    assert ShortId(Some("abcdef1234567890"), DefaultShortIdLength) == "abcdef12";
  }

  /** Closed with `merged_at` set and `closed_at` unset: merged, stamped with `merged_at`. */
  lemma ScenarioMerged(raw: RawPullRequest)
    requires raw.state == "closed" && raw.mergedAt.Some? && raw.closedAt.None?
    ensures DeriveState(raw) == Merged && DeriveState(raw).Name() == "merged"
    ensures UpdatedAtOf(raw) == raw.mergedAt
  {
  }

  // ---------------------------------------------------------------------------
  // The formatter object and its memoized accessors
  // ---------------------------------------------------------------------------

  /**
    One formatter instance. `source_branch`, `target_branch` and `state` are
    `@x ||= ...`: computed on first access and stored in a field. The ghost
    counters record how often the repository was asked whether a branch exists.
  */
  class Formatter {
    const raw: RawPullRequest
    const ctx: Context
    var sourceBranchMemo: Option<string>
    var targetBranchMemo: Option<string>
    var stateMemo: Option<MergeRequestState>
    ghost var sourceQueries: nat
    ghost var targetQueries: nat

    /** A stored value is always the value the record and context determine. */
    ghost predicate Valid()
      reads this
    {
      && (sourceBranchMemo.Some? ==> sourceBranchMemo.value == ResolveBranch(ctx.branchExists, raw.head))
      && (targetBranchMemo.Some? ==> targetBranchMemo.value == ResolveBranch(ctx.branchExists, raw.base))
      && (stateMemo.Some? ==> stateMemo.value == DeriveState(raw))
    }

    constructor (raw: RawPullRequest, ctx: Context)
      ensures Valid()
      ensures this.raw == raw && this.ctx == ctx
      ensures sourceBranchMemo.None? && targetBranchMemo.None? && stateMemo.None?
      ensures sourceQueries == 0 && targetQueries == 0
    {
      this.raw := raw;
      this.ctx := ctx;
      sourceBranchMemo, targetBranchMemo, stateMemo := None, None, None;
      sourceQueries, targetQueries := 0, 0;
    }

    /** `source_branch_exists?`: one query to the repository. */
    method SourceBranchExists() returns (b: bool)
      modifies this`sourceQueries
      ensures b == ctx.branchExists(raw.head.ref)
      ensures sourceQueries == old(sourceQueries) + 1
    {
      b := ctx.branchExists(raw.head.ref);
      sourceQueries := sourceQueries + 1;
    }

    /** `target_branch_exists?`: one query to the repository. */
    method TargetBranchExists() returns (b: bool)
      modifies this`targetQueries
      ensures b == ctx.branchExists(raw.base.ref)
      ensures targetQueries == old(targetQueries) + 1
    {
      b := ctx.branchExists(raw.base.ref);
      targetQueries := targetQueries + 1;
    }

    /** `source_branch`: resolved and stored on first access, returned from the field afterwards. */
    method SourceBranch() returns (b: string)
      requires Valid()
      modifies this`sourceBranchMemo, this`sourceQueries
      ensures Valid()
      ensures b == ResolveBranch(ctx.branchExists, raw.head)
      ensures sourceBranchMemo == Some(b)
      ensures old(sourceBranchMemo).Some? ==> b == old(sourceBranchMemo).value && sourceQueries == old(sourceQueries)
      ensures old(sourceBranchMemo).None? ==> sourceQueries == old(sourceQueries) + 1
    {
      if sourceBranchMemo.None? {
        var found := SourceBranchExists();
        var name := if found then raw.head.ref else SynthesizedBranch(raw.head);
        sourceBranchMemo := Some(name);
      }
      b := sourceBranchMemo.value;
    }

    /** `target_branch`: resolved and stored on first access, returned from the field afterwards. */
    method TargetBranch() returns (b: string)
      requires Valid()
      modifies this`targetBranchMemo, this`targetQueries
      ensures Valid()
      ensures b == ResolveBranch(ctx.branchExists, raw.base)
      ensures targetBranchMemo == Some(b)
      ensures old(targetBranchMemo).Some? ==> b == old(targetBranchMemo).value && targetQueries == old(targetQueries)
      ensures old(targetBranchMemo).None? ==> targetQueries == old(targetQueries) + 1
    {
      if targetBranchMemo.None? {
        var found := TargetBranchExists();
        var name := if found then raw.base.ref else SynthesizedBranch(raw.base);
        targetBranchMemo := Some(name);
      }
      b := targetBranchMemo.value;
    }

    /** `state`: derived and stored on first access, returned from the field afterwards. */
    method State() returns (s: MergeRequestState)
      requires Valid()
      modifies this`stateMemo
      ensures Valid()
      ensures s == DeriveState(raw)
      ensures stateMemo == Some(s)
      ensures old(stateMemo).Some? ==> s == old(stateMemo).value
    {
      if stateMemo.None? {
        stateMemo := Some(DeriveState(raw));
      }
      s := stateMemo.value;
    }

    /** `updated_at`: reads the (memoized) state, then the matching timestamp. */
    method UpdatedAt() returns (t: Option<Timestamp>)
      requires Valid()
      modifies this`stateMemo
      ensures Valid()
      ensures t == UpdatedAtOf(raw)
      ensures stateMemo == Some(DeriveState(raw))
    {
      var s := State();
      t := s.UpdatedAt(raw);
    }

    /** `attributes`: the hash, leaving all three memo fields filled in. */
    method Attributes() returns (a: MergeRequestAttributes)
      requires Valid()
      modifies this`sourceBranchMemo, this`sourceQueries, this`targetBranchMemo, this`targetQueries, this`stateMemo
      ensures Valid()
      ensures a == AttributesOf(raw, ctx)
      ensures sourceBranchMemo.Some? && targetBranchMemo.Some? && stateMemo.Some?
      ensures sourceQueries == old(sourceQueries) + (if old(sourceBranchMemo).None? then 1 else 0)
      ensures targetQueries == old(targetQueries) + (if old(targetBranchMemo).None? then 1 else 0)
    {
      var sourceBranch := SourceBranch();
      var targetBranch := TargetBranch();
      var state := State();
      var updatedAt := UpdatedAt();
      a := MergeRequestAttributes(
        iid := raw.number,
        title := raw.title,
        description := Description(raw, ctx),
        sourceProject := SourceProject(ctx),
        sourceBranch := sourceBranch,
        headSourceSha := raw.head.sha,
        targetProject := TargetProject(ctx),
        targetBranch := targetBranch,
        baseTargetSha := raw.base.sha,
        state := state,
        milestone := MilestoneOf(raw, ctx),
        authorId := AuthorId(raw, ctx),
        assigneeId := AssigneeId(raw, ctx),
        createdAt := raw.createdAt,
        updatedAt := updatedAt);
    }
  }

  /** One call a caller can make on a formatter. */
  datatype Accessor = ReadSourceBranch | ReadTargetBranch | ReadState | ReadUpdatedAt | ReadAttributes

  /** What such a call returns. */
  datatype AccessValue =
    | BranchValue(name: string)
    | StateValue(state: MergeRequestState)
    | TimeValue(time: Option<Timestamp>)
    | HashValue(attributes: MergeRequestAttributes)

  /** The value an accessor denotes for a record and context, independent of any memo. */
  function Expected(raw: RawPullRequest, ctx: Context, acc: Accessor): AccessValue
  {
    match acc
    case ReadSourceBranch => BranchValue(ResolveBranch(ctx.branchExists, raw.head))
    case ReadTargetBranch => BranchValue(ResolveBranch(ctx.branchExists, raw.base))
    case ReadState => StateValue(DeriveState(raw))
    case ReadUpdatedAt => TimeValue(UpdatedAtOf(raw))
    case ReadAttributes => HashValue(AttributesOf(raw, ctx))
  }

  /** Accessors that need `source_branch`, and those that need `target_branch`. */
  predicate NeedsSource(acc: Accessor) { acc == ReadSourceBranch || acc == ReadAttributes }

  predicate NeedsTarget(acc: Accessor) { acc == ReadTargetBranch || acc == ReadAttributes }

  predicate AnyNeedsSource(accs: seq<Accessor>) { exists k :: 0 <= k < |accs| && NeedsSource(accs[k]) }

  predicate AnyNeedsTarget(accs: seq<Accessor>) { exists k :: 0 <= k < |accs| && NeedsTarget(accs[k]) }

  /**
    Memoization seen from a caller: on one fresh formatter, any sequence of
    accessor calls returns, call by call, the value the record determines,
    and the repository is asked about each side at most once.
  */
  method ReadInAnyOrder(raw: RawPullRequest, ctx: Context, accesses: seq<Accessor>)
    returns (values: seq<AccessValue>, ghost sourceQueries: nat, ghost targetQueries: nat)
    ensures |values| == |accesses|
    ensures forall k :: 0 <= k < |accesses| ==> values[k] == Expected(raw, ctx, accesses[k])
    ensures sourceQueries == (if AnyNeedsSource(accesses) then 1 else 0)
    ensures targetQueries == (if AnyNeedsTarget(accesses) then 1 else 0)
  {
    var f := new Formatter(raw, ctx);
    values := [];
    var i := 0;
    while i < |accesses|
      invariant 0 <= i <= |accesses|
      invariant f.Valid() && f.raw == raw && f.ctx == ctx
      invariant |values| == i
      invariant forall k :: 0 <= k < i ==> values[k] == Expected(raw, ctx, accesses[k])
      invariant f.sourceBranchMemo.Some? <==> AnyNeedsSource(accesses[..i])
      invariant f.targetBranchMemo.Some? <==> AnyNeedsTarget(accesses[..i])
      invariant f.sourceQueries == (if AnyNeedsSource(accesses[..i]) then 1 else 0)
      invariant f.targetQueries == (if AnyNeedsTarget(accesses[..i]) then 1 else 0)
    {
      var v: AccessValue;
      match accesses[i] {
        case ReadSourceBranch =>
          var b := f.SourceBranch();
          v := BranchValue(b);
        case ReadTargetBranch =>
          var b := f.TargetBranch();
          v := BranchValue(b);
        case ReadState =>
          var st := f.State();
          v := StateValue(st);
        case ReadUpdatedAt =>
          var t := f.UpdatedAt();
          v := TimeValue(t);
        case ReadAttributes =>
          var a := f.Attributes();
          v := HashValue(a);
      }
      assert accesses[..i + 1] == accesses[..i] + [accesses[i]];
      values := values + [v];
      i := i + 1;
    }
    assert accesses[..i] == accesses;
    sourceQueries, targetQueries := f.sourceQueries, f.targetQueries;
  }
}

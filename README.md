# GitHub import: pull-request formatter

A Dafny model of `Gitlab::GithubImport::PullRequestFormatter`. This class takes one
pull-request record from the GitHub API and builds the attribute hash of a GitLab merge
request in the project being imported into. The model covers:

- the cross-fork check (`valid?`, `cross_project?`);
- the branch resolver (`source_branch`, `target_branch`, `short_id`). A ref that still
  exists in the repository is kept as it is. A missing one becomes `"{ref}-{short sha}"`;
- the state/timestamp deriver (`state`, `updated_at`);
- identity, milestone and description resolution (`author_id`, `assignee_id`, `milestone`,
  `body`, `description`, `source_project`, `target_project`);
- the attribute hash itself (`attributes`).

Files:

- `option.dfy`: module `Optional`, the `Option` datatype that stands for Ruby's `nil`.
- `pull_request_formatter.dfy`: module `PullRequestFormatter`. It holds the data model
  (`RawPullRequest`, `Side`, `Context`, `MergeRequestState`, `MergeRequestAttributes`) and
  the pure accessors as functions, with lemmas about them. It also holds the class
  `Formatter`, whose memoized accessors are methods over `Option` memo fields.

Parameters stand for what the formatter only reads (the `Context` datatype):

- `branchExists: string -> bool` stands for `project.repository.branch_exists?`. It is
  fixed within one formatter.
- `glUserId: map<int, int>` stands for `gl_user_id`, the GitHub-to-GitLab user mapping.
- `findMilestone: int -> Option<Milestone>` stands for `project.milestones.find_by(iid: ...)`.
- `authorLine: string -> string` stands for `formatter.author_line`.
- `project` holds the project's id and its `creator_id`.

`short_id` is modelled exactly as written: `sha.to_s[0..length]` is an inclusive Ruby range.
With the default length 7 it keeps up to **8** characters (`"feature-x-abcdef12"` for sha
`"abcdef1234567890"`). `short_id`'s default `length = 7` suggests a 7-character prefix, but
the inclusive range `[0..length]` keeps 8 characters; the model follows the code. A nil or
empty sha gives `""`, so a missing ref resolves to `"{ref}-"`: an empty suffix, not an
error. `ShortId` also covers any other `length`, negative ones included, with Ruby's range
rules (a negative end counts from the end of the string).

Memoization (`@x ||= ...`) is modelled by the memo fields `sourceBranchMemo`,
`targetBranchMemo` and `stateMemo`. Ghost counters `sourceQueries` and `targetQueries`
count the calls to `branch_exists?`. `ReadInAnyOrder` states what the memoization buys a
caller. For any sequence of accessor calls on one formatter, every call returns the value
the record determines, and each side's branch is looked up at most once.

## Model

| member | source | states |
|---|---|---|
| `PullRequestFormatter.ValidityCases` | lib/gitlab/github_import/pull_request_formatter.rb:28-30 | `valid?` is false exactly when both `head.repo` and `base.repo` are present with different ids; a missing repo on either side, or the same repo on both, is valid |
| `PullRequestFormatter.IsCrossProject` | lib/gitlab/github_import/pull_request_formatter.rb:92-94 | `cross_project?`: both repos present with different ids; its properties are stated by `ValidityCases` and `ValidIffAtMostOneRepository` |
| `PullRequestFormatter.IsValid` | lib/gitlab/github_import/pull_request_formatter.rb:28-30 | `valid?` is the negation of `cross_project?`; stated in both directions by `ValidityCases`, and against an independent definition by `ValidIffAtMostOneRepository` |
| `PullRequestFormatter.ValidIffAtMostOneRepository` | lib/gitlab/github_import/pull_request_formatter.rb:92-94 | reference definition of `cross_project?`: a record is valid exactly when the set of repository ids it names has at most one element |
| `PullRequestFormatter.ScenarioCrossFork` | lib/gitlab/github_import/pull_request_formatter.rb:92-94 | head repo 7 and base repo 9 give an invalid record |
| `PullRequestFormatter.ShortId` | lib/gitlab/github_import/pull_request_formatter.rb:44-46 | `short_id(sha, n)` is a prefix of `sha.to_s`; its length is `min(|sha|, n+1)` for `n >= 0` and `max(0, |sha|+n+1)` for negative `n` |
| `PullRequestFormatter.ToS` | lib/gitlab/github_import/pull_request_formatter.rb:45 | `to_s` on a possibly nil sha: nil reads as `""`; its effect on the short id is stated by `DefaultShortIdBounds` and `MissingShaDegradesToDash` |
| `PullRequestFormatter.DefaultShortIdBounds` | lib/gitlab/github_import/pull_request_formatter.rb:44-46 | with the default length 7 the short id has `min(|sha|, 8)` characters and is the first 8 of a long sha; a nil or empty sha gives `""` |
| `PullRequestFormatter.ResolveBranch` | lib/gitlab/github_import/pull_request_formatter.rb:36-42 | an existing ref is returned unchanged; a missing one gives the ref, then `-`, then exactly `short_id(sha)` |
| `PullRequestFormatter.SynthesizedBranch` | lib/gitlab/github_import/pull_request_formatter.rb:40 | the interpolation `"#{ref}-#{short_id(sha)}"` (also rb:60); its shape, ref then `-` then the short id, is stated by the second `ensures` of `ResolveBranch` |
| `PullRequestFormatter.AttributesBranches` | lib/gitlab/github_import/pull_request_formatter.rb:56-62 | the hash's `source_branch` (from `head`) and `target_branch` (from `base`) both follow the rule: the ref if it exists, else `ref + "-" + short_id(sha)` |
| `PullRequestFormatter.SynthesizedBranchCollisionIff` | lib/gitlab/github_import/pull_request_formatter.rb:40 | for one missing ref, two shas give the same synthesized branch exactly when their short ids agree |
| `PullRequestFormatter.SynthesizedBranchDeterminesRefAndShortId` | lib/gitlab/github_import/pull_request_formatter.rb:40 | for missing refs and dash-free (hexadecimal) shas, two synthesized names are equal exactly when both the refs and the short ids are equal |
| `PullRequestFormatter.ResolveBranchDependsOnRefOnly` | lib/gitlab/github_import/pull_request_formatter.rb:32-34 | the resolved name depends on the repository only through whether that one ref exists |
| `PullRequestFormatter.MissingShaDegradesToDash` | lib/gitlab/github_import/pull_request_formatter.rb:40-45 | a missing ref with a nil or empty sha resolves to `ref + "-"` |
| `PullRequestFormatter.ScenarioMissingBranch` | lib/gitlab/github_import/pull_request_formatter.rb:36-46 | missing ref `feature-x` with sha `abcdef1234567890` resolves to `feature-x-abcdef12` |
| `PullRequestFormatter.DeriveState` | lib/gitlab/github_import/pull_request_formatter.rb:130-139 | the state is `merged` iff the status is `closed` and `merged_at` is present, `closed` iff the status is `closed` and `merged_at` is absent, `opened` iff the status is not `closed` |
| `PullRequestFormatter.UpdatedAtCases` | lib/gitlab/github_import/pull_request_formatter.rb:141-148 | `updated_at` is `merged_at` for a merged record, `closed_at` for a closed one, and the raw `updated_at` otherwise |
| `PullRequestFormatter.MergeRequestState.Name` | lib/gitlab/github_import/pull_request_formatter.rb:130-139 | the three state strings `merged`, `closed`, `opened` the hash stores |
| `PullRequestFormatter.MergeRequestState.UpdatedAt` | lib/gitlab/github_import/pull_request_formatter.rb:142-147 | the `case state` of `updated_at`: merged selects `merged_at`, closed `closed_at`, opened the raw `updated_at`; stated in terms of the raw flags by `UpdatedAtCases` |
| `PullRequestFormatter.UpdatedAtOf` | lib/gitlab/github_import/pull_request_formatter.rb:141-148 | `updated_at` as the derived state's timestamp; its cases are stated by `UpdatedAtCases`, `OpenedIgnoresStrayTimestamps` and `ClosedIgnoresRawUpdatedAt` |
| `PullRequestFormatter.OpenedIgnoresStrayTimestamps` | lib/gitlab/github_import/pull_request_formatter.rb:141-148 | for a status other than `closed`, changing `merged_at`/`closed_at` changes neither the state (`opened`) nor `updated_at` |
| `PullRequestFormatter.ClosedIgnoresRawUpdatedAt` | lib/gitlab/github_import/pull_request_formatter.rb:141-148 | for status `closed`, `updated_at` is `merged_at` if present, else `closed_at`, and never depends on the raw `updated_at` |
| `PullRequestFormatter.ScenarioMerged` | lib/gitlab/github_import/pull_request_formatter.rb:130-148 | closed with `merged_at` set and `closed_at` unset gives state `merged` and `updated_at == merged_at` |
| `PullRequestFormatter.GlUserId` | lib/gitlab/github_import/pull_request_formatter.rb:76 | the user lookup is present exactly for mapped GitHub ids and returns the mapped GitLab id |
| `PullRequestFormatter.AuthorId` | lib/gitlab/github_import/pull_request_formatter.rb:84-86 | `author_id` is the mapped id of the author if there is one, else the project's `creator_id`; it is never absent |
| `PullRequestFormatter.AssigneeId` | lib/gitlab/github_import/pull_request_formatter.rb:70-78 | `assignee_id` is absent when there is no assignee; it is present exactly when there is an assignee whose id is mapped, and then it is the mapped id |
| `PullRequestFormatter.AuthorAssigneeAsymmetry` | lib/gitlab/github_import/pull_request_formatter.rb:74-86 | for an author who is also the assignee: mapped gives `assignee_id == author_id`; unmapped gives no assignee while the author falls back to the creator |
| `PullRequestFormatter.MilestoneOf` | lib/gitlab/github_import/pull_request_formatter.rb:100-104 | no raw milestone gives no milestone; otherwise the result is the project's lookup of the raw milestone number |
| `PullRequestFormatter.Body` | lib/gitlab/github_import/pull_request_formatter.rb:88-90 | a nil body reads as `""`, any other body as itself |
| `PullRequestFormatter.DescriptionSplits` | lib/gitlab/github_import/pull_request_formatter.rb:96-98 | the description splits back into exactly the author line followed by the body; with a nil body it is the author line alone |
| `PullRequestFormatter.Description` | lib/gitlab/github_import/pull_request_formatter.rb:96-98 | `description` is `author_line(author)` followed by `body`; stated by `DescriptionSplits` |
| `PullRequestFormatter.SourceProject` | lib/gitlab/github_import/pull_request_formatter.rb:106-120 | `source_project` and `target_project` are the same project |
| `PullRequestFormatter.TargetProject` | lib/gitlab/github_import/pull_request_formatter.rb:118-120 | `target_project` is the import's project, the same one `SourceProject` returns |
| `PullRequestFormatter.AttributesRelationships` | lib/gitlab/github_import/pull_request_formatter.rb:4-26 | in the hash: both projects are the import's project, `iid == number`, title, shas and `created_at` are copied, `description == author_line(login) + (body or "")`, `updated_at` is the state's timestamp, the state name is one of `opened`/`closed`/`merged`, and there is no assignee or milestone without a raw one |
| `PullRequestFormatter.AttributesOf` | lib/gitlab/github_import/pull_request_formatter.rb:4-22 | `attributes` as a value; its fields are stated by `AttributesRelationships` and `AttributesBranches`, and `Formatter.Attributes` is proved to return it |
| `PullRequestFormatter.Formatter.constructor` | lib/gitlab/github_import/pull_request_formatter.rb:3 | a new formatter has all three memo fields empty and has made no branch query |
| `PullRequestFormatter.Formatter.SourceBranchExists` | lib/gitlab/github_import/pull_request_formatter.rb:32-34 | returns whether the head ref exists and counts one repository query |
| `PullRequestFormatter.Formatter.TargetBranchExists` | lib/gitlab/github_import/pull_request_formatter.rb:52-54 | returns whether the base ref exists and counts one repository query |
| `PullRequestFormatter.Formatter.SourceBranch` | lib/gitlab/github_import/pull_request_formatter.rb:36-42 | returns the resolved head branch and stores it; once stored, later calls return the stored value and make no query; the first call makes exactly one query |
| `PullRequestFormatter.Formatter.TargetBranch` | lib/gitlab/github_import/pull_request_formatter.rb:56-62 | the same for the base branch |
| `PullRequestFormatter.Formatter.State` | lib/gitlab/github_import/pull_request_formatter.rb:130-139 | returns the derived state and stores it; once stored, later calls return the stored value |
| `PullRequestFormatter.Formatter.UpdatedAt` | lib/gitlab/github_import/pull_request_formatter.rb:141-148 | returns the timestamp of the (memoized) state and leaves the state memoized |
| `PullRequestFormatter.Formatter.Attributes` | lib/gitlab/github_import/pull_request_formatter.rb:4-22 | returns exactly the hash `AttributesOf(raw, ctx)`, fills all three memo fields, and queries each side's branch only if it was not already memoized |
| `PullRequestFormatter.ReadInAnyOrder` | lib/gitlab/github_import/pull_request_formatter.rb:37-57 | for any sequence of accessor calls on one formatter, each call returns the value the record determines, and each side's existence is queried once if any call needs that branch and never otherwise |

## Left out

- Storage, the database and the API: `branch_exists?`, `gl_user_id`, `milestones.find_by`
  and `formatter.author_line` are parameters (`Context`). Their internals, in `BaseFormatter`,
  the repository and the database, are not part of this model. So is fetching records and
  persisting the hash.
- Timestamps are opaque values (`Timestamp`). No date arithmetic or parsing is modelled.
- `present?` is modelled as "not nil" (`Some?`). Rails' wider blankness rules (for example
  for an empty object) are not modelled.
- `state` is stored as a `MergeRequestState` value rather than a Ruby string.
  `MergeRequestState.Name` gives the string the hash holds.
- `@x ||= ...` would recompute on a stored `nil` or `false`. The values memoized here (a
  string, a state name) are never either, so the memo fields are plain `Option`s.
- The query counters are ghost instrumentation. The Ruby class has no such counters: they
  stand for the calls the repository sees.
- `number`, `source_sha`, `target_sha`, `source_ref`, `target_ref`, `source_repo`,
  `target_repo`, `author` and `assigned?` are single field reads. The model reads the field
  directly (`raw.number`, `raw.head.sha`, ...).
- The title is a plain string. A nil title is not distinguished, since it is copied through
  unchanged.
- Concurrency: a formatter is used by one caller, and nothing in it is shared, so none is
  modelled.

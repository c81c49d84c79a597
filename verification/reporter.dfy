/** The decisions `check` in dist/main.js takes around one `lint` run: which commit the
    check run is reported against, whether an in-progress run of the job is reused or a new
    one is created, whether the completion update is sent, and whether the action fails.
    Every call to the hosting platform is represented only by what it answered. */
module Reporter {
  import opened Wrappers
  import Lint

  /** The ASCII part of `toLowerCase`. */
  function LowerChar(c: char): (d: char)
    ensures 'A' <= c <= 'Z' ==> d as int == c as int + 32
    ensures !('A' <= c <= 'Z') ==> d == c
  {
    if 'A' <= c <= 'Z' then (c as int + 32) as char else c
  }

  function Lower(t: string): (u: string)
    ensures |u| == |t|
  {
    if |t| == 0 then [] else [LowerChar(t[0])] + Lower(t[1..])
  }

  /** Lowering works character by character. */
  lemma {:induction false} LowerEach(t: string)
    ensures forall i :: 0 <= i < |t| ==> Lower(t)[i] == LowerChar(t[i])
  {
    if |t| > 0 {
      LowerEach(t[1..]);
      assert forall i :: 1 <= i < |t| ==> Lower(t)[i] == Lower(t[1..])[i - 1];
    }
  }

  /** A check run as `listForRef` lists it. */
  datatype CheckRun = CheckRun(name: string, id: nat)

  /** The index of the first listed run whose name equals the job name, ignoring case. */
  function FindRun(runs: seq<CheckRun>, jobName: string): (r: Option<nat>)
    ensures r.Some? ==> r.value < |runs|
  {
    if |runs| == 0 then None
    else if Lower(runs[0].name) == Lower(jobName) then Some(0)
    else
      match FindRun(runs[1..], jobName)
      case None => None
      case Some(i) => Some(i + 1)
  }

  /** `find` yields the first run whose lowered name is the lowered job name, and nothing
      when there is none. */
  lemma {:induction false} FindRunFirst(runs: seq<CheckRun>, jobName: string)
    ensures var r := FindRun(runs, jobName);
      && (r.Some? ==> Lower(runs[r.value].name) == Lower(jobName))
      && (r.Some? ==> forall i :: 0 <= i < r.value ==> Lower(runs[i].name) != Lower(jobName))
      && (r.None? ==> forall i :: 0 <= i < |runs| ==> Lower(runs[i].name) != Lower(jobName))
  {
    if |runs| > 0 && Lower(runs[0].name) != Lower(jobName) {
      FindRunFirst(runs[1..], jobName);
      assert forall i :: 1 <= i < |runs| ==> runs[i] == runs[1..][i - 1];
    }
  }

  /** The workflow context: the pull request number of the triggering event, if any, the
      commit the workflow runs on (`GITHUB_SHA`) and the `job-name` input. */
  datatype Context = Context(issueNumber: Option<nat>, sha: string, jobName: string)

  /** What each call to the hosting platform answered: the oids of the pull request's last
      commit node list, the commit lookup, the listed in-progress runs, the id of a newly
      created run, and the completion update. */
  datatype Remote = Remote(pullRequest: Outcome<seq<string>>, commit: Outcome<string>,
                           checkRuns: Outcome<seq<CheckRun>>, created: Outcome<nat>,
                           updated: Outcome<bool>)

  /** The completion update sent for a check run. */
  datatype Update = Update(checkRunId: nat, conclusion: string, output: Lint.Output)

  /** What `check` did: the commit it reported against, the commit whose in-progress runs it
      listed, the commit it asked a new run for, the run id it ended up with, the update it
      sent, and the message it failed the action with. */
  datatype Report = Report(sha: string, listedFor: Option<string>, createdFor: Option<string>,
                           id: Option<nat>, update: Option<Update>, failed: Option<string>)

  /** `context.issue && context.issue.number`: a pull request number other than 0. */
  predicate HasPullRequest(ctx: Context) {
    ctx.issueNumber.Some? && ctx.issueNumber.value != 0
  }

  /** `if (id)`: an id is held when one was assigned and it is not 0. */
  predicate Held(id: Option<nat>) {
    id.Some? && id.value != 0
  }

  /** The id of the run the listing finds: the first in-progress run named like the job,
      when there is a job name and the listing succeeds. */
  function ListedId(ctx: Context, remote: Remote): (id: Option<nat>)
    ensures id.Some? <==> |ctx.jobName| > 0 && remote.checkRuns.Ok?
                          && FindRun(remote.checkRuns.value, ctx.jobName).Some?
  {
    if |ctx.jobName| > 0 && remote.checkRuns.Ok? then
      match FindRun(remote.checkRuns.value, ctx.jobName)
      case Some(i) => Some(remote.checkRuns.value[i].id)
      case None => None
    else None
  }

  /** `check` on one chunk of compiler output. It throws, and does nothing further, when the
      pull request query succeeds with no commit node; otherwise it completes. */
  method Check(ctx: Context, remote: Remote, data: string) returns (r: Outcome<Report>)
    ensures r.Err? <==> HasPullRequest(ctx) && remote.pullRequest == Ok([])
    ensures r.Ok? && HasPullRequest(ctx) && remote.pullRequest.Ok? ==>
      r.value.sha == remote.pullRequest.value[0]
    ensures r.Ok? && HasPullRequest(ctx) && remote.pullRequest.Err? ==> r.value.sha == ctx.sha
    ensures !HasPullRequest(ctx) ==> r.Ok? && r.value.sha == ctx.sha
    ensures r.Ok? ==> (r.value.listedFor.Some? <==> |ctx.jobName| > 0)
    ensures r.Ok? && r.value.listedFor.Some? ==> r.value.listedFor.value == r.value.sha
    ensures r.Ok? ==> (r.value.createdFor.Some? <==> !Held(ListedId(ctx, remote)))
    ensures r.Ok? && r.value.createdFor.Some? ==> r.value.createdFor.value == r.value.sha
    ensures r.Ok? && Held(ListedId(ctx, remote)) ==> r.value.id == ListedId(ctx, remote)
    ensures r.Ok? && !Held(ListedId(ctx, remote)) ==>
      r.value.id == if remote.created.Ok? then Some(remote.created.value) else ListedId(ctx, remote)
    ensures r.Ok? ==> (r.value.update.Some? <==> Held(r.value.id))
    ensures r.Ok? && r.value.update.Some? ==>
      r.value.update.value.checkRunId == r.value.id.value
      && Lint.Conclude(Lint.Annotations(data))
         == Lint.LintResult(r.value.update.value.conclusion, r.value.update.value.output)
    ensures r.Ok? ==>
      (r.value.failed.Some? <==> |Lint.Annotations(data)| == 0)
      && (r.value.failed.Some? ==> r.value.failed.value == "TSC error")
  {
    var currentSha: string;
    if HasPullRequest(ctx) {
      var info: Option<seq<string>> := None;
      match remote.pullRequest {
        case Ok(oids) => info := Some(oids);
        case Err =>
      }
      if info.Some? {
        if |info.value| == 0 {
          return Err;
        }
        currentSha := info.value[0];
      } else {
        currentSha := ctx.sha;
      }
    } else {
      currentSha := ctx.sha;
    }

    var id: Option<nat> := None;
    var listedFor: Option<string> := None;
    if |ctx.jobName| > 0 {
      listedFor := Some(currentSha);
      match remote.checkRuns {
        case Ok(runs) =>
          var found := FindRun(runs, ctx.jobName);
          if found.Some? {
            id := Some(runs[found.value].id);
          }
        case Err =>
      }
    }

    var createdFor: Option<string> := None;
    if !Held(id) {
      createdFor := Some(currentSha);
      match remote.created {
        case Ok(created) => id := Some(created);
        case Err =>
      }
    }

    var result := Lint.Lint(data);
    var update: Option<Update> := None;
    if Held(id) {
      update := Some(Update(id.value, result.conclusion, result.output));
    }
    var failed: Option<string> := None;
    if result.conclusion == "failure" {
      failed := Some(result.output.summary);
    }
    r := Ok(Report(currentSha, listedFor, createdFor, id, update, failed));
  }
}

/**
 * The pipeline catalog of `devops_monitor.py`: the job-to-steps table
 * `PIPELINE`, the per-step failure probabilities `STEP_FAIL_PROB`, and the
 * defaults used for unknown jobs and unconfigured steps.
 */
module Catalog {
  import opened Wrappers

  /** The job a run request without a (non-empty) job gets. */
  const DefaultJob: string := "app-ci"

  /** The steps of a job the catalog does not know. */
  const FallbackSteps: seq<string> := ["checkout", "unit-tests", "deploy-staging"]

  const AppCiSteps: seq<string> :=
    ["checkout", "install-deps", "lint", "unit-tests", "build-artifact", "deploy-staging"]

  const ApiCiSteps: seq<string> :=
    ["checkout", "install-deps", "unit-tests", "integration-tests", "security-scan", "docker-build", "deploy-prod"]

  /** `PIPELINE` */
  const Pipeline: map<string, seq<string>> := map["app-ci" := AppCiSteps, "api-ci" := ApiCiSteps]

  /** `STEP_FAIL_PROB` */
  const StepFailProb: map<string, real> := map[
    "checkout" := 0.01,
    "install-deps" := 0.04,
    "lint" := 0.10,
    "unit-tests" := 0.12,
    "integration-tests" := 0.18,
    "security-scan" := 0.22,
    "build-artifact" := 0.05,
    "docker-build" := 0.08,
    "deploy-staging" := 0.10,
    "deploy-prod" := 0.16
  ]

  /** The failure probability of a step with no entry in `StepFailProb`. */
  const DefaultFailProb: real := 0.10

  /** `data.get("job") or "app-ci"`: an absent, null or empty job name selects the default job. */
  function ResolveJob(requested: Option<string>): (job: string)
    ensures job != ""
    ensures requested.Some? && requested.value != "" ==> job == requested.value
    ensures requested.None? || requested == Some("") ==> job == DefaultJob
  {
    match requested
    case None => DefaultJob
    case Some(name) => if name == "" then DefaultJob else name
  }

  /** `PIPELINE.get(job, [...])`: the catalog's steps for a known job, the fallback otherwise. */
  function StepsFor(job: string): (steps: seq<string>)
    ensures |steps| > 0
    ensures job in Pipeline ==> steps == Pipeline[job]
    ensures job !in Pipeline ==> steps == FallbackSteps
  {
    if job in Pipeline then Pipeline[job] else FallbackSteps
  }

  /** `STEP_FAIL_PROB.get(step, 0.10)` */
  function FailProb(step: string): (p: real)
    ensures 0.0 < p <= 0.22
    ensures step !in StepFailProb ==> p == DefaultFailProb
  {
    if step in StepFailProb then StepFailProb[step] else DefaultFailProb
  }

  /** Every step of every catalog job has its own failure probability: none relies on the default. */
  lemma CatalogStepsHaveFailProb(job: string, i: nat)
    requires job in Pipeline && i < |Pipeline[job]|
    ensures Pipeline[job][i] in StepFailProb
  {
    assert job == "app-ci" || job == "api-ci";
  }

  /** An unknown job is not rejected: it runs the three fallback steps. */
  lemma UnknownJobFallsBack(requested: string)
    requires requested != "" && requested != "app-ci" && requested != "api-ci"
    ensures ResolveJob(Some(requested)) == requested
    ensures StepsFor(ResolveJob(Some(requested))) == ["checkout", "unit-tests", "deploy-staging"]
  {
  }

  /** A request without a job runs the six `app-ci` steps. */
  lemma MissingJobRunsAppCi()
    ensures ResolveJob(None) == "app-ci" && ResolveJob(Some("")) == "app-ci"
    ensures StepsFor(ResolveJob(None)) == AppCiSteps && |AppCiSteps| == 6
  {
  }
}

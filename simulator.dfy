/**
 * The step simulator of `devops_monitor.py`: the descriptive output of a
 * step (`_simulate_step_output`) and the failure draw of `_simulate_pipeline`.
 * The random numbers the source draws are inputs here: a `Draw` carries the
 * outcome of the failure roll `random.random() < fail_prob` and the integer
 * `random.randint`/`random.choice` returned for the output text.
 */
module Simulator {
  import opened Text
  import opened Catalog

  datatype Draw = Draw(fails: bool, count: nat)

  /** `random.random() < fail_prob`: the value of `fails` a roll gives for this step. */
  predicate RollFails(step: string, roll: real)
  {
    roll < FailProb(step)
  }

  /**
   * A roll of 0.22 or more never fails a step, and a roll of 0 always does:
   * every step, configured or not, fails with a probability in (0, 0.22].
   */
  lemma RollBounds(step: string, roll: real)
    ensures roll >= 0.22 ==> !RollFails(step, roll)
    ensures roll <= 0.0 ==> RollFails(step, roll)
  {
  }

  const DeployOutput: string := "Deploy: rollout completed, healthcheck OK"
  const DefaultOutput: string := "Step completed"

  /** The step names `_simulate_step_output` has a message of their own for, besides the `deploy` prefix. */
  const NamedSteps: set<string> :=
    {"lint", "unit-tests", "integration-tests", "security-scan", "docker-build", "install-deps", "checkout", "build-artifact"}

  /** `_simulate_step_output(step)`, with the random count it formats taken from the draw. */
  function StepOutput(step: string, count: nat): (out: string)
    ensures StartsWith(step, "deploy") ==> out == DeployOutput
    ensures out == DefaultOutput <==> step !in NamedSteps && !StartsWith(step, "deploy")
  {
    if step == "lint" then
      assert step[0] != "deploy"[0];
      "Lint: flake8 passed (0 errors)"
    else if step == "unit-tests" then
      assert step[0] != "deploy"[0];
      "Unit tests: " + NatToString(count) + " passed"
    else if step == "integration-tests" then
      assert step[0] != "deploy"[0];
      "Integration tests: " + NatToString(count) + " passed"
    else if step == "security-scan" then
      assert step[0] != "deploy"[0];
      "Security scan: found " + NatToString(count) + " issues (sev: low/med/high mixed)"
    else if step == "docker-build" then
      assert step[1] != "deploy"[1];
      "Docker build: image tagged 'app:latest'"
    else if StartsWith(step, "deploy") then DeployOutput
    else if step == "install-deps" then "Dependencies installed successfully"
    else if step == "checkout" then "Checked out repository"
    else if step == "build-artifact" then "Build artifact created: dist/app.zip"
    else DefaultOutput
  }

  /** The unit-test count a run reports can be read back from its output line. */
  lemma UnitTestCountReported(count: nat)
    ensures var out := StepOutput("unit-tests", count);
      && |out| > 19
      && (forall i :: 12 <= i < |out| - 7 ==> IsDigit(out[i]))
      && DigitsValue(out[12..|out| - 7]) == count
  {
    var digits := NatToString(count);
    var out := "Unit tests: " + digits + " passed";
    assert out[12..|out| - 7] == digits;
    NatToStringRoundTrip(count);
  }

  /** Every step of every catalog job produces a message of its own, never the generic one. */
  lemma CatalogStepsHaveOutput(job: string, i: nat, count: nat)
    requires job in Pipeline && i < |Pipeline[job]|
    ensures StepOutput(Pipeline[job][i], count) != DefaultOutput
  {
    var s := Pipeline[job][i];
    assert job == "app-ci" || job == "api-ci";
    assert s in NamedSteps || StartsWith(s, "deploy") by {
      if s == "deploy-staging" {
        assert s[..6] == "deploy";
      } else if s == "deploy-prod" {
        assert s[..6] == "deploy";
      }
    }
  }
}

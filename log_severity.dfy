/** The severity of the per-attempt task log: which headline and log level
    `print_log_table` picks for a list of verdicts. */
module LogSeverity {
  import opened Base
  import opened ResponseChecker

  /** The log function the table is written with. */
  datatype LogLevel = LogError | LogWarning | LogInfo

  /** The headline: the check failed, every line failed, some lines failed,
      or the task succeeded. */
  datatype Tier = CheckFail | CheckFailAll | CheckFailPart | TaskSuccess

  function LevelOf(t: Tier): LogLevel {
    match t
    case CheckFail => LogError
    case CheckFailAll => LogError
    case CheckFailPart => LogWarning
    case TaskSuccess => LogInfo
  }

  predicate AllLineErrors(checks: seq<Error>) {
    forall i :: 0 <= i < |checks| ==> IsLineError(checks[i])
  }

  predicate AnyLineError(checks: seq<Error>) {
    exists i :: 0 <= i < |checks| && IsLineError(checks[i])
  }

  /** The `if`/`elif` chain of `print_log_table`; `all` over no verdicts holds. */
  function ChooseTier(checks: seq<Error>): Tier {
    if AllAre(checks, Unknown) then CheckFail
    else if AllAre(checks, FailData) then CheckFail
    else if AllAre(checks, FailLineCount) then CheckFail
    else if AllLineErrors(checks) then CheckFailAll
    else if AnyLineError(checks) then CheckFailPart
    else TaskSuccess
  }

  /** On a non-empty checker-shaped list: success exactly when every verdict
      passes, a partial failure exactly when some fail a line check and
      others pass, an error exactly when none passes. */
  lemma TierOfShaped(r: seq<Error>)
    requires r != [] && CheckerShaped(r)
    ensures ChooseTier(r) == TaskSuccess <==> AllAre(r, NoError)
    ensures ChooseTier(r) == CheckFailPart <==> AnyLineError(r) && AnyPass(r)
    ensures LevelOf(ChooseTier(r)) == LogError <==> !AnyPass(r)
  {
    if AllAre(r, FailData) || AllAre(r, FailLineCount) {
      assert !IsLineError(r[0]) && r[0] != NoError;
    } else {
      assert r[0] != Unknown;
      if AllAre(r, NoError) {
        assert !IsLineError(r[0]);
      } else if AllLineErrors(r) {
        assert forall i :: 0 <= i < |r| ==> r[i] != NoError;
      } else {
        var j :| 0 <= j < |r| && !IsLineError(r[j]);
        assert r[j] == NoError;
      }
    }
  }

  /** The tiers of the verdict lists `check` produces. For a non-empty batch:
      success exactly when every line passes; a partial failure exactly when
      some lines fail a line check and others pass; an error otherwise. An
      empty batch, and a response without data, log as a failed check. */
  lemma TierOfCheck(srcs: seq<string>, dsts: seq<string>, textType: TextType,
                    itemCount: nat, firstRetryCount: int, cfg: Config, h: TextHelpers)
    ensures var r := Check(srcs, dsts, textType, itemCount, firstRetryCount, cfg, h);
            var t := ChooseTier(r);
            (srcs == [] ==> t == CheckFail)
            && (NoData(dsts) ==> t == CheckFail)
            && (srcs != [] ==> (t == TaskSuccess <==> AllAre(r, NoError)))
            && (srcs != [] ==> (t == CheckFailPart <==> AnyLineError(r) && AnyPass(r)))
            && (srcs != [] ==> (LevelOf(t) == LogError <==> !AnyPass(r)))
  {
    var r := Check(srcs, dsts, textType, itemCount, firstRetryCount, cfg, h);
    CheckVerdictKinds(srcs, dsts, textType, itemCount, firstRetryCount, cfg, h);
    if srcs != [] {
      assert CheckerShaped(r);
      TierOfShaped(r);
    }
  }

  /** An `Unknown` verdict among passing ones is neither a line error nor a
      uniform failure, so the attempt logs as a success. */
  lemma MixedUnknownIsSuccess(n: nat)
    ensures ChooseTier([Unknown] + Fill(NoError, n + 1)) == TaskSuccess
  {
    var cs := [Unknown] + Fill(NoError, n + 1);
    assert cs[1] == NoError && cs[0] == Unknown;
    assert !IsLineError(cs[0]);
    assert forall i :: 0 <= i < |cs| ==> !IsLineError(cs[i]);
  }
}

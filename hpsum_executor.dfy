/**
  The update executor: it runs the hpsum binary in silent, ROM-only mode,
  restricted to the given components if there are any, and turns a failed
  run into either a classification (a normal return) or an
  `HpsumOperationError`.
*/
module HpsumExecutor {
  import opened Wrappers
  import opened PyLib
  import opened HpsumOutput
  import opened HostModel

  /** What the iLO client raises. */
  datatype IloFault = IloError(message: string) | IloConnectionError(message: string)

  /** The ways a firmware update can fail. */
  datatype Failure =
    | HpsumOperationError(reason: string)
    | Ilo(fault: IloFault)
      /** The device name was never bound because no label matched. */
    | UnboundDeviceName

  /**
    How `processutils.execute` ends: normally, or by raising
    `ProcessExecutionError` with the exit code and the error's text.  With the
    default `check_exit_code` an exit code of 0 ends normally, so `Failed(0, _)`
    does not arise from a real run.
  */
  datatype ProcessOutcome = Completed | Failed(exitCode: int, detail: string)

  const ComponentFlag := " --c "
  const ExecutorErrorPrefix := "Unable to perform hpsum firmware update on the node. Error: "

  /** The components given one after the other, each preceded by the flag. */
  function Flagged(components: seq<string>): string
  {
    if components == [] then [] else ComponentFlag + components[0] + Flagged(components[1..])
  }

  /** `' --c ' + ' --c '.join(components) if components else ''`. */
  function CommandArg(components: Option<seq<string>>): string
  {
    match components
    case None => []
    case Some(cs) => if cs == [] then [] else ComponentFlag + Join(cs, ComponentFlag)
  }

  /** Putting the flag before the flag-separated join puts the flag before every component. */
  lemma {:induction false} FlagJoin(components: seq<string>)
    requires components != []
    ensures ComponentFlag + Join(components, ComponentFlag) == Flagged(components)
  {
    if |components| > 1 {
      FlagJoin(components[1..]);
      assert ComponentFlag + Join(components, ComponentFlag) ==
        ComponentFlag + components[0] + (ComponentFlag + Join(components[1..], ComponentFlag));
    }
  }

  /** The command argument is empty without components and otherwise is `" --c " + c` for each component, in order. */
  lemma CommandArgIsFlagged(components: Option<seq<string>>)
    ensures CommandArg(components) == if components.Some? then Flagged(components.value) else ""
  {
    if components.Some? && components.value != [] {
      FlagJoin(components.value);
    }
  }

  /** The arguments `processutils.execute` is given. */
  function HpsumArgs(hpsumFilePath: string, components: Option<seq<string>>): seq<string>
  {
    [hpsumFilePath, "--s", "--romonly", CommandArg(components)]
  }

  /**
    The executor's outcome: the function returns nothing (None) after a run
    that completes, returns the classification of a failed run's exit code
    when there is one, and raises otherwise.
  */
  function ExecutorResult(outcome: ProcessOutcome, log: Option<string>): (r: Result<Option<string>, Failure>)
    ensures r.Err? ==> r.error.HpsumOperationError?
  {
    match outcome
    case Completed => Ok(None)
    case Failed(code, detail) =>
      match Summary(code, log)
      case Some(summary) => Ok(Some(summary))
      case None => Err(HpsumOperationError(ExecutorErrorPrefix + detail))
  }

  /** `_execute_hpsum`: runs hpsum on the host, then classifies a failed run from the log the run left. */
  method ExecuteHpsum(host: Host, hpsumFilePath: string, components: Option<seq<string>>,
                      outcome: ProcessOutcome, log: Option<string>)
    returns (r: Result<Option<string>, Failure>)
    requires host.Valid()
    modifies host
    ensures host.Valid() && host.initial == old(host.initial) && host.State() == old(host.State())
    ensures host.trace == old(host.trace) + [RunHpsum(HpsumArgs(hpsumFilePath, components))]
    ensures r == ExecutorResult(outcome, log)
  {
    var cmd := if components.Some? && components.value != [] then ComponentFlag + Join(components.value, ComponentFlag) else "";
    host.Perform(RunHpsum([hpsumFilePath, "--s", "--romonly", cmd]));
    if outcome.Failed? {
      var result := ParseHpsumOutput(outcome.exitCode, log);
      ClassificationIsNonEmpty(outcome.exitCode, log);
      if result.Some? && result.value != [] {
        return Ok(result);
      } else {
        return Err(HpsumOperationError(ExecutorErrorPrefix + outcome.detail));
      }
    }
    return Ok(None);
  }

  /** A run that completes makes the executor return None. */
  lemma CompletedRunReturnsNothing(log: Option<string>)
    ensures ExecutorResult(Completed, log) == Ok(None)
  {
  }

  /**
    A failed run whose exit code is in the table is returned, not raised,
    as its classification; this includes code 253, "installation failed".
  */
  lemma ClassifiedRunIsReturned(code: int, detail: string, log: Option<string>)
    requires code in {0, 1, 3, 253}
    ensures Summary(code, log).Some?
    ensures ExecutorResult(Failed(code, detail), log) == Ok(Some(Summary(code, log).value))
  {
  }

  /** A failed run with any other exit code raises an `HpsumOperationError` carrying the process error's text. */
  lemma UnknownExitCodeRaises(code: int, detail: string, log: Option<string>)
    requires code !in {0, 1, 3, 253}
    ensures ExecutorResult(Failed(code, detail), log) ==
      Err(HpsumOperationError("Unable to perform hpsum firmware update on the node. Error: " + detail))
  {
  }
}

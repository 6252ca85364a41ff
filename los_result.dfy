// The figures the line-of-sight prediction derives from the parsed report and
// the request, and the ways that step fails.

module LosResult {
  import opened Text
  import opened Request
  import opened Report
  import opened Engine
  import opened SiteFiles

  /** Why the derivation raises: an arithmetic operand that is None, or a
      local variable read before any assignment. */
  datatype Fault = NoneOperand(operand: string) | Unbound(variable: string)

  /** The numbers the response carries beside the report. The received power
      is always present in a response: without it the response is never
      built. */
  datatype Powers = Powers(
    rxSignalPower: real, rxSignalPowerOptimized: real,
    pathLossRssi: Option<real>, lrItLossRssi: Option<real>)

  /** The link budget with a given path loss. */
  function Budget(r: LosRequest, txLoss: real, loss: real): real {
    r.txPower + r.txGain - txLoss - loss + r.rxGain - r.rxLoss
  }

  /** The budget for an optional loss: computed only when the loss is given,
      and failing when the transmitter loss was sent as null. */
  function RssiFor(r: LosRequest, loss: Option<real>): (v: Result<Option<real>, Fault>)
    ensures v.Success? <==> loss.None? || r.txLoss.Some?
    ensures v.Success? ==> (v.value.Some? <==> loss.Some?)
    ensures v.Success? && loss.Some? ==> v.value == Some(Budget(r, r.txLoss.value, loss.value))
  {
    if loss.None? then Success(None)
    else if r.txLoss.None? then Failure(NoneOperand("tx_loss"))
    else Success(Some(Budget(r, r.txLoss.value, loss.value)))
  }

  /** The three guarded computations, then the read of the optimized power
      when the response is assembled. It succeeds exactly when the report has
      a signal level, an obstructed path also has a distance, and a
      transmitter loss is given whenever a loss figure is used; the failure
      it reports is the first of these to be missed, in the order the source
      computes them. On success the received power is the signal level
      corrected by the receiver's gain and loss; the optimized power equals
      it on a clear path and adds 1.651 dB per unit of distance otherwise;
      each RSSI is present exactly when its loss figure is, and is the link
      budget with that loss. */
  function Derive(r: LosRequest, rep: Report): (res: Result<Powers, Fault>)
    ensures res.Success? <==>
              && rep.signal.Some?
              && (rep.pathObstruction ==> rep.distance.Some?)
              && (rep.freeSpaceLoss.Some? || rep.lrLoss.Some? ==> r.txLoss.Some?)
    ensures res.Failure? ==>
              res.error ==
                if rep.signal.Some? && rep.pathObstruction && rep.distance.None? then NoneOperand("distance")
                else if (rep.freeSpaceLoss.Some? || rep.lrLoss.Some?) && r.txLoss.None? then NoneOperand("tx_loss")
                else Unbound("rx_signal_power_optimized")
    ensures res.Success? ==>
              && res.value.rxSignalPower == rep.signal.value + r.rxGain - r.rxLoss
              && res.value.rxSignalPowerOptimized ==
                   (if rep.pathObstruction then res.value.rxSignalPower + 1.651 * rep.distance.value
                    else res.value.rxSignalPower)
              && (res.value.pathLossRssi.Some? <==> rep.freeSpaceLoss.Some?)
              && (res.value.lrItLossRssi.Some? <==> rep.lrLoss.Some?)
              && (rep.freeSpaceLoss.Some? ==>
                    res.value.pathLossRssi.value == Budget(r, r.txLoss.value, rep.freeSpaceLoss.value))
              && (rep.lrLoss.Some? ==>
                    res.value.lrItLossRssi.value == Budget(r, r.txLoss.value, rep.lrLoss.value))
  {
    var optimized: Result<Option<real>, Fault> :=
      if rep.signal.None? then Success(None)
      else
        var rx := rep.signal.value + r.rxGain - r.rxLoss;
        if !rep.pathObstruction then Success(Some(rx))
        else if rep.distance.None? then Failure(NoneOperand("distance"))
        else Success(Some(rx + 1.651 * rep.distance.value));
    if optimized.Failure? then Failure(optimized.error)
    else
      var pathLoss := RssiFor(r, rep.freeSpaceLoss);
      if pathLoss.Failure? then Failure(pathLoss.error)
      else
        var lrLoss := RssiFor(r, rep.lrLoss);
        if lrLoss.Failure? then Failure(lrLoss.error)
        else if optimized.value.None? then Failure(Unbound("rx_signal_power_optimized"))
        else Success(Powers(rep.signal.value + r.rxGain - r.rxLoss, optimized.value.value,
                            pathLoss.value, lrLoss.value))
  }

  /** On a valid request with a non-negative distance, the optimized figure
      never lies below the received power, and equals it exactly when the path
      is clear or the distance is zero. */
  lemma OptimizedNotBelow(r: LosRequest, rep: Report)
    requires Derive(r, rep).Success?
    requires rep.distance.Some? ==> rep.distance.value >= 0.0
    ensures var p := Derive(r, rep).value;
            p.rxSignalPowerOptimized >= p.rxSignalPower
    ensures var p := Derive(r, rep).value;
            p.rxSignalPowerOptimized == p.rxSignalPower <==> !rep.pathObstruction || rep.distance.value == 0.0
  {
  }

  /** Both RSSI figures share one budget, so they differ by exactly the
      difference of the two losses. */
  lemma RssiDifference(r: LosRequest, rep: Report)
    requires Derive(r, rep).Success?
    requires rep.freeSpaceLoss.Some? && rep.lrLoss.Some?
    ensures var p := Derive(r, rep).value;
            p.pathLossRssi.Some? && p.lrItLossRssi.Some?
            && p.pathLossRssi.value - p.lrItLossRssi.value == rep.lrLoss.value - rep.freeSpaceLoss.value
  {
  }

  /** The derivation from the request whose gains were adjusted succeeds
      under the same conditions as from the request as sent; the received
      power carries the adjusted receiver gain and each RSSI both adjusted
      gains. */
  lemma AdjustedFigures(r: LosRequest, rep: Report)
    ensures var res := Derive(Adjusted(r), rep);
            res.Success? <==>
              && rep.signal.Some?
              && (rep.pathObstruction ==> rep.distance.Some?)
              && (rep.freeSpaceLoss.Some? || rep.lrLoss.Some? ==> r.txLoss.Some?)
    ensures var res := Derive(Adjusted(r), rep);
            res.Success? ==>
              && res.value.rxSignalPower == rep.signal.value + AdjustGain(r.rxGain) - r.rxLoss
              && res.value.rxSignalPowerOptimized ==
                   (if rep.pathObstruction then res.value.rxSignalPower + 1.651 * rep.distance.value
                    else res.value.rxSignalPower)
              && (res.value.pathLossRssi.Some? <==> rep.freeSpaceLoss.Some?)
              && (res.value.lrItLossRssi.Some? <==> rep.lrLoss.Some?)
              && (rep.freeSpaceLoss.Some? ==>
                    res.value.pathLossRssi.value
                    == r.txPower + AdjustGain(r.txGain) - r.txLoss.value - rep.freeSpaceLoss.value
                       + AdjustGain(r.rxGain) - r.rxLoss)
              && (rep.lrLoss.Some? ==>
                    res.value.lrItLossRssi.value
                    == r.txPower + AdjustGain(r.txGain) - r.txLoss.value - rep.lrLoss.value
                       + AdjustGain(r.rxGain) - r.rxLoss)
  {
    var a := Adjusted(r);
    assert a.txLoss == r.txLoss && a.txPower == r.txPower && a.rxLoss == r.rxLoss;
    assert a.txGain == AdjustGain(r.txGain) && a.rxGain == AdjustGain(r.rxGain);
  }

  /** The whole prediction from the engine's report: the gains are adjusted
      in the request before anything else, the lines are parsed, and the
      figures are derived from the adjusted request. It succeeds under the
      same conditions as the derivation; the received power carries the
      adjusted receiver gain, the optimized power adds 1.651 dB per unit of
      distance on an obstructed path, and each RSSI carries both adjusted
      gains. */
  function Predict(r: LosRequest, lines: seq<string>): (res: Result<Powers, Fault>)
    ensures var rep := ReportOf(lines);
            res.Success? <==>
              && rep.signal.Some?
              && (rep.pathObstruction ==> rep.distance.Some?)
              && (rep.freeSpaceLoss.Some? || rep.lrLoss.Some? ==> r.txLoss.Some?)
    ensures var rep := ReportOf(lines);
            res.Success? ==>
              && res.value.rxSignalPower == rep.signal.value + AdjustGain(r.rxGain) - r.rxLoss
              && res.value.rxSignalPowerOptimized ==
                   (if rep.pathObstruction then res.value.rxSignalPower + 1.651 * rep.distance.value
                    else res.value.rxSignalPower)
              && (res.value.pathLossRssi.Some? <==> rep.freeSpaceLoss.Some?)
              && (res.value.lrItLossRssi.Some? <==> rep.lrLoss.Some?)
              && (rep.freeSpaceLoss.Some? ==>
                    res.value.pathLossRssi.value
                    == r.txPower + AdjustGain(r.txGain) - r.txLoss.value - rep.freeSpaceLoss.value
                       + AdjustGain(r.rxGain) - r.rxLoss)
              && (rep.lrLoss.Some? ==>
                    res.value.lrItLossRssi.value
                    == r.txPower + AdjustGain(r.txGain) - r.txLoss.value - rep.lrLoss.value
                       + AdjustGain(r.rxGain) - r.rxLoss)
  {
    var rep := ReportOf(lines);
    AdjustedFigures(r, rep);
    Derive(Adjusted(r), rep)
  }

  /** Against figures computed from the gains as sent, the adjustment lowers
      the received power by 2.15 dB when the receiver gain is non-zero, and
      each RSSI by 2.15 dB per non-zero gain. */
  lemma AdjustmentShift(r: LosRequest, lines: seq<string>)
    requires Predict(r, lines).Success?
    ensures var p := Predict(r, lines).value;
            var q := Derive(r, ReportOf(lines)).value;
            && Derive(r, ReportOf(lines)).Success?
            && p.rxSignalPower == q.rxSignalPower - (if r.rxGain != 0.0 then 2.15 else 0.0)
            && (p.pathLossRssi.Some? ==>
                  p.pathLossRssi.value == q.pathLossRssi.value
                    - (if r.txGain != 0.0 then 2.15 else 0.0) - (if r.rxGain != 0.0 then 2.15 else 0.0))
  {
  }

  /** The link prediction once its steps have run, in the order
      `los_prediction` takes them: the tile fill, the parameter file, the
      engine command, the engine run and the derivation. The first step to
      fail is re-raised behind LosPrefix with its own text as the cause.
      Python's text for formatting a missing field (noneFormat) and for a
      derivation fault (describe) are parameters. */
  function LosOutcome(fillError: Option<string>, pow10: real -> real, noneFormat: string,
                      command: Result<seq<Arg>, string>, run: Completed,
                      r: LosRequest, lines: seq<string>, describe: Fault -> string): (res: Result<Powers, string>)
    ensures res.Success? <==>
              && fillError.None? && LrpContents(LosLrp(r), pow10).Some? && command.Success?
              && run.returnCode == 0 && Predict(r, lines).Success?
    ensures res.Success? ==> res.value == Predict(r, lines).value
    ensures res.Failure? ==>
              CauseOf(LosPrefix, res.error) ==
                Some(if fillError.Some? then fillError.value
                     else if LrpContents(LosLrp(r), pow10).None? then noneFormat
                     else if command.Failure? then command.error
                     else if run.returnCode != 0 then RunFailure(run)
                     else describe(Predict(r, lines).error))
  {
    var lrp := LrpContents(LosLrp(r), pow10);
    var derived := Predict(r, lines);
    if fillError.Some? then LosFailure(fillError.value)
    else if lrp.None? then LosFailure(noneFormat)
    else if command.Failure? then LosFailure(command.error)
    else if run.returnCode != 0 then LosFailure(RunFailure(run))
    else if derived.Failure? then LosFailure(describe(derived.error))
    else Success(derived.value)
  }

  /** A cause re-raised by the link prediction: it reads back after
      LosPrefix. */
  function LosFailure(cause: string): (res: Result<Powers, string>)
    ensures res.Failure? && CauseOf(LosPrefix, res.error) == Some(cause)
  {
    ServiceErrorReadsBack(cause);
    Failure(ServiceError(LosPrefix, cause))
  }

  /** With the command as written, every link prediction whose tiles and
      parameter file are in place fails, and the surfaced error names the
      undeclared `itm_mode` attribute. */
  lemma LosOutcomeAsWritten(fillError: Option<string>, pow10: real -> real, noneFormat: string,
                            s: Setup, clutterHeight: real, run: Completed,
                            r: LosRequest, lines: seq<string>, describe: Fault -> string)
    ensures LosOutcome(fillError, pow10, noneFormat, LosCommandAsWritten(s, r, clutterHeight),
                       run, r, lines, describe).Failure?
    ensures fillError.None? && LrpContents(LosLrp(r), pow10).Some? ==>
              CauseOf(LosPrefix, LosOutcome(fillError, pow10, noneFormat, LosCommandAsWritten(s, r, clutterHeight),
                                            run, r, lines, describe).error)
              == Some(NoAttribute("itm_mode"))
  {
    LosCommandAsWrittenFails(s, Adjusted(r), clutterHeight);
    LosCommandAsWrittenFails(s, r, clutterHeight);
  }

  /** When the engine exits with a non-zero status, the surfaced error still
      carries that status, read back after both prefixes, and both captured
      streams. */
  lemma LosRunFailureSurfaces(fillError: Option<string>, pow10: real -> real, noneFormat: string,
                              command: Result<seq<Arg>, string>, run: Completed,
                              r: LosRequest, lines: seq<string>, describe: Fault -> string)
    requires fillError.None? && LrpContents(LosLrp(r), pow10).Some? && command.Success?
    requires run.returnCode != 0
    ensures var res := LosOutcome(fillError, pow10, noneFormat, command, run, r, lines, describe);
            && res.Failure?
            && CauseOf(LosPrefix, res.error).Some?
            && ReturnCodeOf(CauseOf(LosPrefix, res.error).value) == Some(run.returnCode)
            && Contains(CauseOf(LosPrefix, res.error).value, run.stdout)
            && Contains(CauseOf(LosPrefix, res.error).value, run.stderr)
  {
    RunFailureReturnCode(run);
    assert CheckRun(run).error == RunFailure(run);
  }

  /** The coverage prediction's failures up to its engine run, in the order
      `coverage_prediction` takes them: the tile fill, then the run; each is
      re-raised behind CoveragePrefix. */
  function CoverageFailure(fillError: Option<string>, run: Completed): (e: Option<string>)
    ensures e.None? <==> fillError.None? && run.returnCode == 0
    ensures e.Some? ==>
              CauseOf(CoveragePrefix, e.value) ==
                Some(if fillError.Some? then fillError.value else RunFailure(run))
    ensures e.Some? ==> CauseOf(LosPrefix, e.value).None?
  {
    ServiceErrorReadsBack(if fillError.Some? then fillError.value else RunFailure(run));
    if fillError.Some? then Some(ServiceError(CoveragePrefix, fillError.value))
    else
      match CheckRun(run)
      case Failure(e) => Some(ServiceError(CoveragePrefix, e))
      case Success(_) => None
  }

  /** A report without any signal-level line never produces a response: the
      optimized power is read while still unbound (unless an earlier guard
      already failed on a missing operand). */
  lemma {:induction false} NoSignalLineFails(r: LosRequest, lines: seq<string>)
    requires forall i :: 0 <= i < |lines| ==> SignalOf(lines[i]).None?
    ensures Predict(r, lines).Failure?
    ensures (ReportOf(lines).freeSpaceLoss.None? && ReportOf(lines).lrLoss.None?) || r.txLoss.Some? ==>
              Predict(r, lines).error == Unbound("rx_signal_power_optimized")
  {
    var fs := Facts(lines);
    FoldReadings(fs);
    var signals := Project(fs, SignalField);
    forall j | 0 <= j < |signals| ensures signals[j].None? {
      assert signals[j] == SignalField(fs[j]) && fs[j] == FactsAt(lines, j);
    }
    LastSomeIsLast(signals);
  }
}

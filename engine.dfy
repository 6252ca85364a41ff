/** The SPLAT! command lines for a line-of-sight and a coverage run, the gain
    adjustment made before a line-of-sight run, and the error raised when the
    engine exits with a non-zero status. */
module Engine {
  import opened Text
  import opened Request
  import opened Numbers
  import opened SiteFiles

  /** Antenna gains arrive in dBi; SPLAT! wants dBd. A gain of 0 means no
      antenna pattern and is left alone. */
  function AdjustGain(gain: real): (r: real)
    ensures r == 0.0 <==> gain == 0.0 || gain == 2.15
    ensures r == 0.0 || r == gain - 2.15
  {
    if gain != 0.0 then gain - 2.15 else 0.0
  }

  /** The adjustment is a fixed 2.15 dB offset except at 0, so it is not
      monotone: any gain in (0, 2.15) ends up below the gain 0. */
  lemma AdjustGainJumpAtZero(gain: real)
    requires 0.0 < gain < 2.15
    ensures AdjustGain(gain) < AdjustGain(0.0)
  {
  }

  /** The request as the rest of a line-of-sight run reads it: both gains
      adjusted in place, every other field as sent. */
  function Adjusted(r: LosRequest): LosRequest {
    r.(txGain := AdjustGain(r.txGain), rxGain := AdjustGain(r.rxGain))
  }

  /** The parameters a line-of-sight run writes to `splat.lrp`: those of the
      adjusted request. */
  function LosLrp(r: LosRequest): LrpParams {
    LosLrpParams(Adjusted(r))
  }

  /** The ERP line of a line-of-sight run's parameter file reads back as the
      power in watts of the ERP in dBm (tx_power plus the adjusted
      transmitter gain minus tx_loss), rounded to the two decimals it is printed with; the file exists
      exactly when every optional field is given. */
  lemma LosLrpErp(r: LosRequest, pow10: real -> real)
    ensures LrpContents(LosLrp(r), pow10).Some? <==>
              && r.groundDielectric.Some? && r.groundConductivity.Some? && r.atmosphereBending.Some?
              && r.situationFraction.Some? && r.timeFraction.Some? && r.txLoss.Some?
    ensures LrpContents(LosLrp(r), pow10).Some? ==>
              var lines := LinesOf(LrpContents(LosLrp(r), pow10).value);
              |lines| == 9
              && ParseFloat(FieldText(lines[8]))
                 == Some(RoundedFixed(ErpWatts(pow10, ErpDbm(r.txPower, AdjustGain(r.txGain), r.txLoss.value)), 2))
  {
    var p := LosLrp(r);
    assert p.txPower == r.txPower && p.txGain == AdjustGain(r.txGain) && p.txLoss == r.txLoss;
    if AllGiven(p) {
      ErpLineReadBack(p, pow10);
    }
  }

  /** The switches the service passes to SPLAT!; FlagName spells each one. */
  datatype Flag =
    | TxSite | RxSite | RxHeight | GroundClutter | TileDir | Frequency
    | NormalizedHeightGraph | GnuplotSave | Metric | OldItm
    | Range | SitesOnly | NoGraySites | NoLoss | Output | Dbm | Contour | Kml

  function FlagName(f: Flag): string {
    match f
    case TxSite => "-t"
    case RxSite => "-r"
    case RxHeight => "-L"
    case GroundClutter => "-gc"
    case TileDir => "-d"
    case Frequency => "-f"
    case NormalizedHeightGraph => "-H"
    case GnuplotSave => "-gpsav"
    case Metric => "-metric"
    case OldItm => "-olditm"
    case Range => "-R"
    case SitesOnly => "-sc"
    case NoGraySites => "-ngs"
    case NoLoss => "-N"
    case Output => "-o"
    case Dbm => "-dbm"
    case Contour => "-db"
    case Kml => "-kml"
  }

  /** An argument: a switch, a literal, or str() of a number followed by a
      suffix. The shortest round-trip rendering Python gives a float is not
      spelled out; the number is kept. */
  datatype Arg = Opt(flag: Flag) | Lit(s: string) | Num(v: real, suffix: string)

  /** The argument as the process receives it, given a rendering for numbers. */
  function ArgText(a: Arg, render: real -> string): string {
    match a
    case Opt(f) => FlagName(f)
    case Lit(s) => s
    case Num(v, suffix) => render(v) + suffix
  }

  /** The files the commands name. */
  const TxQth := "tx.qth"
  const RxQth := "rx.qth"
  const HeightGraph := "normalized_terrain_height_graph.png"
  const CoverageImage := "output.ppm"

  /** The configured executables and terrain-tile directory. */
  datatype Setup = Setup(splat: string, splatHd: string, tileCache: string)

  /** The executable: the high-definition build iff 1-arc-second tiles were asked for. */
  function Binary(s: Setup, hd: bool): (bin: string)
    ensures hd ==> bin == s.splatHd
    ensures !hd ==> bin == s.splat
  {
    if hd then s.splatHd else s.splat
  }

  /** The last argument: "-olditm" selects the older ITM model; without it the
      argument is an empty string. */
  function ItmArg(itm: bool): Arg {
    if itm then Opt(OldItm) else Lit("")
  }

  /** The line-of-sight command. */
  function LosCommand(s: Setup, clutterHeight: real, frequencyMhz: real, hd: bool, itm: bool): seq<Arg> {
    [Lit(Binary(s, hd)), Opt(TxSite), Lit(TxQth), Opt(RxSite), Lit(RxQth),
     Opt(GroundClutter), Num(clutterHeight, ""), Opt(TileDir), Lit(s.tileCache),
     Opt(Frequency), Num(frequencyMhz, "M"),
     Opt(NormalizedHeightGraph), Lit(HeightGraph),
     Opt(GnuplotSave), Opt(Metric), ItmArg(itm)]
  }

  /** The coverage command. */
  function CoverageCommand(s: Setup, rxHeight: real, radius: real, clutterHeight: real,
                           minDbm: real, hd: bool, itm: bool): seq<Arg> {
    [Lit(Binary(s, hd)), Opt(TxSite), Lit(TxQth), Opt(RxHeight), Num(rxHeight, ""),
     Opt(TileDir), Lit(s.tileCache), Opt(Metric), Opt(Range), Num(radius, ""),
     Opt(SitesOnly), Opt(GroundClutter), Num(clutterHeight, ""), Opt(NoGraySites), Opt(NoLoss),
     Opt(Output), Lit(CoverageImage), Opt(Dbm), Opt(Contour), Num(minDbm, ""),
     Opt(Kml), ItmArg(itm)]
  }

  /** How SPLAT! reads its command line: the value of a switch is the
      argument right after the switch's first occurrence. */
  predicate Passes(args: seq<Arg>, f: Flag, v: Arg) {
    exists i :: 0 <= i < |args| - 1 && FirstFlag(args, f, i) && args[i + 1] == v
  }

  /** The switch occurs at i and nowhere before. */
  predicate FirstFlag(args: seq<Arg>, f: Flag, i: int) {
    0 <= i < |args| && args[i] == Opt(f) && forall j :: 0 <= j < i ==> args[j] != Opt(f)
  }

  /** A switch is given when it occurs anywhere. */
  predicate Given(args: seq<Arg>, f: Flag) {
    Opt(f) in args
  }

  lemma PassesAt(args: seq<Arg>, f: Flag, i: nat)
    requires i < |args| - 1 && args[i] == Opt(f)
    requires forall j :: 0 <= j < i ==> args[j] != Opt(f)
    ensures Passes(args, f, args[i + 1])
  {
    assert FirstFlag(args, f, i);
  }

  lemma LosSites(s: Setup, clutterHeight: real, frequencyMhz: real, hd: bool, itm: bool)
    ensures var args := LosCommand(s, clutterHeight, frequencyMhz, hd, itm);
      Passes(args, TxSite, Lit(TxQth)) && Passes(args, RxSite, Lit(RxQth))
  {
    var args := LosCommand(s, clutterHeight, frequencyMhz, hd, itm);
    PassesAt(args, TxSite, 1);
    PassesAt(args, RxSite, 3);
  }

  lemma LosValues(s: Setup, clutterHeight: real, frequencyMhz: real, hd: bool, itm: bool)
    ensures var args := LosCommand(s, clutterHeight, frequencyMhz, hd, itm);
      Passes(args, GroundClutter, Num(clutterHeight, "")) && Passes(args, TileDir, Lit(s.tileCache))
  {
    var args := LosCommand(s, clutterHeight, frequencyMhz, hd, itm);
    PassesAt(args, GroundClutter, 5);
    PassesAt(args, TileDir, 7);
  }

  lemma LosFrequency(s: Setup, clutterHeight: real, frequencyMhz: real, hd: bool, itm: bool)
    ensures Passes(LosCommand(s, clutterHeight, frequencyMhz, hd, itm), Frequency, Num(frequencyMhz, "M"))
  {
    PassesAt(LosCommand(s, clutterHeight, frequencyMhz, hd, itm), Frequency, 9);
  }

  lemma LosSwitches(s: Setup, clutterHeight: real, frequencyMhz: real, hd: bool, itm: bool)
    ensures var args := LosCommand(s, clutterHeight, frequencyMhz, hd, itm);
      Given(args, GnuplotSave) && Given(args, Metric) && (Given(args, OldItm) <==> itm)
  {
    var args := LosCommand(s, clutterHeight, frequencyMhz, hd, itm);
    assert args[13] == Opt(GnuplotSave) && args[14] == Opt(Metric);
    assert itm ==> args[15] == Opt(OldItm);
  }

  /** The line-of-sight command names both site files, and passes the clutter
      height, the tile directory and the frequency in MHz to their switches;
      the high-definition binary runs iff `hd`, and "-olditm" is given iff `itm`. */
  lemma LosCommandReadsBack(s: Setup, clutterHeight: real, frequencyMhz: real, hd: bool, itm: bool)
    ensures var args := LosCommand(s, clutterHeight, frequencyMhz, hd, itm);
      && args[0] == Lit(if hd then s.splatHd else s.splat)
      && Passes(args, TxSite, Lit(TxQth)) && Passes(args, RxSite, Lit(RxQth))
      && Passes(args, GroundClutter, Num(clutterHeight, "")) && Passes(args, TileDir, Lit(s.tileCache))
      && Passes(args, Frequency, Num(frequencyMhz, "M"))
      && Given(args, GnuplotSave) && Given(args, Metric)
      && (Given(args, OldItm) <==> itm)
  {
    LosSites(s, clutterHeight, frequencyMhz, hd, itm);
    LosValues(s, clutterHeight, frequencyMhz, hd, itm);
    LosFrequency(s, clutterHeight, frequencyMhz, hd, itm);
    LosSwitches(s, clutterHeight, frequencyMhz, hd, itm);
  }

  lemma CoverageSiteAndHeight(s: Setup, rxHeight: real, radius: real, clutterHeight: real,
                              minDbm: real, hd: bool, itm: bool)
    ensures var args := CoverageCommand(s, rxHeight, radius, clutterHeight, minDbm, hd, itm);
      Passes(args, TxSite, Lit(TxQth)) && Passes(args, RxHeight, Num(rxHeight, ""))
  {
    var args := CoverageCommand(s, rxHeight, radius, clutterHeight, minDbm, hd, itm);
    PassesAt(args, TxSite, 1);
    PassesAt(args, RxHeight, 3);
  }

  lemma CoverageTilesAndRange(s: Setup, rxHeight: real, radius: real, clutterHeight: real,
                              minDbm: real, hd: bool, itm: bool)
    ensures var args := CoverageCommand(s, rxHeight, radius, clutterHeight, minDbm, hd, itm);
      Passes(args, TileDir, Lit(s.tileCache)) && Passes(args, Range, Num(radius, ""))
  {
    var args := CoverageCommand(s, rxHeight, radius, clutterHeight, minDbm, hd, itm);
    PassesAt(args, TileDir, 5);
    PassesAt(args, Range, 8);
  }

  lemma CoverageClutterAndOutput(s: Setup, rxHeight: real, radius: real, clutterHeight: real,
                                 minDbm: real, hd: bool, itm: bool)
    ensures var args := CoverageCommand(s, rxHeight, radius, clutterHeight, minDbm, hd, itm);
      Passes(args, GroundClutter, Num(clutterHeight, "")) && Passes(args, Output, Lit(CoverageImage))
  {
    var args := CoverageCommand(s, rxHeight, radius, clutterHeight, minDbm, hd, itm);
    PassesAt(args, GroundClutter, 11);
    PassesAt(args, Output, 15);
  }

  lemma CoverageContour(s: Setup, rxHeight: real, radius: real, clutterHeight: real,
                        minDbm: real, hd: bool, itm: bool)
    ensures Passes(CoverageCommand(s, rxHeight, radius, clutterHeight, minDbm, hd, itm), Contour, Num(minDbm, ""))
  {
    PassesAt(CoverageCommand(s, rxHeight, radius, clutterHeight, minDbm, hd, itm), Contour, 18);
  }

  lemma CoverageSwitches(s: Setup, rxHeight: real, radius: real, clutterHeight: real,
                         minDbm: real, hd: bool, itm: bool)
    ensures var args := CoverageCommand(s, rxHeight, radius, clutterHeight, minDbm, hd, itm);
      Given(args, Metric) && Given(args, Kml) && Given(args, Dbm) && (Given(args, OldItm) <==> itm)
  {
    var args := CoverageCommand(s, rxHeight, radius, clutterHeight, minDbm, hd, itm);
    assert args[7] == Opt(Metric) && args[17] == Opt(Dbm) && args[20] == Opt(Kml);
    assert itm ==> args[21] == Opt(OldItm);
  }

  /** The coverage command passes the receiver height, the radius, the
      clutter height and the weakest signal to draw to their switches, writes
      output.ppm, and gives "-olditm" iff `itm`. */
  lemma CoverageCommandReadsBack(s: Setup, rxHeight: real, radius: real, clutterHeight: real,
                                 minDbm: real, hd: bool, itm: bool)
    ensures var args := CoverageCommand(s, rxHeight, radius, clutterHeight, minDbm, hd, itm);
      && args[0] == Lit(if hd then s.splatHd else s.splat)
      && Passes(args, TxSite, Lit(TxQth)) && Passes(args, RxHeight, Num(rxHeight, ""))
      && Passes(args, TileDir, Lit(s.tileCache)) && Passes(args, Range, Num(radius, ""))
      && Passes(args, GroundClutter, Num(clutterHeight, "")) && Passes(args, Output, Lit(CoverageImage))
      && Passes(args, Contour, Num(minDbm, ""))
      && Given(args, Metric) && Given(args, Kml) && Given(args, Dbm)
      && (Given(args, OldItm) <==> itm)
  {
    CoverageSiteAndHeight(s, rxHeight, radius, clutterHeight, minDbm, hd, itm);
    CoverageTilesAndRange(s, rxHeight, radius, clutterHeight, minDbm, hd, itm);
    CoverageClutterAndOutput(s, rxHeight, radius, clutterHeight, minDbm, hd, itm);
    CoverageContour(s, rxHeight, radius, clutterHeight, minDbm, hd, itm);
    CoverageSwitches(s, rxHeight, radius, clutterHeight, minDbm, hd, itm);
  }

  /** The line-of-sight command as written: the ITM switch is read from an
      attribute named "itm_mode", which the request does not have. */
  function LosCommandAsWritten(s: Setup, r: LosRequest, clutterHeight: real): Result<seq<Arg>, string> {
    match BoolAttribute(r, "itm_mode")
    case Failure(e) => Failure(e)
    case Success(itm) => Success(LosCommand(s, clutterHeight, r.frequencyMhz, r.highResolution, itm))
  }

  /** Every line-of-sight request fails while its command is assembled. */
  lemma LosCommandAsWrittenFails(s: Setup, r: LosRequest, clutterHeight: real)
    ensures LosCommandAsWritten(s, r, clutterHeight)
            == Failure(NoAttribute("itm_mode"))
  {
    assert |"itm_mode"| != |"itm_model"| && |"itm_mode"| != |"high_resolution"|;
  }

  /** The corrected line-of-sight command reads the request's own switch. */
  function LosCommandFor(s: Setup, r: LosRequest): Result<seq<Arg>, string> {
    match BoolAttribute(r, "itm_model")
    case Failure(e) => Failure(e)
    case Success(itm) => Success(LosCommand(s, r.clutterHeight, r.frequencyMhz, r.highResolution, itm))
  }

  /** It always succeeds, and "-olditm" is given iff the request asks for the
      ITM model. */
  lemma LosCommandForItm(s: Setup, r: LosRequest)
    ensures LosCommandFor(s, r).Success?
    ensures Given(LosCommandFor(s, r).value, OldItm) <==> r.itmModel
    ensures Passes(LosCommandFor(s, r).value, GroundClutter, Num(r.clutterHeight, ""))
  {
    LosCommandReadsBack(s, r.clutterHeight, r.frequencyMhz, r.highResolution, r.itmModel);
  }

  /** What subprocess.run reports back. */
  datatype Completed = Completed(returnCode: int, stdout: string, stderr: string)

  const FailurePrefix := "SPLAT! execution failed with return code "

  function RunFailure(c: Completed): string {
    FailurePrefix + IntToString(c.returnCode) + "\nStdout: " + c.stdout + "\nStderr: " + c.stderr
  }

  /** A run succeeds iff its exit status is 0; otherwise the error carries the
      status and both captured streams. */
  function CheckRun(c: Completed): (r: Result<Completed, string>)
    ensures r.Success? <==> c.returnCode == 0
    ensures r.Success? ==> r.value == c
    ensures r.Failure? ==>
              StartsWith(r.error, FailurePrefix) && Contains(r.error, c.stdout) && Contains(r.error, c.stderr)
  {
    if c.returnCode != 0 then
      var head := FailurePrefix + IntToString(c.returnCode) + "\nStdout: ";
      ContainsConcat(head, c.stdout, "\nStderr: " + c.stderr);
      assert RunFailure(c) == head + c.stdout + ("\nStderr: " + c.stderr);
      ContainsConcat(head + c.stdout + "\nStderr: ", c.stderr, "");
      assert RunFailure(c) == head + c.stdout + "\nStderr: " + c.stderr + "";
      Failure(RunFailure(c))
    else Success(c)
  }

  /** Python int() of an optionally signed digit string. */
  function ParseInt(s: string): (r: Option<int>)
    ensures r.Some? ==> s != []
  {
    if s != [] && s[0] == '-' then
      match ParseNat(s[1..])
      case None => None
      case Some(n) => Some(-(n as int))
    else
      match ParseNat(s)
      case None => None
      case Some(n) => Some(n as int)
  }

  /** int() reads the decimal text of any integer back as it, and that
      text holds no newline. */
  lemma IntStringReadsBack(i: int)
    ensures ParseInt(IntToString(i)) == Some(i)
    ensures '\n' !in IntToString(i)
  {
    if i < 0 {
      NatStringReadsBack(-i);
      var s := IntToString(i);
      assert s == "-" + NatToString(-i);
      assert s[1..] == NatToString(-i);
    } else {
      NatStringReadsBack(i);
      var s := NatToString(i);
      assert IntToString(i) == s;
      assert IsDigit(s[0]);
    }
  }

  /** The exit status, read back from the first line of the error. */
  function ReturnCodeOf(message: string): Option<int> {
    if StartsWith(message, FailurePrefix) then
      var rest := message[|FailurePrefix|..];
      ParseInt(rest[..IndexOfChar(rest, '\n')])
    else None
  }

  /** The error names the exit status it was raised for. */
  lemma RunFailureReturnCode(c: Completed)
    ensures ReturnCodeOf(RunFailure(c)) == Some(c.returnCode)
  {
    var code := IntToString(c.returnCode);
    var tail := "\nStdout: " + c.stdout + "\nStderr: " + c.stderr;
    assert RunFailure(c) == FailurePrefix + (code + tail);
    IntStringReadsBack(c.returnCode);
    ReturnCodeOfPrefixed(code, tail, c.returnCode);
  }

  /** The status is read back from any numeral without a newline that the
      prefix comes before and a newline comes after. */
  lemma ReturnCodeOfPrefixed(code: string, tail: string, i: int)
    requires ParseInt(code) == Some(i) && '\n' !in code
    requires tail != [] && tail[0] == '\n'
    ensures ReturnCodeOf(FailurePrefix + (code + tail)) == Some(i)
  {
    var m := FailurePrefix + (code + tail);
    assert m[..|FailurePrefix|] == FailurePrefix;
    assert m[|FailurePrefix|..] == code + tail;
    IndexOfCharConcat(code, tail, '\n');
    assert (code + tail)[..|code|] == code;
  }

  /** The prefixes the two prediction services put before the cause of a
      failure they re-raise. */
  const LosPrefix := "Error during LOS prediction: "
  const CoveragePrefix := "Error during coverage prediction: "

  /** A re-raised failure: the service's prefix, then the cause unchanged. */
  function ServiceError(prefix: string, cause: string): (e: string)
    ensures StartsWith(e, prefix) && e[|prefix|..] == cause
    ensures |e| == |prefix| + |cause|
  {
    prefix + cause
  }

  /** The cause a re-raised failure carries: the text after the service's
      prefix, or nothing when the message does not start with it. */
  function CauseOf(prefix: string, message: string): Option<string> {
    if StartsWith(message, prefix) then Some(message[|prefix|..]) else None
  }

  /** The cause reads back after its own service's prefix, and the other
      service's prefix does not read it: the failures of the two services are
      told apart by their first words. */
  lemma ServiceErrorReadsBack(cause: string)
    ensures CauseOf(LosPrefix, ServiceError(LosPrefix, cause)) == Some(cause)
    ensures CauseOf(CoveragePrefix, ServiceError(CoveragePrefix, cause)) == Some(cause)
    ensures CauseOf(CoveragePrefix, ServiceError(LosPrefix, cause)) == None
    ensures CauseOf(LosPrefix, ServiceError(CoveragePrefix, cause)) == None
  {
    var los := ServiceError(LosPrefix, cause);
    var coverage := ServiceError(CoveragePrefix, cause);
    assert los[13] == 'L' != CoveragePrefix[13];
    assert coverage[13] == 'c' != LosPrefix[13];
  }
}

/** The two text files written for every run of the engine: the site file
    (.qth) and the propagation parameter file (.lrp). */
module SiteFiles {
  import opened Text
  import opened Numbers
  import opened Request

  /** SPLAT! counts longitude westwards: |lon| for western longitudes, 360 - lon
      for eastern ones. */
  function WestPositive(lon: real): (w: real)
    ensures -180.0 <= lon <= 180.0 ==> 0.0 < w <= 360.0
  {
    if lon < 0.0 then -lon else 360.0 - lon
  }

  /** The correction the report parser applies to a west-positive longitude. */
  function EastFromWest(v: real): real {
    if v > 180.0 then 360.0 - v else -v
  }

  /** The report's correction undoes the site-file encoding everywhere except
      on the antimeridian itself, where 180 comes back as -180. */
  lemma EastFromWestInverts(lon: real)
    requires -180.0 <= lon < 180.0
    ensures EastFromWest(WestPositive(lon)) == lon
  {
  }

  /** A longitude on whole hundredths is printed westwards on whole hundredths. */
  lemma WestPositiveOnHundredths(lon: real)
    requires OnHundredths(lon)
    ensures OnHundredths(WestPositive(lon))
  {
    OnHundredthsShift(lon, 360);
  }

  lemma EastFromWestAntimeridian()
    ensures EastFromWest(WestPositive(180.0)) == -180.0
  {
  }

  /** The four lines of a .qth file. */
  function QthLines(name: string, lat: real, lon: real, elevation: real): seq<string> {
    [name, FormatFixed(lat, 6), FormatFixed(WestPositive(lon), 6), FormatFixed(elevation, 2) + "m"]
  }

  /** `_create_splat_qth`: name, latitude, west-positive longitude and height
      in metres, each on its own line. */
  function QthContents(name: string, lat: real, lon: real, elevation: real): string {
    JoinLines(QthLines(name, lat, lon, elevation))
  }

  lemma NoNewline(s: string)
    requires AllNumeralChars(s)
    ensures '\n' !in s
  {
  }

  lemma {:induction false} LinesOfFour(a: string, b: string, c: string, d: string)
    requires '\n' !in a && '\n' !in b && '\n' !in c && '\n' !in d
    ensures LinesOf(JoinLines([a, b, c, d])) == [a, b, c, d]
  {
    LinesOfJoinLines([a, b, c, d]);
  }

  lemma FixedHasNoNewline(x: real, places: nat)
    ensures '\n' !in FormatFixed(x, places) && '\n' !in FormatFixed(x, places) + "m"
  {
    FormatFixedChars(x, places);
    NoNewline(FormatFixed(x, places));
  }

  /** Reading the site file back line by line gives the site name, the
      latitude and the west-positive longitude as printed with six decimals,
      and the height with two. */
  lemma QthReadBack(name: string, lat: real, lon: real, elevation: real)
    requires '\n' !in name
    ensures var lines := LinesOf(QthContents(name, lat, lon, elevation));
            lines == QthLines(name, lat, lon, elevation)
            && ParseFloat(lines[1]) == Some(RoundedFixed(lat, 6))
            && ParseFloat(lines[2]) == Some(RoundedFixed(WestPositive(lon), 6))
            && ParseFloat(lines[3][..|lines[3]| - 1]) == Some(RoundedFixed(elevation, 2))
  {
    var a, b, c := FormatFixed(lat, 6), FormatFixed(WestPositive(lon), 6), FormatFixed(elevation, 2);
    FixedHasNoNewline(lat, 6);
    FixedHasNoNewline(WestPositive(lon), 6);
    FixedHasNoNewline(elevation, 2);
    LinesOfFour(name, a, b, c + "m");
    ParseFormatFixed(lat, 6);
    ParseFormatFixed(WestPositive(lon), 6);
    ParseFormatFixed(elevation, 2);
    assert (c + "m")[..|c + "m"| - 1] == c;
  }

  /** The propagation parameters as handed to `_create_splat_lrp`; the
      Optional request fields may be null. */
  datatype LrpParams = LrpParams(
    groundDielectric: Option<real>, groundConductivity: Option<real>,
    atmosphereBending: Option<real>, frequencyMhz: real,
    radioClimate: Climate, polarization: Polarization,
    situationFraction: Option<real>, timeFraction: Option<real>,
    txPower: real, txGain: real, txLoss: Option<real>)

  predicate AllGiven(p: LrpParams) {
    p.groundDielectric.Some? && p.groundConductivity.Some? && p.atmosphereBending.Some?
    && p.situationFraction.Some? && p.timeFraction.Some? && p.txLoss.Some?
  }

  /** Effective radiated power in dBm. */
  function ErpDbm(txPower: real, txGain: real, txLoss: real): real {
    txPower + txGain - txLoss
  }

  /** The power in watts, 10 ** ((dBm - 30) / 10), with the power of ten
      given as a parameter. */
  function ErpWatts(pow10: real -> real, erpDbm: real): real {
    pow10((erpDbm - 30.0) / 10.0)
  }

  /** A value as the file prints it: a real with a number of decimals, or a
      small integer code. */
  datatype Printed = Fixed(x: real, places: nat) | Code(n: nat)

  function PrintedText(v: Printed): string {
    match v
    case Fixed(x, places) => FormatFixed(x, places)
    case Code(n) => NatToString(n)
  }

  /** The value a reader gets back from the printed text. */
  function PrintedValue(v: Printed): real {
    match v
    case Fixed(x, places) => RoundedFixed(x, places)
    case Code(n) => n as real
  }

  /** One line of the file: the value, the blanks before ';', and the comment
      SPLAT! ignores. */
  datatype Field = Field(value: Printed, pad: string, comment: string)

  function LrpLine(f: Field): string {
    PrintedText(f.value) + f.pad + "; " + f.comment
  }

  /** The comments of the nine lines. */
  const DielectricComment: string := "Earth Dielectric Constant"
  const ConductivityComment: string := "Earth Conductivity"
  const BendingComment: string := "Atmospheric Bending Constant"
  const FrequencyComment: string := "Frequency in MHz"
  const ClimateComment: string := "Radio Climate"
  const PolarizationComment: string := "Polarization"
  const SituationsComment: string := "Fraction of situations"
  const TimeComment: string := "Fraction of time"
  const ErpComment: string := "ERP in Watts"

  lemma CommentsHaveNoNewlineA()
    ensures '\n' !in DielectricComment && '\n' !in ConductivityComment && '\n' !in BendingComment
  {
  }

  lemma CommentsHaveNoNewlineB()
    ensures '\n' !in FrequencyComment && '\n' !in ClimateComment && '\n' !in PolarizationComment
  {
  }

  lemma CommentsHaveNoNewlineC()
    ensures '\n' !in SituationsComment && '\n' !in TimeComment && '\n' !in ErpComment
  {
  }

  /** The nine lines' fields, in file order. */
  function LrpFields(p: LrpParams, pow10: real -> real): (fields: seq<Field>)
    requires AllGiven(p)
    ensures |fields| == 9
  {
    var erp := ErpDbm(p.txPower, p.txGain, p.txLoss.value);
    [ Field(Fixed(p.groundDielectric.value, 3), "  ", DielectricComment),
      Field(Fixed(p.groundConductivity.value, 6), "  ", ConductivityComment),
      Field(Fixed(p.atmosphereBending.value, 3), "  ", BendingComment),
      Field(Fixed(p.frequencyMhz, 3), "  ", FrequencyComment),
      Field(Code(ClimateCode(p.radioClimate)), "  ", ClimateComment),
      Field(Code(PolarizationCode(p.polarization)), "  ", PolarizationComment),
      Field(Fixed(p.situationFraction.value / 100.0, 2), " ", SituationsComment),
      Field(Fixed(p.timeFraction.value / 100.0, 2), "  ", TimeComment),
      Field(Fixed(ErpWatts(pow10, erp), 2), "  ", ErpComment) ]
  }

  function LinesOfFields(fields: seq<Field>): (lines: seq<string>)
    ensures |lines| == |fields|
  {
    seq(|fields|, i requires 0 <= i < |fields| => LrpLine(fields[i]))
  }

  /** `_create_splat_lrp`; None where a null field makes the arithmetic or the
      formatting raise. */
  function LrpContents(p: LrpParams, pow10: real -> real): (r: Option<string>)
    ensures r.Some? <==> AllGiven(p)
  {
    if AllGiven(p) then Some(JoinLines(LinesOfFields(LrpFields(p, pow10)))) else None
  }

  /** The text of a line before its ';', without the blanks around it. */
  function FieldText(line: string): string {
    Strip(line[..IndexOfChar(line, ';')])
  }

  /** A layout SPLAT! can read: one or two blanks before ';', no newline. */
  predicate WellFormed(f: Field) {
    (f.pad == " " || f.pad == "  ") && '\n' !in f.comment
  }

  lemma NoSemicolon(s: string)
    requires AllNumeralChars(s)
    ensures ';' !in s
  {
  }

  /** A printed value is a non-empty numeral that float() reads back as the
      value. */
  lemma PrintedReadBack(v: Printed)
    ensures var t := PrintedText(v);
            t != [] && AllNumeralChars(t) && !IsSpace(t[0]) && !IsSpace(t[|t| - 1])
            && ParseFloat(t) == Some(PrintedValue(v))
  {
    match v
    case Fixed(x, places) =>
      FormatFixedChars(x, places);
      ParseFormatFixed(x, places);
    case Code(n) =>
      assert AllNumeralChars(NatToString(n));
      ParseNatString(n);
  }

  lemma SemicolonAfterPad(text: string, pad: string, comment: string)
    requires AllNumeralChars(text) && (pad == " " || pad == "  ")
    ensures IndexOfChar(text + pad + "; " + comment, ';') == |text| + |pad|
  {
    var rest := pad + ("; " + comment);
    assert text + pad + "; " + comment == text + rest;
    NoSemicolon(text);
    IndexOfCharConcat(text, rest, ';');
    IndexOfCharConcat(pad, "; " + comment, ';');
  }

  lemma TextLineField(text: string, pad: string, comment: string)
    requires text != [] && AllNumeralChars(text) && !IsSpace(text[0]) && !IsSpace(text[|text| - 1])
    requires pad == " " || pad == "  "
    ensures FieldText(text + pad + "; " + comment) == text
  {
    var line := text + pad + "; " + comment;
    SemicolonAfterPad(text, pad, comment);
    assert line[..|text| + |pad|] == text + pad;
    StripPadded(text, pad);
  }

  lemma TextLineNoNewline(text: string, pad: string, comment: string)
    requires AllNumeralChars(text) && (pad == " " || pad == "  ") && '\n' !in comment
    ensures '\n' !in text + pad + "; " + comment
  {
    NoNewline(text);
    assert '\n' !in pad + "; ";
  }

  lemma LrpLineField(f: Field)
    requires WellFormed(f)
    ensures ParseFloat(FieldText(LrpLine(f))) == Some(PrintedValue(f.value))
    ensures '\n' !in LrpLine(f)
  {
    PrintedReadBack(f.value);
    TextLineField(PrintedText(f.value), f.pad, f.comment);
    TextLineNoNewline(PrintedText(f.value), f.pad, f.comment);
  }

  /** A file of well-formed fields splits back into its lines, and each line's
      text before ';' reads back as its field's value. */
  lemma FieldsReadBack(fields: seq<Field>)
    requires forall i :: 0 <= i < |fields| ==> WellFormed(fields[i])
    ensures var lines := LinesOf(JoinLines(LinesOfFields(fields)));
            |lines| == |fields|
            && forall i :: 0 <= i < |fields| ==> ParseFloat(FieldText(lines[i])) == Some(PrintedValue(fields[i].value))
  {
    var lines := LinesOfFields(fields);
    forall i | 0 <= i < |fields|
      ensures lines[i] == LrpLine(fields[i])
    {
    }
    forall i | 0 <= i < |fields|
      ensures ParseFloat(FieldText(lines[i])) == Some(PrintedValue(fields[i].value)) && '\n' !in lines[i]
    {
      LrpLineField(fields[i]);
    }
    LinesOfJoinLines(lines);
  }

  /** The parameter file has nine lines; each one's text before the ';' reads
      back as its field's value: the fractions as the percentages over 100 and
      every real rounded to the decimals it is printed with. */
  lemma LrpReadBack(p: LrpParams, pow10: real -> real)
    requires AllGiven(p)
    ensures var lines := LinesOf(LrpContents(p, pow10).value);
            var fields := LrpFields(p, pow10);
            |lines| == 9
            && forall i :: 0 <= i < 9 ==> ParseFloat(FieldText(lines[i])) == Some(PrintedValue(fields[i].value))
  {
    var fields := LrpFields(p, pow10);
    CommentsHaveNoNewlineA();
    CommentsHaveNoNewlineB();
    CommentsHaveNoNewlineC();
    assert WellFormed(fields[0]) && WellFormed(fields[1]) && WellFormed(fields[2]);
    assert WellFormed(fields[3]) && WellFormed(fields[4]) && WellFormed(fields[5]);
    assert WellFormed(fields[6]) && WellFormed(fields[7]) && WellFormed(fields[8]);
    FieldsReadBack(fields);
  }

  /** The last line of the parameter file reads back as the ERP in watts,
      rounded to two decimals. */
  lemma ErpLineReadBack(p: LrpParams, pow10: real -> real)
    requires AllGiven(p)
    ensures var lines := LinesOf(LrpContents(p, pow10).value);
            |lines| == 9
            && ParseFloat(FieldText(lines[8]))
               == Some(RoundedFixed(ErpWatts(pow10, ErpDbm(p.txPower, p.txGain, p.txLoss.value)), 2))
  {
    LrpReadBack(p, pow10);
    var fields := LrpFields(p, pow10);
    assert fields[8].value == Fixed(ErpWatts(pow10, ErpDbm(p.txPower, p.txGain, p.txLoss.value)), 2);
  }

  /** With a monotone power of ten, more transmit power or gain, or less loss,
      never lowers the ERP written to the file. */
  lemma ErpWattsMonotone(pow10: real -> real, a: real, b: real)
    requires forall u, v :: u <= v ==> pow10(u) <= pow10(v)
    requires a <= b
    ensures ErpWatts(pow10, a) <= ErpWatts(pow10, b)
  {
  }

  /** The parameters a line-of-sight request hands to the builder, read from
      the request as it stands when the file is written. */
  function LosLrpParams(r: LosRequest): LrpParams {
    LrpParams(r.groundDielectric, r.groundConductivity, r.atmosphereBending, r.frequencyMhz,
              r.radioClimate, r.polarization, r.situationFraction, r.timeFraction,
              r.txPower, r.txGain, r.txLoss)
  }
}

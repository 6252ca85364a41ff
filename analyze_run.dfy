// The helpers of the measurement-analysis script: reading optional numbers
// and booleans out of CSV cells, the duration shown in progress lines, and
// the obstruction bucket each prediction is counted in.

module AnalyzeRun {
  import opened Text
  import opened Numbers

  /** The Python values a CSV cell or a JSON field can hold here. */
  datatype PyValue = PyNone | PyBool(b: bool) | PyInt(i: int) | PyFloat(x: real) | PyStr(s: string)

  /** str() of a bool. */
  function BoolText(b: bool): string { if b then "True" else "False" }

  function IsQuote(c: char): bool { c == '"' }
  function IsApostrophe(c: char): bool { c == '\'' }

  // ------------------------------------------------------ parse_optional_float

  /** The text of a cell once blanks, then double quotes, then single quotes
      are stripped from both ends. */
  function Unquoted(s: string): string {
    StripWith(StripWith(Strip(s), IsQuote), IsApostrophe)
  }

  /** `parse_optional_float`: None for None, for text that is empty once
      unquoted, and for text float() rejects; otherwise the number. An int is
      read through its decimal text, and so is a bool, through str(). */
  function ParseOptionalFloat(v: PyValue): Option<real> {
    match v
    case PyNone => None
    case PyBool(b) => ParseFloat(BoolText(b))
    case PyInt(i) => ParseFloat(IntToString(i))
    case PyFloat(x) => Some(x)
    case PyStr(s) =>
      var t := Unquoted(s);
      if t == "" then None else ParseFloat(t)
  }

  /** float() rejects the text of a bool, so a bool is no number. */
  lemma BoolNotNumber(b: bool)
    ensures ParseOptionalFloat(PyBool(b)).None?
  {
    var t := BoolText(b);
    StripNoSpaceEnds(t);
    assert t[0] == 'T' || t[0] == 'F';
  }

  /** An int keeps its value, whatever its sign. */
  lemma IntKeepsValue(i: int)
    ensures ParseOptionalFloat(PyInt(i)) == Some(i as real)
  {
    ParseIntString(i);
  }

  /** A cell holding the decimal text of a non-negative int reads as that
      int. */
  lemma NumeralCellKeepsValue(n: nat)
    ensures ParseOptionalFloat(PyStr(NatToString(n))) == Some(n as real)
  {
    ParseNatString(n);
    NumeralUnquoted(n);
    CellReadsAs(NatToString(n), Some(n as real));
  }

  lemma NumeralUnquoted(n: nat)
    ensures Unquoted(NatToString(n)) == NatToString(n)
  {
    DigitsUnquoted(NatToString(n));
  }

  lemma DigitsUnquoted(s: string)
    requires AllDigits(s) && s != []
    ensures Unquoted(s) == s
  {
    assert IsDigit(s[0]) && IsDigit(s[|s| - 1]);
    StripNoSpaceEnds(s);
    StripWithKeeps(s, IsQuote);
    StripWithKeeps(s, IsApostrophe);
  }

  /** A cell that unquoting leaves as it is reads as what float() makes of it. */
  lemma CellReadsAs(s: string, r: Option<real>)
    requires Unquoted(s) == s && |s| > 0 && ParseFloat(s) == r
    ensures ParseOptionalFloat(PyStr(s)) == r
  {
  }

  /** Every cell that unquoting empties reads as no number: blanks around
      double quotes around single quotes, each run possibly empty (a blank
      cell, `""`, `''`, ` "" `, `"''"`). */
  lemma EmptyCellIsNone(lead: string, outer: string, inner: string, closing: string, trail: string)
    requires AllSpaces(lead) && AllSpaces(trail)
    requires forall k :: 0 <= k < |outer| ==> IsQuote(outer[k])
    requires forall k :: 0 <= k < |closing| ==> IsQuote(closing[k])
    requires forall k :: 0 <= k < |inner| ==> IsApostrophe(inner[k])
    ensures ParseOptionalFloat(PyStr(lead + (outer + inner + closing) + trail)).None?
  {
    var core := outer + inner + closing;
    var cell := lead + core + trail;
    if core == [] {
      assert cell == lead + trail;
      assert forall k :: 0 <= k < |cell| ==> IsSpace(cell[k]);
      StripWithAllDropped(cell, IsSpace);
    } else {
      assert forall k :: 0 <= k < |core| ==> IsQuote(core[k]) || IsApostrophe(core[k]);
      assert !IsSpace(core[0]) && !IsSpace(core[|core| - 1]);
      StripWithBetween(lead, core, trail, IsSpace);
      QuotesUnquoted(outer, inner, closing);
    }
    assert StripWith([], IsQuote) == [] && StripWith([], IsApostrophe) == [];
  }

  /** Double quotes around single quotes strip to nothing. */
  lemma QuotesUnquoted(outer: string, inner: string, closing: string)
    requires forall k :: 0 <= k < |outer| ==> IsQuote(outer[k])
    requires forall k :: 0 <= k < |closing| ==> IsQuote(closing[k])
    requires forall k :: 0 <= k < |inner| ==> IsApostrophe(inner[k])
    ensures StripWith(StripWith(outer + inner + closing, IsQuote), IsApostrophe) == []
  {
    var core := outer + inner + closing;
    if inner == [] {
      assert core == outer + closing;
      StripWithAllDropped(core, IsQuote);
    } else {
      StripWithBetween(outer, inner, closing, IsQuote);
      StripWithAllDropped(inner, IsApostrophe);
    }
    assert StripWith([], IsApostrophe) == [];
  }

  // ------------------------------------------------------------ normalize_bool

  /** `normalize_bool`: bools as they are, numbers by being non-zero, text by
      its trimmed lower-case form, anything else None. */
  function NormalizeBool(v: PyValue): (r: Option<bool>)
    ensures v.PyBool? ==> r == Some(v.b)
    ensures v.PyInt? ==> r == Some(v.i != 0)
    ensures v.PyFloat? ==> r == Some(v.x != 0.0)
    ensures v.PyNone? ==> r.None?
    ensures v.PyStr? ==>
              (r == Some(true) <==> Lower(Strip(v.s)) in {"true", "yes", "1"})
              && (r == Some(false) <==> Lower(Strip(v.s)) in {"false", "no", "0"})
  {
    match v
    case PyBool(b) => Some(b)
    case PyInt(i) => Some(i != 0)
    case PyFloat(x) => Some(x != 0.0)
    case PyNone => None
    case PyStr(s) =>
      var lowered := Lower(Strip(s));
      if lowered in {"true", "yes", "1"} then Some(true)
      else if lowered in {"false", "no", "0"} then Some(false)
      else None
  }

  lemma LowerBoolText(b: bool)
    ensures Lower(BoolText(b)) == if b then "true" else "false"
  {
    var r := Lower(BoolText(b));
    if b {
      assert r == [r[0], r[1], r[2], r[3]];
    } else {
      assert r == [r[0], r[1], r[2], r[3], r[4]];
    }
  }

  /** A bool written to the CSV as str() reads back as itself, and an empty
      cell (what None is written as) reads back as None. */
  lemma NormalizeBoolReadsBack(b: bool)
    ensures NormalizeBool(PyStr(BoolText(b))) == Some(b)
    ensures NormalizeBool(PyStr("")) == None
  {
    var t := BoolText(b);
    StripNoSpaceEnds(t);
    LowerBoolText(b);
    assert Lower(Strip("")) == "";
  }

  // ------------------------------------------------------------ format_duration

  /** The whole seconds shown: negative durations count as 0, fractions are
      cut off. */
  function WholeSeconds(seconds: real): nat {
    if seconds < 0.0 then 0 else seconds.Floor
  }

  /** Hours, minutes and seconds by repeated divmod by 60. */
  function Clock(total: nat): (hms: (nat, nat, nat))
    ensures hms.1 < 60 && hms.2 < 60
    ensures hms.0 * 3600 + (hms.1 * 60 + hms.2) == total
  {
    var minutes, sec := total / 60, total % 60;
    (minutes / 60, minutes % 60, sec)
  }

  /** `format_duration`: `XhMMmSSs` when there are hours, `MmSSs` when there
      are minutes, `Ss` otherwise. */
  function FormatDuration(seconds: real): string {
    var hms := Clock(WholeSeconds(seconds));
    DurationText(hms.0, hms.1, hms.2)
  }

  function DurationText(hours: nat, minutes: nat, sec: nat): string {
    if hours != 0 then NatToString(hours) + "h" + PadZeros(minutes, 2) + "m" + PadZeros(sec, 2) + "s"
    else if minutes != 0 then NatToString(minutes) + "m" + PadZeros(sec, 2) + "s"
    else NatToString(sec) + "s"
  }

  /** Reading a duration back: optional `<h>h`, optional `<m>m`, then `<s>s`. */
  function ReadDuration(t: string): Option<nat> {
    if t == [] || t[|t| - 1] != 's' then None else ReadBody(t[..|t| - 1])
  }

  function ReadBody(body: string): Option<nat> {
    var hi := IndexOfChar(body, 'h');
    if hi < |body| then Combine(ParseNat(body[..hi]), 3600, ReadMinSec(body[hi + 1..]))
    else ReadMinSec(body)
  }

  function ReadMinSec(rest: string): Option<nat> {
    var mi := IndexOfChar(rest, 'm');
    if mi < |rest| then Combine(ParseNat(rest[..mi]), 60, ParseNat(rest[mi + 1..]))
    else ParseNat(rest)
  }

  function Combine(a: Option<nat>, unit: nat, b: Option<nat>): Option<nat> {
    if a.None? || b.None? then None else Some(a.value * unit + b.value)
  }

  lemma DigitsLackLetter(s: string, c: char)
    requires AllDigits(s) && !IsDigit(c)
    ensures c !in s
  {
    assert forall k :: 0 <= k < |s| ==> s[k] != c;
  }

  /** `<a><c><b>` splits at its first c when a is a numeral. */
  lemma SplitAtLetter(a: string, b: string, c: char, n: nat)
    requires ParseNat(a) == Some(n) && !IsDigit(c)
    ensures var t := a + [c] + b;
            IndexOfChar(t, c) == |a| < |t| && t[..|a|] == a && t[|a| + 1..] == b
  {
    DigitsLackLetter(a, c);
    assert a + [c] + b == a + ([c] + b);
    IndexOfCharConcat(a, [c] + b, c);
    var t := a + [c] + b;
    assert t[..|a|] == a;
    assert t[|a| + 1..] == b;
  }

  lemma ReadMinSecOf(mText: string, sText: string, m: nat, s: nat)
    requires ParseNat(mText) == Some(m) && ParseNat(sText) == Some(s)
    ensures ReadMinSec(mText + "m" + sText) == Some(m * 60 + s)
  {
    SplitAtLetter(mText, sText, 'm', m);
  }

  lemma ReadMinSecPlain(sText: string, s: nat)
    requires ParseNat(sText) == Some(s)
    ensures ReadMinSec(sText) == Some(s)
  {
    DigitsLackLetter(sText, 'm');
  }

  lemma ReadBodyOf(hText: string, rest: string, h: nat, v: nat)
    requires ParseNat(hText) == Some(h) && ReadMinSec(rest) == Some(v)
    ensures ReadBody(hText + "h" + rest) == Some(h * 3600 + v)
  {
    SplitAtLetter(hText, rest, 'h', h);
  }

  lemma ReadBodyPlain(rest: string)
    requires 'h' !in rest
    ensures ReadBody(rest) == ReadMinSec(rest)
  {
  }

  lemma ReadDurationOf(body: string)
    ensures ReadDuration(body + "s") == ReadBody(body)
  {
    assert (body + "s")[..|body|] == body;
  }

  lemma PadZerosReadsBack(n: nat, width: nat)
    requires width > 0
    ensures ParseNat(PadZeros(n, width)) == Some(n)
  {
    PadZerosValue(n, width);
  }

  /** Numerals joined as `<h>h<m>m<s>s` read back as the seconds they make. */
  lemma ReadHoursText(hText: string, mText: string, sText: string, h: nat, m: nat, s: nat)
    requires ParseNat(hText) == Some(h) && ParseNat(mText) == Some(m) && ParseNat(sText) == Some(s)
    ensures ReadDuration(hText + "h" + mText + "m" + sText + "s") == Some(h * 3600 + (m * 60 + s))
  {
    var rest := mText + "m" + sText;
    ReadMinSecOf(mText, sText, m, s);
    ReadBodyOf(hText, rest, h, m * 60 + s);
    ReadDurationOf(hText + "h" + rest);
    assert hText + "h" + mText + "m" + sText + "s" == hText + "h" + rest + "s";
  }

  /** `<h>h<MM>m<SS>s` reads back as its seconds. */
  lemma ReadHoursForm(h: nat, m: nat, s: nat)
    ensures ReadDuration(NatToString(h) + "h" + PadZeros(m, 2) + "m" + PadZeros(s, 2) + "s")
            == Some(h * 3600 + (m * 60 + s))
  {
    NatStringReadsBack(h);
    PadZerosReadsBack(m, 2);
    PadZerosReadsBack(s, 2);
    ReadHoursText(NatToString(h), PadZeros(m, 2), PadZeros(s, 2), h, m, s);
  }

  /** `<m>m<SS>s` reads back as its seconds. */
  lemma ReadMinutesForm(m: nat, s: nat)
    ensures ReadDuration(NatToString(m) + "m" + PadZeros(s, 2) + "s") == Some(m * 60 + s)
  {
    NatStringReadsBack(m);
    PadZerosReadsBack(s, 2);
    var body := NatToString(m) + "m" + PadZeros(s, 2);
    ReadMinSecOf(NatToString(m), PadZeros(s, 2), m, s);
    DigitsLackLetter(NatToString(m), 'h');
    DigitsLackLetter(PadZeros(s, 2), 'h');
    assert 'h' !in body;
    ReadBodyPlain(body);
    ReadDurationOf(body);
  }

  /** `<s>s` reads back as its seconds. */
  lemma ReadSecondsForm(s: nat)
    ensures ReadDuration(NatToString(s) + "s") == Some(s)
  {
    NatStringReadsBack(s);
    ReadMinSecPlain(NatToString(s), s);
    DigitsLackLetter(NatToString(s), 'h');
    ReadBodyPlain(NatToString(s));
    ReadDurationOf(NatToString(s));
  }

  /** Each of the three forms reads back as the seconds it shows. */
  lemma DurationTextReadsBack(hours: nat, minutes: nat, sec: nat)
    ensures ReadDuration(DurationText(hours, minutes, sec)) == Some(hours * 3600 + (minutes * 60 + sec))
  {
    if hours != 0 {
      HoursTextReadsBack(hours, minutes, sec);
    } else if minutes != 0 {
      MinutesTextReadsBack(hours, minutes, sec);
    } else {
      SecondsTextReadsBack(hours, minutes, sec);
    }
  }

  /** The hours form of the duration text reads back as its seconds. */
  lemma HoursTextReadsBack(hours: nat, minutes: nat, sec: nat)
    requires hours != 0
    ensures ReadDuration(DurationText(hours, minutes, sec)) == Some(hours * 3600 + (minutes * 60 + sec))
  {
    ReadHoursForm(hours, minutes, sec);
  }

  /** The minutes form of the duration text reads back as its seconds. */
  lemma MinutesTextReadsBack(hours: nat, minutes: nat, sec: nat)
    requires hours == 0 && minutes != 0
    ensures ReadDuration(DurationText(hours, minutes, sec)) == Some(hours * 3600 + (minutes * 60 + sec))
  {
    ReadMinutesForm(minutes, sec);
  }

  /** The seconds form of the duration text reads back as its seconds. */
  lemma SecondsTextReadsBack(hours: nat, minutes: nat, sec: nat)
    requires hours == 0 && minutes == 0
    ensures ReadDuration(DurationText(hours, minutes, sec)) == Some(hours * 3600 + (minutes * 60 + sec))
  {
    ReadSecondsForm(sec);
  }

  /** The duration text reads back as the whole seconds it was made from. */
  lemma FormatDurationReadsBack(seconds: real)
    ensures ReadDuration(FormatDuration(seconds)) == Some(WholeSeconds(seconds))
  {
    var total := WholeSeconds(seconds);
    var hms := Clock(total);
    assert hms.0 * 3600 + (hms.1 * 60 + hms.2) == total;
    DurationReadsBackAs(FormatDuration(seconds), hms.0, hms.1, hms.2, Some(total));
  }

  /** DurationTextReadsBack for a text known only by name; the seconds come as
      the Option read back, which keeps the arithmetic out of the text proof. */
  lemma DurationReadsBackAs(t: string, hours: nat, minutes: nat, sec: nat, r: Option<nat>)
    requires t == DurationText(hours, minutes, sec)
    requires Some(hours * 3600 + (minutes * 60 + sec)) == r
    ensures ReadDuration(t) == r
  {
    DurationTextReadsBack(hours, minutes, sec);
  }

  // ------------------------------------------------------- obstruction buckets

  datatype Bucket = LosObstructed | Fresnel60Obstructed | FirstFresnelObstructed | Clear | NoBucket

  /** `x is True`. */
  predicate IsTrue(v: PyValue) { v == PyBool(true) }

  /** The live classification of a prediction: line of sight, then 60 %
      Fresnel, then first Fresnel, and clear otherwise. */
  function LiveBucket(path: PyValue, firstFresnel: PyValue, fresnel60: PyValue): (b: Bucket)
    ensures b != NoBucket
    ensures b == LosObstructed <==> IsTrue(path)
    ensures b == Fresnel60Obstructed <==> !IsTrue(path) && IsTrue(fresnel60)
    ensures b == FirstFresnelObstructed <==> !IsTrue(path) && !IsTrue(fresnel60) && IsTrue(firstFresnel)
  {
    if IsTrue(path) then LosObstructed
    else if IsTrue(fresnel60) then Fresnel60Obstructed
    else if IsTrue(firstFresnel) then FirstFresnelObstructed
    else Clear
  }

  /** The classification when rebuilding from the saved CSV: the same order,
      but clear only when all three flags are explicitly false. */
  function SavedBucket(path: Option<bool>, firstFresnel: Option<bool>, fresnel60: Option<bool>): (b: Bucket)
    ensures b == Clear <==> path == Some(false) && firstFresnel == Some(false) && fresnel60 == Some(false)
    ensures b == NoBucket <==>
              path != Some(true) && fresnel60 != Some(true) && firstFresnel != Some(true)
              && !(path == Some(false) && firstFresnel == Some(false) && fresnel60 == Some(false))
  {
    if path == Some(true) then LosObstructed
    else if fresnel60 == Some(true) then Fresnel60Obstructed
    else if firstFresnel == Some(true) then FirstFresnelObstructed
    else if path == Some(false) && firstFresnel == Some(false) && fresnel60 == Some(false) then Clear
    else NoBucket
  }

  // ------------------------------------------------- the saved CSV's flag columns

  /** The three flags of one site's prediction, as `normalize_bool` left them. */
  datatype Flags = Flags(path: Option<bool>, firstFresnel: Option<bool>, fresnel60: Option<bool>)

  /** A flag as the live run holds it. */
  function FlagValue(v: Option<bool>): PyValue {
    match v
    case Some(b) => PyBool(b)
    case None => PyNone
  }

  /** The bucket the live run files a prediction with these flags in. */
  function LiveBucketOf(fl: Flags): Bucket {
    LiveBucket(FlagValue(fl.path), FlagValue(fl.firstFresnel), FlagValue(fl.fresnel60))
  }

  /** The saved CSV's header for one site: row, lat and lon, then the site's
      five columns with the flags in the order line of sight, 60 % Fresnel,
      first Fresnel. */
  function FileHeader(f: string): (h: seq<string>)
    ensures |h| == 8
  {
    ["row", "lat", "lon", f + "_mesaured_rssi", f + "_predicted_rssi",
     f + "_los_obstructed", f + "_fresnel_60_obstructed", f + "_first_fresnel_obstructed"]
  }

  /** How csv.writer writes a flag: str() of a bool, an empty cell for None. */
  function FlagCell(v: Option<bool>): string {
    match v
    case Some(b) => BoolText(b)
    case None => ""
  }

  /** A saved row as the live run writes it: the flags go out as path, first
      Fresnel, 60 % Fresnel, which is not the header's order. */
  function SavedRowAsWritten(front: seq<string>, rssi: string, pred: string, fl: Flags): (row: seq<string>)
    requires |front| == 3
    ensures |row| == 8
  {
    front + [rssi, pred, FlagCell(fl.path), FlagCell(fl.firstFresnel), FlagCell(fl.fresnel60)]
  }

  /** A saved row with the flags in the header's order. */
  function SavedRowCorrected(front: seq<string>, rssi: string, pred: string, fl: Flags): (row: seq<string>)
    requires |front| == 3
    ensures |row| == 8
  {
    front + [rssi, pred, FlagCell(fl.path), FlagCell(fl.fresnel60), FlagCell(fl.firstFresnel)]
  }

  /** The cell a csv.DictReader row holds under `name`: the one under the last
      column of that name (later keys overwrite earlier ones), or none when
      there is no such column or the row is shorter. */
  function CellUnder(header: seq<string>, cells: seq<string>, name: string): (r: Option<string>)
    ensures r.Some? ==> exists i :: 0 <= i < |header| && i < |cells| && header[i] == name && r.value == cells[i]
    ensures r.None? ==> forall i :: 0 <= i < |header| && i < |cells| ==> header[i] != name
    decreases |header|
  {
    if |header| == 0 || |cells| == 0 then None
    else
      var later := CellUnder(header[1..], cells[1..], name);
      if later.Some? then later
      else if header[0] == name then Some(cells[0])
      else None
  }

  /** A column whose name does not come again gives its own cell. */
  lemma {:induction false} CellUnderLast(header: seq<string>, cells: seq<string>, i: nat)
    requires i < |header| && i < |cells|
    requires forall j :: i < j < |header| && j < |cells| ==> header[j] != header[i]
    ensures CellUnder(header, cells, header[i]) == Some(cells[i])
    decreases i
  {
    var later := CellUnder(header[1..], cells[1..], header[i]);
    if i == 0 {
      assert later.None?;
    } else {
      assert header[1..][i - 1] == header[i];
      forall j | i - 1 < j < |header[1..]| && j < |cells[1..]|
        ensures header[1..][j] != header[1..][i - 1]
      {
        assert header[1..][j] == header[j + 1];
      }
      CellUnderLast(header[1..], cells[1..], i - 1);
    }
  }

  /** `row.get(name)`: the cell's text, or None. */
  function RowGet(header: seq<string>, cells: seq<string>, name: string): PyValue {
    match CellUnder(header, cells, name)
    case Some(s) => PyStr(s)
    case None => PyNone
  }

  /** The bucket the `--no-prediction` rebuild files a saved row in: each
      flag read by its column name, then SavedBucket. */
  function RebuiltBucket(header: seq<string>, cells: seq<string>, f: string): Bucket {
    SavedBucket(NormalizeBool(RowGet(header, cells, f + "_los_obstructed")),
                NormalizeBool(RowGet(header, cells, f + "_first_fresnel_obstructed")),
                NormalizeBool(RowGet(header, cells, f + "_fresnel_60_obstructed")))
  }

  /** A flag written by csv.writer normalises back to itself. */
  lemma FlagCellReadsBack(v: Option<bool>)
    ensures NormalizeBool(PyStr(FlagCell(v))) == v
  {
    match v
    case Some(b) => NormalizeBoolReadsBack(b);
    case None => NormalizeBoolReadsBack(false);
  }

  /** Reading a saved row by the header's names: the line-of-sight,
      60 % Fresnel and first-Fresnel columns give cells 5, 6 and 7. */
  lemma FlagColumns(f: string, row: seq<string>)
    requires |row| == 8
    ensures RowGet(FileHeader(f), row, f + "_los_obstructed") == PyStr(row[5])
    ensures RowGet(FileHeader(f), row, f + "_fresnel_60_obstructed") == PyStr(row[6])
    ensures RowGet(FileHeader(f), row, f + "_first_fresnel_obstructed") == PyStr(row[7])
  {
    var h := FileHeader(f);
    assert |h[5]| != |h[6]| && |h[5]| != |h[7]| && |h[6]| != |h[7]|;
    CellUnderLast(h, row, 5);
    CellUnderLast(h, row, 6);
    CellUnderLast(h, row, 7);
  }

  /** As written, the rebuild reads the first-Fresnel flag from the 60 %
      column and the other way round: it files the row as SavedBucket would
      with the two Fresnel flags traded. */
  lemma RebuildAsWritten(f: string, front: seq<string>, rssi: string, pred: string, fl: Flags)
    requires |front| == 3
    ensures RebuiltBucket(FileHeader(f), SavedRowAsWritten(front, rssi, pred, fl), f)
            == SavedBucket(fl.path, fl.fresnel60, fl.firstFresnel)
  {
    var row := SavedRowAsWritten(front, rssi, pred, fl);
    FlagColumns(f, row);
    FlagCellReadsBack(fl.path);
    FlagCellReadsBack(fl.firstFresnel);
    FlagCellReadsBack(fl.fresnel60);
  }

  /** The as-written layout moves a first-Fresnel obstruction into the 60 %
      bucket when rebuilt, and a 60 % obstruction into the first-Fresnel
      bucket. */
  lemma AsWrittenSwapsFresnel(f: string, front: seq<string>, rssi: string, pred: string)
    requires |front| == 3
    ensures var fl := Flags(Some(false), Some(true), Some(false));
            LiveBucketOf(fl) == FirstFresnelObstructed
            && RebuiltBucket(FileHeader(f), SavedRowAsWritten(front, rssi, pred, fl), f) == Fresnel60Obstructed
    ensures var fl := Flags(Some(false), Some(false), Some(true));
            LiveBucketOf(fl) == Fresnel60Obstructed
            && RebuiltBucket(FileHeader(f), SavedRowAsWritten(front, rssi, pred, fl), f) == FirstFresnelObstructed
  {
    RebuildAsWritten(f, front, rssi, pred, Flags(Some(false), Some(true), Some(false)));
    RebuildAsWritten(f, front, rssi, pred, Flags(Some(false), Some(false), Some(true)));
  }

  /** With the flags saved in the header's order, the rebuild reads back each
      flag from its own column. */
  lemma RebuildCorrected(f: string, front: seq<string>, rssi: string, pred: string, fl: Flags)
    requires |front| == 3
    ensures RebuiltBucket(FileHeader(f), SavedRowCorrected(front, rssi, pred, fl), f)
            == SavedBucket(fl.path, fl.firstFresnel, fl.fresnel60)
  {
    var row := SavedRowCorrected(front, rssi, pred, fl);
    FlagColumns(f, row);
    FlagCellReadsBack(fl.path);
    FlagCellReadsBack(fl.firstFresnel);
    FlagCellReadsBack(fl.fresnel60);
  }

  /** With the corrected layout, a prediction whose three flags are bools is
      rebuilt into the bucket the live run filed it in; one with a missing
      flag and no true flag is clear live but in no bucket when rebuilt. */
  lemma RebuildAgreesWithLive(f: string, front: seq<string>, rssi: string, pred: string, path: bool, firstFresnel: bool, fresnel60: bool)
    requires |front| == 3
    ensures var fl := Flags(Some(path), Some(firstFresnel), Some(fresnel60));
            RebuiltBucket(FileHeader(f), SavedRowCorrected(front, rssi, pred, fl), f) == LiveBucketOf(fl)
    ensures var fl := Flags(None, Some(false), Some(false));
            LiveBucketOf(fl) == Clear
            && RebuiltBucket(FileHeader(f), SavedRowCorrected(front, rssi, pred, fl), f) == NoBucket
  {
    RebuildCorrected(f, front, rssi, pred, Flags(Some(path), Some(firstFresnel), Some(fresnel60)));
    RebuildCorrected(f, front, rssi, pred, Flags(None, Some(false), Some(false)));
    SavedMatchesLive(path, firstFresnel, fresnel60);
  }

  lemma SavedMatchesLive(path: bool, firstFresnel: bool, fresnel60: bool)
    ensures SavedBucket(Some(path), Some(firstFresnel), Some(fresnel60))
            == LiveBucket(PyBool(path), PyBool(firstFresnel), PyBool(fresnel60))
  {
  }

  // ----------------------------------------------------------- the prediction

  /** The prediction made non-positive, and its difference to the measured
      RSSI. */
  function Normalized(pred: real, rssi: real): (r: (real, real))
    ensures r.0 <= 0.0 && Abs(r.0) == Abs(pred)
    ensures r.1 + rssi == r.0
  {
    var predF := -Abs(pred);
    (predF, predF - rssi)
  }

  /** Normalizing an already normalized prediction changes nothing. */
  lemma NormalizedIdempotent(pred: real, rssi: real)
    ensures Normalized(Normalized(pred, rssi).0, rssi) == Normalized(pred, rssi)
  {
  }

  /** The one-element list for the bucket an entry goes to, and the empty
      list for every other bucket. */
  function Into<T>(b: Bucket, target: Bucket, v: T): (r: seq<T>)
    ensures |r| == if b == target then 1 else 0
  {
    if b == target then [v] else []
  }

  /** The per-site lists a live run fills: the index, RSSI, prediction and
      difference of every recorded prediction, and the index and difference
      once more in the list of its bucket. */
  class SiteStats {
    var xs: seq<int>
    var rssi: seq<real>
    var pred: seq<real>
    var diff: seq<real>
    var losX: seq<int>
    var losDiff: seq<real>
    var fresnel60X: seq<int>
    var fresnel60Diff: seq<real>
    var firstFresnelX: seq<int>
    var firstFresnelDiff: seq<real>
    var clearX: seq<int>
    var clearDiff: seq<real>

    /** Every recorded prediction is in exactly one of the four buckets, and
        each bucket holds an index and a difference per entry. */
    ghost predicate Valid()
      reads this
    {
      && |rssi| == |xs| && |pred| == |xs| && |diff| == |xs|
      && |losDiff| == |losX| && |fresnel60Diff| == |fresnel60X|
      && |firstFresnelDiff| == |firstFresnelX| && |clearDiff| == |clearX|
      && |xs| == |losX| + |fresnel60X| + |firstFresnelX| + |clearX|
    }

    constructor ()
      ensures Valid() && xs == [] && rssi == [] && pred == [] && diff == []
      ensures losX == [] && fresnel60X == [] && firstFresnelX == [] && clearX == []
    {
      xs, rssi, pred, diff := [], [], [], [];
      losX, losDiff, fresnel60X, fresnel60Diff := [], [], [], [];
      firstFresnelX, firstFresnelDiff, clearX, clearDiff := [], [], [], [];
    }

    /** One prediction of a live run: the prediction made non-positive and
        its difference to the measured RSSI are recorded, and index and
        difference go to the bucket LiveBucket picks, and to no other. */
    method Record(idx: int, prediction: real, measured: real, path: PyValue, firstFresnel: PyValue, fresnel60: PyValue)
      requires Valid()
      modifies this
      ensures Valid()
      ensures xs == old(xs) + [idx] && rssi == old(rssi) + [measured]
      ensures pred == old(pred) + [Normalized(prediction, measured).0]
      ensures diff == old(diff) + [Normalized(prediction, measured).1]
      ensures var b, d := LiveBucket(path, firstFresnel, fresnel60), Normalized(prediction, measured).1;
              && losX == old(losX) + Into(b, LosObstructed, idx)
              && losDiff == old(losDiff) + Into(b, LosObstructed, d)
              && fresnel60X == old(fresnel60X) + Into(b, Fresnel60Obstructed, idx)
              && fresnel60Diff == old(fresnel60Diff) + Into(b, Fresnel60Obstructed, d)
              && firstFresnelX == old(firstFresnelX) + Into(b, FirstFresnelObstructed, idx)
              && firstFresnelDiff == old(firstFresnelDiff) + Into(b, FirstFresnelObstructed, d)
              && clearX == old(clearX) + Into(b, Clear, idx)
              && clearDiff == old(clearDiff) + Into(b, Clear, d)
    {
      var predF := -Abs(prediction);
      var d := predF - measured;
      xs, rssi, pred, diff := xs + [idx], rssi + [measured], pred + [predF], diff + [d];
      var b := LiveBucket(path, firstFresnel, fresnel60);
      File(b, idx, d);
    }

    /** The index and the difference go to the lists of bucket b. */
    method File(b: Bucket, idx: int, d: real)
      requires b != NoBucket
      requires |losDiff| == |losX| && |fresnel60Diff| == |fresnel60X|
      requires |firstFresnelDiff| == |firstFresnelX| && |clearDiff| == |clearX|
      modifies this
      ensures |losDiff| == |losX| && |fresnel60Diff| == |fresnel60X|
      ensures |firstFresnelDiff| == |firstFresnelX| && |clearDiff| == |clearX|
      ensures |losX| + |fresnel60X| + |firstFresnelX| + |clearX|
              == old(|losX| + |fresnel60X| + |firstFresnelX| + |clearX|) + 1
      ensures losX == old(losX) + Into(b, LosObstructed, idx)
      ensures losDiff == old(losDiff) + Into(b, LosObstructed, d)
      ensures fresnel60X == old(fresnel60X) + Into(b, Fresnel60Obstructed, idx)
      ensures fresnel60Diff == old(fresnel60Diff) + Into(b, Fresnel60Obstructed, d)
      ensures firstFresnelX == old(firstFresnelX) + Into(b, FirstFresnelObstructed, idx)
      ensures firstFresnelDiff == old(firstFresnelDiff) + Into(b, FirstFresnelObstructed, d)
      ensures clearX == old(clearX) + Into(b, Clear, idx)
      ensures clearDiff == old(clearDiff) + Into(b, Clear, d)
      ensures xs == old(xs) && rssi == old(rssi) && pred == old(pred) && diff == old(diff)
    {
      match b
      case LosObstructed =>
        losX, losDiff := losX + [idx], losDiff + [d];
      case Fresnel60Obstructed =>
        fresnel60X, fresnel60Diff := fresnel60X + [idx], fresnel60Diff + [d];
      case FirstFresnelObstructed =>
        firstFresnelX, firstFresnelDiff := firstFresnelX + [idx], firstFresnelDiff + [d];
      case Clear =>
        clearX, clearDiff := clearX + [idx], clearDiff + [d];
    }
  }
}

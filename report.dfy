/** The path report SPLAT! writes for a line-of-sight run (tx-to-rx.txt),
    read line by line: obstruction flags cleared by anchor sentences, the
    advice messages, the list of obstructions, and the numeric fields. The
    lines are bytes; each character stands for one byte. */
module Report {
  import opened Text
  import opened Numbers
  import opened SiteFiles

  const NoLos := "No obstructions to LOS path due to terrain were detected by SPLAT!"
  const FirstClear := "The first Fresnel zone is clear."
  const F60Clear := "60% of the first Fresnel zone is clear."
  const ObstructionHeader := "Between rx and tx, SPLAT! detected obstructions at:"
  const ClearAllAdvice := "to clear all obstructions detected by SPLAT!"
  const ClearFirstAdvice := "to clear the first Fresnel zone."
  const Clear60Advice := "to clear 60% of the first Fresnel zone."
  const SignalAnchor := "Signal power level at rx:"
  const FsplAnchor := "Free space path loss:"
  const LrAnchor := "Longley-Rice path loss:"
  const ItwomAnchor := "ITWOM Version 3.0 path loss:"
  const DistanceAnchor := "Distance to rx:"

  const LrType := "Longley-Rice path loss"
  const ItwomType := "ITWOM Version 3.0 path loss"

  // ---------------------------------------------------------------- bytes repr

  function HexDigit(d: nat): char
    requires d < 16
  {
    if d < 10 then ('0' as int + d) as char else ('a' as int + d - 10) as char
  }

  /** One byte as repr() shows it between the quote q. */
  function EscapedByte(c: char, q: char): string {
    if c == q || c == '\\' then ['\\', c]
    else if c == '\t' then "\\t"
    else if c == '\n' then "\\n"
    else if c == '\r' then "\\r"
    else if ' ' <= c <= '~' then [c]
    else ['\\', 'x', HexDigit((c as int / 16) % 16), HexDigit(c as int % 16)]
  }

  function Escaped(s: string, q: char): string {
    if s == [] then [] else Escaped(s[..|s| - 1], q) + EscapedByte(s[|s| - 1], q)
  }

  /** f"{b}" of a bytes object: its repr, b'...' or, when it holds a single
      quote and no double quote, b"...". */
  function BytesRepr(s: string): (r: string)
    ensures |r| >= 3 && r[0] == 'b'
  {
    var q := if '\'' in s && '"' !in s then '"' else '\'';
    "b" + [q] + Escaped(s, q) + [q]
  }

  /** Printable text without quotes or backslashes is shown as is. */
  predicate PlainText(s: string) {
    forall i :: 0 <= i < |s| ==> ' ' <= s[i] <= '~' && s[i] != '\'' && s[i] != '"' && s[i] != '\\'
  }

  lemma {:induction false} EscapedPlain(s: string)
    requires PlainText(s)
    ensures Escaped(s, '\'') == s
    decreases |s|
  {
    if s != [] {
      var init, c := s[..|s| - 1], s[|s| - 1];
      assert PlainText(init) by {
        forall i | 0 <= i < |init| ensures ' ' <= init[i] <= '~' && init[i] != '\'' && init[i] != '"' && init[i] != '\\' {
          assert init[i] == s[i];
        }
      }
      EscapedPlain(init);
      assert EscapedByte(c, '\'') == [c];
      assert s == init + [c];
    }
  }

  lemma PlainRepr(s: string)
    requires PlainText(s)
    ensures BytesRepr(s) == "b'" + s + "'"
  {
    assert '\'' !in s by {
      forall i | 0 <= i < |s| ensures s[i] != '\'' { }
    }
    assert BytesRepr(s) == "b" + ['\''] + Escaped(s, '\'') + ['\''];
    EscapedPlain(s);
  }

  // ------------------------------------------------------------ the line parts

  /** Which zone a line declares clear; the checks form one if/elif chain. */
  datatype Zone = Path | FirstFresnel | Fresnel60 | NoZone

  function ClearedBy(line: string): Zone {
    if Contains(line, NoLos) then Path
    else if Contains(line, FirstClear) then FirstFresnel
    else if Contains(line, F60Clear) then Fresnel60
    else NoZone
  }

  /** Which zone the advice on line i is about: an advice sentence counts
      only when a line follows it, and the checks form one if/elif chain. */
  function AdviceAt(lines: seq<string>, i: nat): (z: Zone)
    requires i < |lines|
    ensures z != NoZone ==> i + 1 < |lines|
  {
    if Contains(lines[i], ClearAllAdvice) && i + 1 < |lines| then Path
    else if Contains(lines[i], ClearFirstAdvice) && i + 1 < |lines| then FirstFresnel
    else if Contains(lines[i], Clear60Advice) && i + 1 < |lines| then Fresnel60
    else NoZone
  }

  /** The message for advice on line i: the following line, a blank, and the
      advice line itself, each stripped and shown as bytes. */
  function Message(lines: seq<string>, i: nat): string
    requires i + 1 < |lines|
  {
    BytesRepr(Strip(lines[i + 1])) + " " + BytesRepr(Strip(lines[i]))
  }

  /** `_extract_float_after`: token `idx` of the whitespace-split line, parsed
      and rounded to 2 decimals. The prefix the source passes in is unused. */
  function ExtractFloatAfter(line: string, idx: nat): (v: Option<real>)
    ensures v.Some? ==> |SplitWs(Strip(line))| > idx
    ensures v.Some? <==> |SplitWs(Strip(line))| > idx && ParseFloat(SplitWs(Strip(line))[idx]).Some?
  {
    var parts := SplitWs(Strip(line));
    if |parts| > idx then
      match ParseFloat(parts[idx])
      case Some(x) => Some(Round2(x))
      case None => None
    else None
  }

  /** On a line of words, one of which "%.Nf" printed, the field at that
      word's position reads back as the printed value rounded to two
      decimals. */
  lemma ExtractFloatAfterReadsBack(words: seq<string>, idx: nat, x: real, places: nat)
    requires forall k :: 0 <= k < |words| ==> IsWord(words[k])
    requires idx < |words| && words[idx] == FormatFixed(x, places)
    ensures ExtractFloatAfter(Unwords(words), idx) == Some(Round2(RoundedFixed(x, places)))
  {
    UnwordsFields(words);
    ParseFormatFixed(x, places);
  }

  /** A token that is not a number is no field, whatever the line holds. */
  lemma ExtractFloatAfterRejects(words: seq<string>, idx: nat)
    requires forall k :: 0 <= k < |words| ==> IsWord(words[k])
    requires idx >= |words| || ParseFloat(words[idx]).None?
    ensures ExtractFloatAfter(Unwords(words), idx).None?
  {
    UnwordsFields(words);
  }

  /** What float() makes of the last token it accepts. */
  function LastParsed(tokens: seq<string>): Option<real> {
    if tokens == [] then None
    else
      match ParseFloat(tokens[|tokens| - 1])
      case Some(x) => Some(x)
      case None => LastParsed(tokens[..|tokens| - 1])
  }

  /** The scan is the general last-present-result scan with float(), so
      LastMappedIsLast describes it. */
  lemma {:induction false} LastParsedIsLastMapped(tokens: seq<string>)
    ensures LastParsed(tokens) == LastMapped(tokens, ParseFloat)
    decreases |tokens|
  {
    if tokens != [] {
      LastParsedIsLastMapped(tokens[..|tokens| - 1]);
    }
  }

  /** The last token that parses as a number, rounded: the fallback scan over
      the reversed tokens. */
  function LastNumber(tokens: seq<string>): Option<real> {
    Rounded(LastParsed(tokens))
  }

  /** round(x, 2) of a number that may be absent. */
  function Rounded(x: Option<real>): Option<real> {
    match x
    case Some(y) => Some(Round2(y))
    case None => None
  }

  /** A field read with the fallback: on a line with the anchor, token
      `idx`, or failing that the last number on the line. */
  function WithFallback(line: string, anchor: string, idx: nat): Option<real> {
    if !Contains(line, anchor) then None
    else
      match ExtractFloatAfter(line, idx)
      case Some(v) => Some(v)
      case None => LastNumber(SplitWs(Strip(line)))
  }

  function SignalOf(line: string): Option<real> { WithFallback(line, SignalAnchor, 5) }

  function FsplOf(line: string): Option<real> { WithFallback(line, FsplAnchor, 4) }

  /** A field without fallback: the token at `idx` on a line with the anchor,
      rounded once more. */
  function FieldOf(line: string, anchor: string, idx: nat): Option<real> {
    if !Contains(line, anchor) then None
    else
      match ExtractFloatAfter(line, idx)
      case Some(v) => Some(Round2(v))
      case None => None
  }

  function LrOf(line: string): Option<real> { FieldOf(line, LrAnchor, 3) }

  function ItwomOf(line: string): Option<real> { FieldOf(line, ItwomAnchor, 5) }

  function DistanceOf(line: string): Option<real> { FieldOf(line, DistanceAnchor, 3) }

  /** The second rounding of a field changes nothing: the field is the token
      rounded once. */
  lemma FieldRoundedOnce(line: string, anchor: string, idx: nat)
    ensures FieldOf(line, anchor, idx).Some? ==> FieldOf(line, anchor, idx) == ExtractFloatAfter(line, idx)
  {
    if FieldOf(line, anchor, idx).Some? {
      var x := ParseFloat(SplitWs(Strip(line))[idx]).value;
      Round2Idempotent(x);
    }
  }

  // ------------------------------------------------------------- obstructions

  /** The number one comma-separated part of an obstruction row gives: its
      first space-separated word, parsed and rounded. */
  function PartNumber(p: string): Option<real> {
    var q := Strip(p);
    if q == [] then None
    else
      match ParseFloat(Split(q, " ")[0])
      case Some(x) => Some(Round2(x))
      case None => None
  }

  function PartNumbers(parts: seq<string>): (r: seq<Option<real>>)
    ensures |r| == |parts| && forall k :: 0 <= k < |parts| ==> r[k] == PartNumber(parts[k])
  {
    seq(|parts|, k requires 0 <= k < |parts| => PartNumber(parts[k]))
  }

  /** A row of the obstruction block: kept when it has two numbers, with the
      second turned from SPLAT!'s west-positive longitude into an east-positive
      one. */
  function RowOf(raw: string): (row: Option<seq<real>>)
    ensures row.Some? <==> |Somes(PartNumbers(Split(raw, ", ")))| >= 2
    ensures row.Some? ==> |row.value| >= 2
  {
    var floats := Somes(PartNumbers(Split(raw, ", ")));
    if |floats| >= 2 then Some(floats[1 := EastFromWest(floats[1])]) else None
  }

  /** A unit word after a number in a row: no blank and no comma. */
  predicate IsUnit(w: string) {
    w != [] && forall i :: 0 <= i < |w| ==> !IsSpace(w[i]) && w[i] != ','
  }

  /** A part printed as "%.Nf" of x, a blank and a unit gives x as printed,
      rounded to two decimals. */
  lemma PartNumberFixed(x: real, places: nat, unit: string)
    requires IsUnit(unit)
    ensures PartNumber(FormatFixed(x, places) + " " + unit) == Some(Round2(RoundedFixed(x, places)))
  {
    var t := FormatFixed(x, places);
    var p := t + " " + unit;
    FormatFixedChars(x, places);
    assert p[0] == t[0] && p[|p| - 1] == unit[|unit| - 1];
    StripWithKeeps(p, IsSpace);
    assert ' ' !in t by {
      forall i | 0 <= i < |t| ensures t[i] != ' ' {
        assert IsNumeralChar(t[i]);
      }
    }
    SplitFirst(t, unit, " ");
    ParseFormatFixed(x, places);
  }

  /** A row with a latitude, then a longitude counted westwards as the
      engine counts it, each printed with `places` decimals and a unit,
      then whatever else the row holds. */
  function ObstructionText(lat: real, lon: real, places: nat, latUnit: string, lonUnit: string,
                           tail: string): string {
    FormatFixed(lat, places) + " " + latUnit + ", "
      + (FormatFixed(WestPositive(lon), places) + " " + lonUnit + ", " + tail)
  }

  /** Such a row is kept, and reads back as the latitude and the east-positive
      longitude that were printed, when both lie on whole hundredths (the
      parser keeps two decimals) and the longitude is off the antimeridian's
      eastern side. */
  lemma ObstructionRowReadsBack(lat: real, lon: real, places: nat, latUnit: string, lonUnit: string,
                                tail: string)
    requires places >= 2 && OnHundredths(lat) && OnHundredths(lon) && -180.0 <= lon < 180.0
    requires IsUnit(latUnit) && IsUnit(lonUnit)
    ensures var row := RowOf(ObstructionText(lat, lon, places, latUnit, lonUnit, tail));
            row.Some? && row.value[0] == lat && row.value[1] == lon
  {
    var w := WestPositive(lon);
    NoComma(lat, places, latUnit);
    NoComma(w, places, lonUnit);
    PartNumberFixed(lat, places, latUnit);
    PartNumberFixed(w, places, lonUnit);
    FixedOnHundredths(lat, places);
    Round2OnHundredths(lat);
    WestPositiveOnHundredths(lon);
    FixedOnHundredths(w, places);
    Round2OnHundredths(w);
    EastFromWestInverts(lon);
    RowOfTwoParts(FormatFixed(lat, places) + " " + latUnit, FormatFixed(w, places) + " " + lonUnit, tail);
  }

  /** A row whose first two parts hold no comma keeps their numbers first,
      the second one turned east-positive. */
  lemma RowOfTwoParts(a: string, b: string, tail: string)
    requires ',' !in a && ',' !in b
    requires PartNumber(a).Some? && PartNumber(b).Some?
    ensures var row := RowOf(a + ", " + (b + ", " + tail));
            row.Some? && row.value[0] == PartNumber(a).value
            && row.value[1] == EastFromWest(PartNumber(b).value)
  {
    var parts := Split(a + ", " + (b + ", " + tail), ", ");
    SplitTwoParts(a, b, tail);
    var floats := Somes(PartNumbers(parts));
    NumbersOfTwoParts(a, b, Split(tail, ", "));
    assert floats[0] == PartNumber(a).value && floats[1] == PartNumber(b).value;
  }

  lemma SplitTwoParts(a: string, b: string, tail: string)
    requires ',' !in a && ',' !in b
    ensures Split(a + ", " + (b + ", " + tail), ", ") == [a, b] + Split(tail, ", ")
  {
    SplitFirst(a, b + ", " + tail, ", ");
    SplitFirst(b, tail, ", ");
  }

  lemma NumbersOfTwoParts(a: string, b: string, rest: seq<string>)
    requires PartNumber(a).Some? && PartNumber(b).Some?
    ensures var floats := Somes(PartNumbers([a, b] + rest));
            |floats| >= 2 && floats[0] == PartNumber(a).value && floats[1] == PartNumber(b).value
  {
    var parts := [a, b] + rest;
    assert parts[0] == a && parts[1] == b;
    SomesTwoFirst(PartNumbers(parts));
  }

  /** A number printed with a unit word holds no comma. */
  lemma NoComma(x: real, places: nat, unit: string)
    requires IsUnit(unit)
    ensures ',' !in FormatFixed(x, places) + " " + unit
  {
    var t := FormatFixed(x, places);
    FormatFixedChars(x, places);
    forall i | 0 <= i < |t| ensures t[i] != ',' {
      assert IsNumeralChar(t[i]);
    }
    var p := t + " " + unit;
    forall i | 0 <= i < |p| ensures p[i] != ',' {
      if i > |t| { assert p[i] == unit[i - |t| - 1]; }
    }
  }

  /** Whether each line is blank once stripped. */
  function Blanks(lines: seq<string>): (b: seq<bool>)
    ensures |b| == |lines|
  {
    seq(|lines|, k requires 0 <= k < |lines| => Strip(lines[k]) == [])
  }

  /** The row each line would give inside a block. */
  function Rows(lines: seq<string>): (r: seq<Option<seq<real>>>)
    ensures |r| == |lines|
    ensures forall k :: 0 <= k < |lines| && r[k].Some? ==> |r[k].value| >= 2
  {
    seq(|lines|, k requires 0 <= k < |lines| => RowOf(Strip(lines[k])))
  }

  /** The rows present from position j up to the first blank position. */
  function UntilBlank(blank: seq<bool>, rows: seq<Option<seq<real>>>, j: nat): seq<seq<real>>
    requires |blank| == |rows|
    decreases |blank| - j
  {
    if j >= |blank| || blank[j] then []
    else (if rows[j].Some? then [rows[j].value] else []) + UntilBlank(blank, rows, j + 1)
  }

  /** The rows of the block that starts on line j: up to the first blank line. */
  function Block(lines: seq<string>, j: nat): seq<seq<real>> {
    UntilBlank(Blanks(lines), Rows(lines), j)
  }

  predicate AllHaveTwo(rows: seq<seq<real>>) {
    forall k :: 0 <= k < |rows| ==> |rows[k]| >= 2
  }

  lemma AllHaveTwoAppend(a: seq<seq<real>>, b: seq<seq<real>>)
    requires AllHaveTwo(a) && AllHaveTwo(b)
    ensures AllHaveTwo(a + b)
  {
    forall k | 0 <= k < |a + b| ensures |(a + b)[k]| >= 2 {
      if k >= |a| { assert (a + b)[k] == b[k - |a|]; }
    }
  }

  /** When every present row has two numbers, so has every row kept. */
  lemma {:induction false} UntilBlankHaveTwo(blank: seq<bool>, rows: seq<Option<seq<real>>>, j: nat)
    requires |blank| == |rows|
    requires forall k :: 0 <= k < |rows| && rows[k].Some? ==> |rows[k].value| >= 2
    ensures AllHaveTwo(UntilBlank(blank, rows, j))
    decreases |blank| - j
  {
    if j < |blank| && !blank[j] {
      UntilBlankHaveTwo(blank, rows, j + 1);
      AllHaveTwoAppend(if rows[j].Some? then [rows[j].value] else [], UntilBlank(blank, rows, j + 1));
    }
  }

  /** Every row of a block has at least a latitude and a longitude. */
  lemma BlockRowsHaveTwo(lines: seq<string>, j: nat)
    ensures AllHaveTwo(Block(lines, j))
  {
    UntilBlankHaveTwo(Blanks(lines), Rows(lines), j);
  }

  lemma BlockStep(lines: seq<string>, j: nat)
    requires j < |lines| && Strip(lines[j]) != []
    ensures var row := RowOf(Strip(lines[j]));
            Block(lines, j) == (if row.Some? then [row.value] else []) + Block(lines, j + 1)
  {
    assert !Blanks(lines)[j] && Rows(lines)[j] == RowOf(Strip(lines[j]));
  }

  /** Appending the value of a present entry, then the rest, is appending the
      two at once. */
  lemma AppendPresent<T>(xs: seq<T>, o: Option<T>, rest: seq<T>)
    ensures (if o.Some? then xs + [o.value] else xs) + rest == xs + ((if o.Some? then [o.value] else []) + rest)
  {
    if o.Some? {
      assert xs + [o.value] + rest == xs + ([o.value] + rest);
    } else {
      assert [] + rest == rest;
    }
  }

  // --------------------------------------------------------------- the report

  datatype Report = Report(
    pathObstruction: bool, firstFresnelObstruction: bool, fresnel60Obstruction: bool,
    pathMessage: string, firstFresnelMessage: string, fresnel60Message: string,
    pathObstructions: seq<seq<real>>,
    signal: Option<real>, freeSpaceLoss: Option<real>,
    lrLossType: string, lrLoss: Option<real>, distance: Option<real>)

  /** Every zone obstructed, no messages, no numbers. */
  const Initial := Report(true, true, true, "", "", "", [], None, None, "", None, None)

  /** What one line contributes to the report. */
  datatype LineFacts = LineFacts(
    cleared: Zone, rows: seq<seq<real>>, advice: Zone, message: string,
    signal: Option<real>, fspl: Option<real>, lr: Option<real>, itwom: Option<real>,
    distance: Option<real>)

  /** The obstruction rows line i introduces: the block two lines below an
      obstruction header. */
  function RowsAt(lines: seq<string>, i: nat): seq<seq<real>>
    requires i < |lines|
  {
    if Contains(lines[i], ObstructionHeader) then Block(lines, i + 2) else []
  }

  function MessageAt(lines: seq<string>, i: nat): string
    requires i < |lines|
  {
    if AdviceAt(lines, i) != NoZone then Message(lines, i) else ""
  }

  function FactsAt(lines: seq<string>, i: nat): LineFacts
    requires i < |lines|
  {
    var line := lines[i];
    LineFacts(ClearedBy(line), RowsAt(lines, i), AdviceAt(lines, i), MessageAt(lines, i),
              SignalOf(line), FsplOf(line), LrOf(line), ItwomOf(line), DistanceOf(line))
  }

  function Facts(lines: seq<string>): (fs: seq<LineFacts>)
    ensures |fs| == |lines|
  {
    seq(|lines|, i requires 0 <= i < |lines| => FactsAt(lines, i))
  }

  /** A field keeps its value unless the line gives a new one. */
  function Latest<T>(prev: Option<T>, next: Option<T>): Option<T> {
    if next.Some? then next else prev
  }

  /** The effect of one line, in the order the loop body reads it: ITWOM is
      read after Longley-Rice and so wins when a line holds both. */
  function Step(r: Report, f: LineFacts): Report {
    Report(
      r.pathObstruction && f.cleared != Path,
      r.firstFresnelObstruction && f.cleared != FirstFresnel,
      r.fresnel60Obstruction && f.cleared != Fresnel60,
      if f.advice == Path then f.message else r.pathMessage,
      if f.advice == FirstFresnel then f.message else r.firstFresnelMessage,
      if f.advice == Fresnel60 then f.message else r.fresnel60Message,
      r.pathObstructions + f.rows,
      Latest(r.signal, f.signal),
      Latest(r.freeSpaceLoss, f.fspl),
      if f.itwom.Some? then ItwomType else if f.lr.Some? then LrType else r.lrLossType,
      Latest(Latest(r.lrLoss, f.lr), f.itwom),
      Latest(r.distance, f.distance))
  }

  function Fold(fs: seq<LineFacts>): Report {
    if fs == [] then Initial else Step(Fold(fs[..|fs| - 1]), fs[|fs| - 1])
  }

  /** The report the lines make. */
  function ReportOf(lines: seq<string>): Report {
    Fold(Facts(lines))
  }

  lemma FoldStep(fs: seq<LineFacts>, i: nat)
    requires i < |fs|
    ensures Fold(fs[..i + 1]) == Step(Fold(fs[..i]), fs[i])
  {
    assert fs[..i + 1][..i] == fs[..i];
  }

  // -------------------------------------------------------------- properties

  /** A zone stays obstructed exactly when no line declares it clear. */
  lemma {:induction false} FoldObstructed(fs: seq<LineFacts>)
    ensures Fold(fs).pathObstruction <==> forall j :: 0 <= j < |fs| ==> fs[j].cleared != Path
    ensures Fold(fs).firstFresnelObstruction <==> forall j :: 0 <= j < |fs| ==> fs[j].cleared != FirstFresnel
    ensures Fold(fs).fresnel60Obstruction <==> forall j :: 0 <= j < |fs| ==> fs[j].cleared != Fresnel60
    decreases |fs|
  {
    if fs != [] {
      var init := fs[..|fs| - 1];
      FoldObstructed(init);
      assert forall j :: 0 <= j < |init| ==> init[j] == fs[j];
    }
  }

  /** One field of every line's facts. */
  function Project<T>(fs: seq<LineFacts>, field: LineFacts -> Option<T>): (r: seq<Option<T>>)
    ensures |r| == |fs| && forall j :: 0 <= j < |fs| ==> r[j] == field(fs[j])
  {
    seq(|fs|, j requires 0 <= j < |fs| => field(fs[j]))
  }

  lemma ProjectStep<T>(fs: seq<LineFacts>, field: LineFacts -> Option<T>)
    requires fs != []
    ensures LastSome(Project(fs, field)) == Latest(LastSome(Project(fs[..|fs| - 1], field)), field(fs[|fs| - 1]))
  {
    var all := Project(fs, field);
    LastSomePrefix(all, |all|);
    assert all[..|all|] == all;
    assert all[..|all| - 1] == Project(fs[..|fs| - 1], field);
  }

  function SignalField(f: LineFacts): Option<real> { f.signal }
  function FsplField(f: LineFacts): Option<real> { f.fspl }
  function DistanceField(f: LineFacts): Option<real> { f.distance }

  /** The loss a line gives, ITWOM over Longley-Rice, and which of the two
      it is. */
  function LossField(f: LineFacts): Option<real> { Latest(f.lr, f.itwom) }
  function LossTypeField(f: LineFacts): Option<string> {
    if f.itwom.Some? then Some(ItwomType) else if f.lr.Some? then Some(LrType) else None
  }

  function OrElse<T>(o: Option<T>, default: T): T {
    if o.Some? then o.value else default
  }

  /** Each numeric field is the value the last line giving one gave, and none
      when no line gives one (LastSomeIsLast spells this out). */
  lemma {:induction false} FoldReadings(fs: seq<LineFacts>)
    ensures Fold(fs).signal == LastSome(Project(fs, SignalField))
    ensures Fold(fs).freeSpaceLoss == LastSome(Project(fs, FsplField))
    ensures Fold(fs).distance == LastSome(Project(fs, DistanceField))
    decreases |fs|
  {
    if fs != [] {
      FoldReadings(fs[..|fs| - 1]);
      ProjectStep(fs, SignalField);
      ProjectStep(fs, FsplField);
      ProjectStep(fs, DistanceField);
    }
  }

  /** The path loss and its type come from the same line: the last one that
      gives a loss. */
  lemma {:induction false} FoldLoss(fs: seq<LineFacts>)
    ensures Fold(fs).lrLoss == LastSome(Project(fs, LossField))
    ensures Fold(fs).lrLossType == OrElse(LastSome(Project(fs, LossTypeField)), "")
    decreases |fs|
  {
    if fs != [] {
      FoldLoss(fs[..|fs| - 1]);
      ProjectStep(fs, LossField);
      ProjectStep(fs, LossTypeField);
    }
  }

  function PathAdvice(f: LineFacts): Option<string> { if f.advice == Path then Some(f.message) else None }
  function FirstAdvice(f: LineFacts): Option<string> { if f.advice == FirstFresnel then Some(f.message) else None }
  function Fresnel60Advice(f: LineFacts): Option<string> { if f.advice == Fresnel60 then Some(f.message) else None }

  /** Each zone's message is the one built at the last advice about that zone,
      or empty when there is none. */
  lemma {:induction false} FoldMessages(fs: seq<LineFacts>)
    ensures Fold(fs).pathMessage == OrElse(LastSome(Project(fs, PathAdvice)), "")
    ensures Fold(fs).firstFresnelMessage == OrElse(LastSome(Project(fs, FirstAdvice)), "")
    ensures Fold(fs).fresnel60Message == OrElse(LastSome(Project(fs, Fresnel60Advice)), "")
    decreases |fs|
  {
    if fs != [] {
      FoldMessages(fs[..|fs| - 1]);
      ProjectStep(fs, PathAdvice);
      ProjectStep(fs, FirstAdvice);
      ProjectStep(fs, Fresnel60Advice);
    }
  }

  /** Every row of every line's block is among the obstructions. */
  lemma {:induction false} FoldRows(fs: seq<LineFacts>, j: nat, m: nat)
    requires j < |fs| && m < |fs[j].rows|
    ensures exists p :: 0 <= p < |Fold(fs).pathObstructions| && Fold(fs).pathObstructions[p] == fs[j].rows[m]
    decreases |fs|
  {
    var init := fs[..|fs| - 1];
    var prev := Fold(init).pathObstructions;
    var last := fs[|fs| - 1];
    assert Fold(fs).pathObstructions == prev + last.rows;
    if j == |fs| - 1 {
      assert (prev + last.rows)[|prev| + m] == fs[j].rows[m];
    } else {
      assert init[j] == fs[j];
      FoldRows(init, j, m);
      var p :| 0 <= p < |prev| && prev[p] == fs[j].rows[m];
      assert (prev + last.rows)[p] == prev[p];
    }
  }

  /** Every row of the obstructions comes from some line's block. */
  lemma {:induction false} FoldRowsFrom(fs: seq<LineFacts>, p: nat)
    requires p < |Fold(fs).pathObstructions|
    ensures exists j, m :: 0 <= j < |fs| && 0 <= m < |fs[j].rows| && Fold(fs).pathObstructions[p] == fs[j].rows[m]
    decreases |fs|
  {
    var init := fs[..|fs| - 1];
    var prev := Fold(init).pathObstructions;
    var last := fs[|fs| - 1];
    assert Fold(fs).pathObstructions == prev + last.rows;
    if p < |prev| {
      FoldRowsFrom(init, p);
      var j, m :| 0 <= j < |init| && 0 <= m < |init[j].rows| && prev[p] == init[j].rows[m];
      assert init[j] == fs[j];
    } else {
      assert (prev + last.rows)[p] == last.rows[p - |prev|];
    }
  }

  /** Rows that each have two numbers stay so when the lines are folded. */
  lemma {:induction false} FoldRowsHaveTwo(fs: seq<LineFacts>)
    requires forall j :: 0 <= j < |fs| ==> AllHaveTwo(fs[j].rows)
    ensures AllHaveTwo(Fold(fs).pathObstructions)
    decreases |fs|
  {
    if fs != [] {
      var init := fs[..|fs| - 1];
      assert forall j :: 0 <= j < |init| ==> init[j] == fs[j];
      FoldRowsHaveTwo(init);
      AllHaveTwoAppend(Fold(init).pathObstructions, fs[|fs| - 1].rows);
    }
  }

  lemma RowsAtHaveTwo(lines: seq<string>, j: nat)
    requires j < |lines|
    ensures AllHaveTwo(Facts(lines)[j].rows)
  {
    BlockRowsHaveTwo(lines, j + 2);
  }

  /** Every obstruction the report lists has at least a latitude and a
      longitude. */
  lemma ObstructionsHaveTwoNumbers(lines: seq<string>)
    ensures AllHaveTwo(ReportOf(lines).pathObstructions)
  {
    forall j | 0 <= j < |lines| ensures AllHaveTwo(Facts(lines)[j].rows) {
      RowsAtHaveTwo(lines, j);
    }
    FoldRowsHaveTwo(Facts(lines));
  }

  /** A present row that comes before any blank position is kept. */
  lemma {:induction false} UntilBlankHas(blank: seq<bool>, rows: seq<Option<seq<real>>>, j: nat, k: nat)
    requires |blank| == |rows| && j <= k < |blank|
    requires forall i :: j <= i <= k ==> !blank[i]
    requires rows[k].Some?
    ensures rows[k].value in UntilBlank(blank, rows, j)
    decreases k - j
  {
    if j < k {
      UntilBlankHas(blank, rows, j + 1, k);
    }
  }

  /** No line from j to k is blank once stripped. */
  predicate NoBlankBetween(lines: seq<string>, j: nat, k: nat)
    requires k < |lines|
  {
    forall i :: j <= i <= k ==> !Blanks(lines)[i]
  }

  /** The row of a line in an uninterrupted run starting at j is in the block
      that starts at j. */
  lemma {:induction false} BlockHas(lines: seq<string>, j: nat, k: nat, row: seq<real>)
    requires j <= k < |lines| && NoBlankBetween(lines, j, k)
    requires RowOf(Strip(lines[k])) == Some(row)
    ensures row in Block(lines, j)
  {
    assert Rows(lines)[k] == Some(row);
    UntilBlankHas(Blanks(lines), Rows(lines), j, k);
  }

  /** A row printed with a latitude and a westward longitude, in an
      uninterrupted block starting two lines below an obstruction header, is
      listed in the report with that latitude and the east-positive
      longitude. */
  lemma {:induction false} ObstructionListed(lines: seq<string>, h: nat, j: nat, k: nat, lat: real, lon: real,
                          places: nat, latUnit: string, lonUnit: string, tail: string)
    requires j == h + 2 && j <= k < |lines| && Contains(lines[h], ObstructionHeader)
    requires NoBlankBetween(lines, j, k)
    requires Strip(lines[k]) == ObstructionText(lat, lon, places, latUnit, lonUnit, tail)
    requires places >= 2 && OnHundredths(lat) && OnHundredths(lon) && -180.0 <= lon < 180.0
    requires IsUnit(latUnit) && IsUnit(lonUnit)
    ensures exists row :: row in ReportOf(lines).pathObstructions && |row| >= 2 && row[0] == lat && row[1] == lon
  {
    ObstructionRowReadsBack(lat, lon, places, latUnit, lonUnit, tail);
    var row := RowOf(Strip(lines[k])).value;
    RowAtListed(lines, h, j, k, row);
  }

  /** A row kept from a line of the uninterrupted run that starts at j, two
      lines below an obstruction header at h, is listed. */
  lemma {:induction false} RowAtListed(lines: seq<string>, h: nat, j: nat, k: nat, row: seq<real>)
    requires j == h + 2 && j <= k < |lines| && Contains(lines[h], ObstructionHeader)
    requires NoBlankBetween(lines, j, k)
    requires RowOf(Strip(lines[k])) == Some(row)
    ensures row in ReportOf(lines).pathObstructions
  {
    BlockHas(lines, j, k, row);
    BlockRowListed(lines, h, j, row);
  }

  /** A row of the block below an obstruction header is listed. */
  lemma BlockRowListed(lines: seq<string>, h: nat, j: nat, row: seq<real>)
    requires h < |lines| && Contains(lines[h], ObstructionHeader) && j == h + 2
    requires row in Block(lines, j)
    ensures row in ReportOf(lines).pathObstructions
  {
    HeaderRows(lines, h);
    FactsRowListed(lines, h, row);
  }

  /** A row some line contributes is among the report's obstructions. */
  lemma FactsRowListed(lines: seq<string>, j: nat, row: seq<real>)
    requires j < |lines| && row in Facts(lines)[j].rows
    ensures row in ReportOf(lines).pathObstructions
  {
    var m :| 0 <= m < |Facts(lines)[j].rows| && Facts(lines)[j].rows[m] == row;
    FoldRows(Facts(lines), j, m);
  }

  /** The rows a header line contributes are the block two lines below it. */
  lemma HeaderRows(lines: seq<string>, h: nat)
    requires h < |lines| && Contains(lines[h], ObstructionHeader)
    ensures Facts(lines)[h].rows == Block(lines, h + 2)
  {
    assert Facts(lines)[h] == FactsAt(lines, h);
  }

  // ------------------------------------------------------------- the methods

  /** The inner loop over one row's comma-separated parts. */
  method ReadRow(raw: string) returns (row: Option<seq<real>>)
    ensures row == RowOf(raw)
  {
    var parts := Split(raw, ", ");
    var floats: seq<real> := [];
    var k := 0;
    while k < |parts|
      invariant 0 <= k <= |parts|
      invariant floats == Somes(PartNumbers(parts)[..k])
    {
      SomesStep(PartNumbers(parts), k);
      var v := PartNumber(parts[k]);
      if v.Some? {
        floats := floats + [v.value];
      }
      k := k + 1;
    }
    assert PartNumbers(parts)[..|parts|] == PartNumbers(parts);
    if |floats| >= 2 {
      floats := floats[1 := EastFromWest(floats[1])];
      row := Some(floats);
    } else {
      row := None;
    }
  }

  /** One line of the block: its row, if it has one, is appended. */
  method ReadBlockLine(lines: seq<string>, start: nat, j: nat, rows: seq<seq<real>>)
    returns (rows': seq<seq<real>>)
    requires j < |lines| && Strip(lines[j]) != []
    requires rows + Block(lines, j) == Block(lines, start)
    ensures rows' + Block(lines, j + 1) == Block(lines, start)
  {
    var row := ReadRow(Strip(lines[j]));
    BlockStep(lines, j);
    AppendPresent(rows, row, Block(lines, j + 1));
    rows' := rows;
    if row.Some? {
      rows' := rows + [row.value];
    }
  }

  /** The block loop: rows from line `start` up to the first blank line. */
  method ReadBlock(lines: seq<string>, start: nat) returns (rows: seq<seq<real>>)
    ensures rows == Block(lines, start)
  {
    rows := [];
    var j := start;
    while j < |lines| && Strip(lines[j]) != []
      invariant start <= j
      invariant rows + Block(lines, j) == Block(lines, start)
      decreases |lines| - j
    {
      rows := ReadBlockLine(lines, start, j, rows);
      j := j + 1;
    }
    assert j >= |lines| || Blanks(lines)[j];
    assert Block(lines, j) == [];
    assert rows + [] == rows;
  }

  /** The fallback loop over the reversed tokens, stopping at the first that
      parses; the number it keeps is rounded. */
  method FindLastNumber(tokens: seq<string>) returns (v: Option<real>)
    ensures v == LastNumber(tokens)
  {
    var found := LastParse(tokens);
    v := Rounded(found);
  }

  /** The scan itself: from the end, the first token float() accepts. */
  method LastParse(tokens: seq<string>) returns (found: Option<real>)
    ensures found == LastParsed(tokens)
  {
    var k := |tokens|;
    found := None;
    assert tokens[..k] == tokens;
    while k > 0 && found.None?
      invariant 0 <= k <= |tokens|
      invariant LastParsed(tokens) == if found.Some? then found else LastParsed(tokens[..k])
      decreases k
    {
      assert tokens[..k][..k - 1] == tokens[..k - 1];
      found := ParseFloat(tokens[k - 1]);
      k := k - 1;
    }
  }

  /** The anchor sentences that declare a zone clear: at most one per line. */
  method ClearZones(line: string, path: bool, first: bool, f60: bool)
    returns (path': bool, first': bool, f60': bool)
    ensures path' == (path && ClearedBy(line) != Path)
    ensures first' == (first && ClearedBy(line) != FirstFresnel)
    ensures f60' == (f60 && ClearedBy(line) != Fresnel60)
  {
    path', first', f60' := path, first, f60;
    if Contains(line, NoLos) {
      path' := false;
    } else if Contains(line, FirstClear) {
      first' := false;
    } else if Contains(line, F60Clear) {
      f60' := false;
    }
  }

  /** The obstruction header: the block two lines further down is appended. */
  method ReadObstructions(lines: seq<string>, i: nat, obstructions: seq<seq<real>>)
    returns (obstructions': seq<seq<real>>)
    requires i < |lines|
    ensures obstructions' == obstructions + RowsAt(lines, i)
  {
    obstructions' := obstructions;
    if Contains(lines[i], ObstructionHeader) {
      var rows := ReadBlock(lines, i + 2);
      obstructions' := obstructions + rows;
    } else {
      assert obstructions + [] == obstructions;
    }
  }

  /** The advice sentences: the message of at most one zone is replaced. */
  method ReadAdvice(lines: seq<string>, i: nat, path: string, first: string, f60: string)
    returns (path': string, first': string, f60': string)
    requires i < |lines|
    ensures path' == if AdviceAt(lines, i) == Path then MessageAt(lines, i) else path
    ensures first' == if AdviceAt(lines, i) == FirstFresnel then MessageAt(lines, i) else first
    ensures f60' == if AdviceAt(lines, i) == Fresnel60 then MessageAt(lines, i) else f60
  {
    path', first', f60' := path, first, f60;
    var n := |lines|;
    var line := lines[i];
    ghost var zone := AdviceAt(lines, i);
    if Contains(line, ClearAllAdvice) && i + 1 < n {
      assert zone == Path;
      path' := Message(lines, i);
    } else if Contains(line, ClearFirstAdvice) && i + 1 < n {
      assert zone == FirstFresnel;
      first' := Message(lines, i);
    } else if Contains(line, Clear60Advice) && i + 1 < n {
      assert zone == Fresnel60;
      f60' := Message(lines, i);
    } else {
      assert zone == NoZone;
    }
  }

  /** A field read with the fallback scan: token `idx`, or the last number on
      the line, or the value it had. */
  method ReadWithFallback(line: string, anchor: string, idx: nat, current: Option<real>)
    returns (v': Option<real>)
    ensures v' == Latest(current, WithFallback(line, anchor, idx))
  {
    v' := current;
    if Contains(line, anchor) {
      var v := ExtractFloatAfter(line, idx);
      if v.None? {
        var last := FindLastNumber(SplitWs(Strip(line)));
        if last.Some? {
          v' := last;
        }
      } else {
        v' := v;
      }
    }
  }

  /** A path-loss line: its value and the name of the model that gave it. */
  method ReadLossField(line: string, anchor: string, idx: nat, name: string,
                       lossType: string, loss: Option<real>)
    returns (lossType': string, loss': Option<real>)
    ensures lossType' == if FieldOf(line, anchor, idx).Some? then name else lossType
    ensures loss' == Latest(loss, FieldOf(line, anchor, idx))
  {
    lossType', loss' := lossType, loss;
    if Contains(line, anchor) {
      var v := ExtractFloatAfter(line, idx);
      if v.Some? {
        lossType' := name;
        loss' := Some(Round2(v.value));
        assert loss' == FieldOf(line, anchor, idx);
      } else {
        assert FieldOf(line, anchor, idx).None?;
      }
    } else {
      assert FieldOf(line, anchor, idx).None?;
    }
  }

  method ReadDistance(line: string, distance: Option<real>) returns (distance': Option<real>)
    ensures distance' == Latest(distance, DistanceOf(line))
  {
    distance' := distance;
    if Contains(line, DistanceAnchor) {
      var v := ExtractFloatAfter(line, 3);
      if v.Some? {
        distance' := Some(Round2(v.value));
      }
    }
  }

  /** `_parse_tx_to_rx_report`: one pass over the lines, each block of the
      loop body a method of its own. */
  method ParseReport(lines: seq<string>) returns (report: Report)
    ensures report == ReportOf(lines)
  {
    var pathObstruction, firstFresnelObstruction, fresnel60Obstruction := true, true, true;
    var pathMessage, firstFresnelMessage, fresnel60Message := "", "", "";
    var pathObstructions: seq<seq<real>> := [];
    var signal: Option<real> := None;
    var freeSpaceLoss: Option<real> := None;
    var lrLossType := "";
    var lrLoss: Option<real> := None;
    var distance: Option<real> := None;
    var n := |lines|;
    var i := 0;
    while i < n
      invariant 0 <= i <= n
      invariant Report(pathObstruction, firstFresnelObstruction, fresnel60Obstruction,
                       pathMessage, firstFresnelMessage, fresnel60Message, pathObstructions,
                       signal, freeSpaceLoss, lrLossType, lrLoss, distance) == Fold(Facts(lines)[..i])
    {
      FoldStep(Facts(lines), i);
      assert Facts(lines)[i] == FactsAt(lines, i);
      var line := lines[i];
      pathObstruction, firstFresnelObstruction, fresnel60Obstruction :=
        ClearZones(line, pathObstruction, firstFresnelObstruction, fresnel60Obstruction);
      pathObstructions := ReadObstructions(lines, i, pathObstructions);
      pathMessage, firstFresnelMessage, fresnel60Message :=
        ReadAdvice(lines, i, pathMessage, firstFresnelMessage, fresnel60Message);
      signal := ReadWithFallback(line, SignalAnchor, 5, signal);
      freeSpaceLoss := ReadWithFallback(line, FsplAnchor, 4, freeSpaceLoss);
      lrLossType, lrLoss := ReadLossField(line, LrAnchor, 3, LrType, lrLossType, lrLoss);
      lrLossType, lrLoss := ReadLossField(line, ItwomAnchor, 5, ItwomType, lrLossType, lrLoss);
      distance := ReadDistance(line, distance);
      i := i + 1;
    }
    assert Facts(lines)[..n] == Facts(lines);
    report := Report(pathObstruction, firstFresnelObstruction, fresnel60Obstruction,
                     pathMessage, firstFresnelMessage, fresnel60Message, pathObstructions,
                     signal, freeSpaceLoss, lrLossType, lrLoss, distance);
  }
}

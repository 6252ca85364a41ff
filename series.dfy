/** The tab-separated x/y series SPLAT! writes for gnuplot (profile,
    curvature, Fresnel zones, reference line). */
module Series {
  import opened Text
  import opened Numbers

  /** The point a line gives: x from the first tab-separated field, y from
      field `valueIndex`; a line that is empty, too short or does not parse
      gives none. */
  function LinePoint(line: string, valueIndex: nat): Option<(real, real)> {
    if line == [] then None
    else
      var parts := Split(line, "\t");
      if valueIndex >= |parts| then None
      else
        match (ParseFloat(parts[0]), ParseFloat(parts[valueIndex]))
        case (Some(x), Some(y)) => Some((x, y))
        case _ => None
  }

  /** What each line gives. */
  function LinePoints(lines: seq<string>, valueIndex: nat): (r: seq<Option<(real, real)>>)
    ensures |r| == |lines| && forall i :: 0 <= i < |lines| ==> r[i] == LinePoint(lines[i], valueIndex)
  {
    seq(|lines|, i requires 0 <= i < |lines| => LinePoint(lines[i], valueIndex))
  }

  /** The points of the lines, in order. */
  function Points(lines: seq<string>, valueIndex: nat): seq<(real, real)> {
    Somes(LinePoints(lines, valueIndex))
  }

  /** `_parse_gp_xy_lines`: the xs and ys of the lines that parse, as two
      lists of equal length. */
  method ParseSeries(lines: seq<string>, valueIndex: nat) returns (xs: seq<real>, ys: seq<real>)
    ensures |xs| == |ys| == |Points(lines, valueIndex)|
    ensures forall k :: 0 <= k < |xs| ==> Points(lines, valueIndex)[k] == (xs[k], ys[k])
  {
    xs, ys := [], [];
    var i := 0;
    while i < |lines|
      invariant 0 <= i <= |lines|
      invariant |xs| == |ys| == |Points(lines[..i], valueIndex)|
      invariant forall k :: 0 <= k < |xs| ==> Points(lines[..i], valueIndex)[k] == (xs[k], ys[k])
    {
      PointsStep(lines, i, valueIndex);
      var line := lines[i];
      var p := LinePoint(line, valueIndex);
      if p.Some? {
        xs := xs + [p.value.0];
        ys := ys + [p.value.1];
      }
      i := i + 1;
    }
    assert lines[..|lines|] == lines;
  }

  lemma PointsStep(lines: seq<string>, i: nat, valueIndex: nat)
    requires i < |lines|
    ensures var p := LinePoint(lines[i], valueIndex);
            Points(lines[..i + 1], valueIndex)
              == Points(lines[..i], valueIndex) + if p.Some? then [p.value] else []
  {
    assert lines[..i + 1] == lines[..i] + [lines[i]];
    PointsAppend(lines[..i], [lines[i]], valueIndex);
    PointsOfLine(lines[i], valueIndex);
  }

  /** The series of two files read one after the other is the series of the
      first followed by that of the second: lines are neither reordered nor
      merged. */
  lemma PointsAppend(a: seq<string>, b: seq<string>, valueIndex: nat)
    ensures Points(a + b, valueIndex) == Points(a, valueIndex) + Points(b, valueIndex)
  {
    LinePointsAppend(a, b, valueIndex);
    SomesAppend(LinePoints(a, valueIndex), LinePoints(b, valueIndex));
  }

  lemma LinePointsAppend(a: seq<string>, b: seq<string>, valueIndex: nat)
    ensures LinePoints(a + b, valueIndex) == LinePoints(a, valueIndex) + LinePoints(b, valueIndex)
  {
  }

  /** A single line contributes exactly its own point, or nothing. */
  lemma PointsOfLine(line: string, valueIndex: nat)
    ensures var p := LinePoint(line, valueIndex);
            Points([line], valueIndex) == if p.Some? then [p.value] else []
  {
    SingleLine(line, valueIndex);
    SomesOne(LinePoint(line, valueIndex));
  }

  lemma SingleLine(line: string, valueIndex: nat)
    ensures LinePoints([line], valueIndex) == [LinePoint(line, valueIndex)]
  {
  }

  /** There are never more points than lines, and none at all when no line
      gives one. */
  lemma {:induction false} SomesBound<T>(xs: seq<Option<T>>)
    ensures |Somes(xs)| <= |xs|
    ensures (forall i :: 0 <= i < |xs| ==> xs[i].None?) ==> Somes(xs) == []
    decreases |xs|
  {
    if xs != [] {
      var init := xs[..|xs| - 1];
      SomesBound(init);
      assert forall i :: 0 <= i < |init| ==> init[i] == xs[i];
    }
  }

  lemma PointsBound(lines: seq<string>, valueIndex: nat)
    ensures |Points(lines, valueIndex)| <= |lines|
    ensures (forall i :: 0 <= i < |lines| ==> LinePoint(lines[i], valueIndex).None?)
            ==> Points(lines, valueIndex) == []
  {
    SomesBound(LinePoints(lines, valueIndex));
  }
}

// The antenna-pattern viewer's reading of a SPLAT! `.az` or `.el` file: an
// optional rotation line, then angle/value lines; the points are turned by the
// rotation, sorted by angle and the curve is closed.

module AntennaPattern {
  import opened Text
  import opened Numbers

  /** What one line of the file is to the reader. */
  datatype Line =
    | Skip                                // blank, comment, or unreadable
    | Single(number: Option<real>)        // one token, parsed or not
    | Point(angle: real, value: real)     // first two tokens both numbers

  /** How a line is read: stripped; blank and `#` lines are skipped; a line of
      one token is a possible rotation; otherwise the first two tokens must
      both parse for the line to give a point. */
  function Classify(line: string): Line {
    var s := Strip(line);
    if s == [] || s[0] == '#' then Skip
    else
      var parts := SplitWs(s);
      if |parts| == 1 then Single(ParseFloat(parts[0]))
      else if |parts| < 2 then Skip
      else
        match (ParseFloat(parts[0]), ParseFloat(parts[1]))
        case (Some(a), Some(v)) => Point(a, v)
        case _ => Skip
  }

  /** The rotation and the points read so far. */
  datatype Pattern = Pattern(rotation: real, angles: seq<real>, values: seq<real>)

  /** One line's effect: a parsed single token sets the rotation only while
      no point has been read; a point is appended to both lists. */
  function Step(p: Pattern, l: Line): Pattern {
    match l
    case Skip => p
    case Single(r) => if p.angles == [] && r.Some? then p.(rotation := r.value) else p
    case Point(a, v) => p.(angles := p.angles + [a], values := p.values + [v])
  }

  /** How each line of a file is read. */
  function Classified(lines: seq<string>): (ls: seq<Line>)
    ensures |ls| == |lines|
  {
    seq(|lines|, k requires 0 <= k < |lines| => Classify(lines[k]))
  }

  lemma ClassifiedPrefix(lines: seq<string>, i: nat)
    requires i <= |lines|
    ensures Classified(lines[..i]) == Classified(lines)[..i]
  {
  }

  /** The state after the given lines, from rotation 0 and no points. Angles
      and values stay paired. */
  function Fold(ls: seq<Line>): (p: Pattern)
    ensures |p.angles| == |p.values|
  {
    if ls == [] then Pattern(0.0, [], [])
    else Step(Fold(ls[..|ls| - 1]), ls[|ls| - 1])
  }

  /** Reading one more line is one more step. */
  lemma FoldSnoc(ls: seq<Line>, i: nat)
    requires i < |ls|
    ensures Fold(ls[..i + 1]) == Step(Fold(ls[..i]), ls[i])
  {
    assert ls[..i + 1][..i] == ls[..i];
  }

  /** The state after reading a whole file. */
  function Scanned(lines: seq<string>): Pattern {
    Fold(Classified(lines))
  }

  /** The point a line gives, if any. */
  function PointOf(l: Line): Option<(real, real)> {
    match l
    case Point(a, v) => Some((a, v))
    case _ => None
  }

  /** The points of the lines that give one, in file order. */
  function LinePoints(ls: seq<Line>): seq<(real, real)> {
    Somes(seq(|ls|, k requires 0 <= k < |ls| => PointOf(ls[k])))
  }

  function Points(lines: seq<string>): seq<(real, real)> {
    LinePoints(Classified(lines))
  }

  lemma LinePointsStep(ls: seq<Line>)
    requires ls != []
    ensures LinePoints(ls) == LinePoints(ls[..|ls| - 1])
                              + (if PointOf(ls[|ls| - 1]).Some? then [PointOf(ls[|ls| - 1]).value] else [])
  {
    var all := seq(|ls|, k requires 0 <= k < |ls| => PointOf(ls[k]));
    var init := ls[..|ls| - 1];
    assert all[..|all| - 1] == seq(|init|, k requires 0 <= k < |init| => PointOf(init[k]));
  }

  /** The lists hold exactly the points of the lines that give one, in
      order: skipped lines and single tokens add nothing. */
  lemma {:induction false} FoldPoints(ls: seq<Line>)
    ensures var p := Fold(ls);
            |p.angles| == |LinePoints(ls)|
            && forall k :: 0 <= k < |p.angles| ==> (p.angles[k], p.values[k]) == LinePoints(ls)[k]
  {
    if ls != [] {
      var init := ls[..|ls| - 1];
      FoldPoints(init);
      LinePointsStep(ls);
      var p, q := Fold(init), Fold(ls);
      var pts := LinePoints(init);
      match ls[|ls| - 1]
      case Point(a, v) =>
        assert q.angles == p.angles + [a] && q.values == p.values + [v];
        assert LinePoints(ls) == pts + [(a, v)];
        forall k | 0 <= k < |q.angles| ensures (q.angles[k], q.values[k]) == LinePoints(ls)[k] {
          if k < |p.angles| {
            assert q.angles[k] == p.angles[k] && q.values[k] == p.values[k];
          }
        }
      case Skip =>
      case Single(_) =>
    }
  }

  /** A file's angle and value lists hold exactly the points of its lines
      whose first two tokens both parse, in file order. */
  lemma ScannedPoints(lines: seq<string>)
    ensures var p := Scanned(lines);
            |p.angles| == |Points(lines)|
            && forall k :: 0 <= k < |p.angles| ==> (p.angles[k], p.values[k]) == Points(lines)[k]
  {
    FoldPoints(Classified(lines));
  }

  /** Once a point has been read, no later line changes the rotation. */
  lemma {:induction false} FoldRotationFixed(ls: seq<Line>, i: nat)
    requires i <= |ls| && Fold(ls[..i]).angles != []
    ensures Fold(ls).rotation == Fold(ls[..i]).rotation && Fold(ls).angles != []
    decreases |ls| - i
  {
    if i < |ls| {
      var init := ls[..|ls| - 1];
      assert init[..i] == ls[..i];
      FoldRotationFixed(init, i);
    } else {
      assert ls[..i] == ls;
    }
  }

  /** Once a point has been read the rotation no longer changes: a later
      single token is skipped. */
  lemma RotationFixedAfterData(lines: seq<string>, i: nat)
    requires i <= |lines| && Scanned(lines[..i]).angles != []
    ensures Scanned(lines).rotation == Scanned(lines[..i]).rotation
    ensures Scanned(lines).angles != []
  {
    ClassifiedPrefix(lines, i);
    FoldRotationFixed(Classified(lines), i);
  }

  /** Before any point, the rotation is the last single token that parsed
      (0 when there is none). */
  lemma {:induction false} FoldRotationBeforeData(ls: seq<Line>)
    requires Fold(ls).angles == []
    ensures Fold(ls).rotation == LastRotation(ls)
  {
    if ls != [] {
      var init := ls[..|ls| - 1];
      assert Fold(init).angles == [] by {
        if Fold(init).angles != [] {
          assert init == ls[..|ls| - 1];
          FoldRotationFixed(ls, |ls| - 1);
        }
      }
      FoldRotationBeforeData(init);
    }
  }

  /** The number of the last single-token line that parsed, or 0. */
  function LastRotation(ls: seq<Line>): real {
    if ls == [] then 0.0
    else if ls[|ls| - 1].Single? && ls[|ls| - 1].number.Some? then ls[|ls| - 1].number.value
    else LastRotation(ls[..|ls| - 1])
  }

  /** A file whose lines all are blank or comments reads as rotation 0 and no
      points. */
  lemma {:induction false} FoldSkips(ls: seq<Line>)
    requires forall k :: 0 <= k < |ls| ==> ls[k] == Skip
    ensures Fold(ls) == Pattern(0.0, [], [])
  {
    if ls != [] {
      FoldSkips(ls[..|ls| - 1]);
    }
  }

  lemma BlankFileHasNoPoints(lines: seq<string>)
    requires forall k :: 0 <= k < |lines| ==> Strip(lines[k]) == [] || Strip(lines[k])[0] == '#'
    ensures Scanned(lines) == Pattern(0.0, [], [])
  {
    FoldSkips(Classified(lines));
  }

  /** The reading loop: every line in turn, with the same three cases. */
  method ReadLines(lines: seq<string>) returns (p: Pattern)
    ensures p == Scanned(lines)
  {
    var rotation := 0.0;
    var angles: seq<real> := [];
    var values: seq<real> := [];
    var ls := Classified(lines);
    var i := 0;
    while i < |lines|
      invariant i <= |lines|
      invariant Pattern(rotation, angles, values) == Fold(ls[..i])
    {
      FoldSnoc(ls, i);
      ghost var before := Pattern(rotation, angles, values);
      var l := ls[i];
      match l {
        case Skip =>
        case Single(r) =>
          if angles == [] && r.Some? {
            rotation := r.value;
          }
        case Point(a, v) =>
          angles := angles + [a];
          values := values + [v];
      }
      assert Pattern(rotation, angles, values) == Step(before, l);
      i := i + 1;
    }
    assert ls[..i] == ls;
    p := Pattern(rotation, angles, values);
  }

  const NoData := "Napaka: ni veljavnih podatkov v datoteki."

  /** Reading the file: an error when it has no point. */
  method LoadPattern(lines: seq<string>) returns (r: Result<Pattern, string>)
    ensures r.Failure? <==> Points(lines) == []
    ensures r.Failure? ==> r.error == NoData
    ensures r.Success? ==> r.value == Scanned(lines) && |r.value.angles| > 0
  {
    var p := ReadLines(lines);
    ScannedPoints(lines);
    if p.angles == [] {
      return Failure(NoData);
    }
    return Success(p);
  }

  // ---------------------------------------------------------- shaping the curve

  /** x % 360.0 as numpy computes it for floats: the result has the sign of
      the divisor, so it lies in [0, 360). */
  function Wrap(x: real): (r: real)
    ensures 0.0 <= r < 360.0
    ensures (x - r) / 360.0 == (x / 360.0).Floor as real
  {
    x - 360.0 * (x / 360.0).Floor as real
  }

  /** An angle already in [0, 360) is left as it is. */
  lemma WrapKeepsTurn(x: real)
    requires 0.0 <= x < 360.0
    ensures Wrap(x) == x
  {
    assert (x / 360.0).Floor == 0;
  }

  /** The points turned by the rotation, angles wrapped into [0, 360). */
  function Turned(p: Pattern): (pts: seq<(real, real)>)
    requires |p.angles| == |p.values|
    ensures |pts| == |p.angles|
    ensures forall k :: 0 <= k < |pts| ==> 0.0 <= pts[k].0 < 360.0 && pts[k].1 == p.values[k]
  {
    seq(|p.angles|, k requires 0 <= k < |p.angles| => (Wrap(p.angles[k] + p.rotation), p.values[k]))
  }

  predicate SortedByAngle(pts: seq<(real, real)>) {
    forall i, j :: 0 <= i <= j < |pts| ==> pts[i].0 <= pts[j].0
  }

  /** Inserting a point into a list sorted by angle. */
  function Insert(x: (real, real), pts: seq<(real, real)>): (r: seq<(real, real)>)
    requires SortedByAngle(pts)
    ensures SortedByAngle(r) && multiset(r) == multiset(pts) + multiset{x}
  {
    if pts == [] then [x]
    else if x.0 <= pts[0].0 then [x] + pts
    else
      var rest := Insert(x, pts[1..]);
      assert pts == [pts[0]] + pts[1..];
      assert forall k :: 0 <= k < |rest| ==> rest[k] in multiset(pts[1..]) + multiset{x};
      InsertHead(pts[0], rest, pts[1..], x);
      [pts[0]] + rest
  }

  lemma InsertHead(h: (real, real), rest: seq<(real, real)>, tail: seq<(real, real)>, x: (real, real))
    requires SortedByAngle(rest) && h.0 < x.0
    requires forall k :: 0 <= k < |tail| ==> h.0 <= tail[k].0
    requires multiset(rest) == multiset(tail) + multiset{x}
    ensures SortedByAngle([h] + rest)
  {
    forall k | 0 <= k < |rest| ensures h.0 <= rest[k].0 {
      assert rest[k] in multiset(rest);
      if rest[k] != x {
        assert rest[k] in multiset(tail);
        var j :| 0 <= j < |tail| && tail[j] == rest[k];
      }
    }
    var all := [h] + rest;
    forall i, j | 0 <= i <= j < |all| ensures all[i].0 <= all[j].0 {
      if i > 0 {
        assert all[i] == rest[i - 1] && all[j] == rest[j - 1];
      } else if j > 0 {
        assert all[j] == rest[j - 1];
      }
    }
  }

  /** `np.argsort` by angle, then both lists reordered: a sorted arrangement
      of the same points. */
  function SortByAngle(pts: seq<(real, real)>): (r: seq<(real, real)>)
    ensures SortedByAngle(r) && multiset(r) == multiset(pts)
  {
    if pts == [] then []
    else
      var r := Insert(pts[0], SortByAngle(pts[1..]));
      assert pts == [pts[0]] + pts[1..];
      r
  }

  /** Closing the curve: when the first and last angles differ, the first
      point is repeated one turn later. */
  function Close(pts: seq<(real, real)>): seq<(real, real)>
    requires pts != []
  {
    if pts[0].0 != pts[|pts| - 1].0 then pts + [(pts[0].0 + 360.0, pts[0].1)] else pts
  }

  /** A sorted curve of angles in [0, 360) stays sorted when closed, gains one
      point exactly when its first and last angles differ, and then ends one
      turn after it starts with the value it starts with. */
  lemma ClosedCurve(pts: seq<(real, real)>)
    requires pts != [] && SortedByAngle(pts)
    requires forall k :: 0 <= k < |pts| ==> 0.0 <= pts[k].0 < 360.0
    ensures var c := Close(pts);
            && SortedByAngle(c) && c[..|pts|] == pts
            && (|c| == |pts| + 1 <==> pts[0].0 != pts[|pts| - 1].0)
            && (|c| == |pts| + 1 ==> c[|pts|] == (c[0].0 + 360.0, c[0].1))
            && (|c| == |pts| ==> c[0].0 == c[|c| - 1].0)
  {
    var c := Close(pts);
    assert c[..|pts|] == pts;
    if |c| == |pts| + 1 {
      forall i, j | 0 <= i <= j < |c| ensures c[i].0 <= c[j].0 {
        if j == |pts| {
          if i < |pts| {
            assert c[i] == pts[i];
          }
        } else {
          assert c[i] == pts[i] && c[j] == pts[j];
        }
      }
    }
  }

  /** The curve the viewer draws (before the gains are turned into dB):
      the turned points sorted by angle, closed. */
  function Curve(lines: seq<string>): (r: Result<seq<(real, real)>, string>)
    ensures r.Failure? <==> Points(lines) == []
    ensures r.Failure? ==> r.error == NoData
  {
    var p := Scanned(lines);
    ScannedPoints(lines);
    if p.angles == [] then Failure(NoData)
    else Success(Drawn(p))
  }

  /** The turned points sorted by angle, closed. */
  function Drawn(p: Pattern): seq<(real, real)>
    requires |p.angles| == |p.values| && p.angles != []
  {
    Close(SortByAngle(Turned(p)))
  }

  /** The sorted turned points are the turned points rearranged, all in
      [0, 360). */
  lemma SortedTurned(p: Pattern)
    requires |p.angles| == |p.values|
    ensures var t := Turned(p);
            var pts := SortByAngle(t);
            && |pts| == |t| && SortedByAngle(pts) && multiset(pts) == multiset(t)
            && forall k :: 0 <= k < |pts| ==> 0.0 <= pts[k].0 < 360.0
  {
    SortedAngles(Turned(p));
  }

  /** Sorting points whose angles lie in [0, 360) keeps them there. */
  lemma SortedAngles(t: seq<(real, real)>)
    requires forall k :: 0 <= k < |t| ==> 0.0 <= t[k].0 < 360.0
    ensures var pts := SortByAngle(t);
            && |pts| == |t| && SortedByAngle(pts) && multiset(pts) == multiset(t)
            && forall k :: 0 <= k < |pts| ==> 0.0 <= pts[k].0 < 360.0
  {
    var pts := SortByAngle(t);
    assert |pts| == |multiset(pts)| == |multiset(t)| == |t|;
    forall k | 0 <= k < |pts| ensures 0.0 <= pts[k].0 < 360.0 {
      assert pts[k] in multiset(t);
      var j :| 0 <= j < |t| && t[j] == pts[k];
    }
  }

  /** A drawn curve holds every point once, turned and sorted by angle,
      plus the closing point when the curve is not already closed; it is
      sorted by angle throughout. */
  lemma DrawnShape(p: Pattern)
    requires |p.angles| == |p.values| && p.angles != []
    ensures var c := Drawn(p);
            var pts := SortByAngle(Turned(p));
            && SortedByAngle(c) && |pts| == |p.angles|
            && c[..|pts|] == pts && multiset(pts) == multiset(Turned(p))
            && (|c| == |pts| || c[|pts|] == (c[0].0 + 360.0, c[0].1))
  {
    var t := Turned(p);
    var pts := SortByAngle(t);
    var c := Drawn(p);
    assert c == Close(pts);
    SortedClosed(t, pts, c);
  }

  /** The shape of a named sorted and closed curve. */
  lemma SortedClosed(t: seq<(real, real)>, pts: seq<(real, real)>, c: seq<(real, real)>)
    requires t != [] && forall k :: 0 <= k < |t| ==> 0.0 <= t[k].0 < 360.0
    requires pts == SortByAngle(t) && pts != [] && c == Close(pts)
    ensures SortedByAngle(c) && |pts| == |t| && c[..|pts|] == pts && multiset(pts) == multiset(t)
    ensures |c| == |pts| || c[|pts|] == (c[0].0 + 360.0, c[0].1)
  {
    SortedAngles(t);
    ClosedPrefix(pts, c);
  }

  /** The part of ClosedCurve the drawn curve needs, for a named closed curve. */
  lemma ClosedPrefix(pts: seq<(real, real)>, c: seq<(real, real)>)
    requires pts != [] && SortedByAngle(pts)
    requires forall k :: 0 <= k < |pts| ==> 0.0 <= pts[k].0 < 360.0
    requires c == Close(pts)
    ensures SortedByAngle(c) && c[..|pts|] == pts
    ensures |c| == |pts| || c[|pts|] == (c[0].0 + 360.0, c[0].1)
  {
    ClosedCurve(pts);
  }

  /** For a file with points, the drawn curve is the one above, with one
      point per line that gives a point. */
  lemma CurveShape(lines: seq<string>)
    requires Points(lines) != []
    ensures |Scanned(lines).angles| == |Points(lines)|
    ensures Scanned(lines).angles != [] && Curve(lines) == Success(Drawn(Scanned(lines)))
  {
    ScannedPoints(lines);
    SortedTurned(Scanned(lines));
  }
}

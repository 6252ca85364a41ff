/** The cells a straight transmitter-to-receiver line crosses, found by a
    grid walk (DDA) with longitude as x and latitude as y, and the tiles those
    cells need. Coordinates are exact reals. */
module LinkWalk {
  import opened Text
  import opened Tiles

  /** The link, in degrees: x is longitude, y latitude. */
  datatype Line = Line(x0: real, y0: real, x1: real, y1: real)

  /** A parametric time along the line, or float("inf") for an axis the line
      never crosses. */
  datatype Time = Finite(t: real) | Infinite

  predicate Earlier(a: Time, b: Time) {
    a.Finite? && (b.Infinite? || a.t < b.t)
  }

  function Plus(a: Time, d: Time): Time {
    if a.Finite? && d.Finite? then Finite(a.t + d.t) else Infinite
  }

  function Sign(d: real): int {
    if d > 0.0 then 1 else if d < 0.0 then -1 else 0
  }

  /** tDelta: the time to cross one whole cell along an axis moving by d. */
  function CellTime(d: real): Time {
    if d != 0.0 then Finite(if d > 0.0 then 1.0 / d else 1.0 / -d) else Infinite
  }

  /** The initial tMax: the time of the first cell boundary the axis crosses. */
  function FirstCrossing(p0: real, cell: int, d: real): Time {
    if d > 0.0 then Finite(((cell + 1) as real - p0) / d)
    else if d < 0.0 then Finite((p0 - cell as real) / -d)
    else Infinite
  }

  /** The walk's state: the current cell and the next crossing time per axis. */
  datatype Walker = Walker(x: int, y: int, tMaxX: Time, tMaxY: Time)

  function StartCell(l: Line): Cell { Cell(l.y0.Floor, l.x0.Floor) }

  function DestCell(l: Line): Cell { Cell(l.y1.Floor, l.x1.Floor) }

  function Start(l: Line): Walker {
    Walker(l.x0.Floor, l.y0.Floor,
           FirstCrossing(l.x0, l.x0.Floor, l.x1 - l.x0), FirstCrossing(l.y0, l.y0.Floor, l.y1 - l.y0))
  }

  function At(w: Walker): Cell { Cell(w.y, w.x) }

  /** One iteration of the loop as written: step x when its crossing comes
      strictly first, otherwise step y. */
  function StepAsWritten(l: Line, w: Walker): Walker {
    if Earlier(w.tMaxX, w.tMaxY) then
      Walker(w.x + Sign(l.x1 - l.x0), w.y, Plus(w.tMaxX, CellTime(l.x1 - l.x0)), w.tMaxY)
    else
      Walker(w.x, w.y + Sign(l.y1 - l.y0), w.tMaxX, Plus(w.tMaxY, CellTime(l.y1 - l.y0)))
  }

  /** The cells the as-written loop appends after w, or None when it has not
      reached the destination within `fuel` iterations. */
  function WalkAsWritten(l: Line, w: Walker, fuel: nat): Option<seq<Cell>>
    decreases fuel
  {
    if At(w) == DestCell(l) then Some([])
    else if fuel == 0 then None
    else
      var n := StepAsWritten(l, w);
      match WalkAsWritten(l, n, fuel - 1)
      case None => None
      case Some(rest) => Some([At(n)] + rest)
  }

  /** Once the as-written walk is south of the destination row while moving
      south, no number of further iterations brings it back. */
  lemma {:induction false} AsWrittenPastDestination(l: Line, w: Walker, fuel: nat)
    requires l.y1 < l.y0 && w.y < l.y1.Floor
    ensures WalkAsWritten(l, w, fuel) == None
    decreases fuel
  {
    if fuel > 0 {
      AsWrittenPastDestination(l, StepAsWritten(l, w), fuel - 1);
    }
  }

  /** A receiver on the exact corner of a cell, south-east of the transmitter:
      the crossings of both axes tie at the end of the line, the tie goes to
      the y-step, the walk leaves the destination row and never ends. */
  lemma AsWrittenNeverArrives(fuel: nat)
    ensures WalkAsWritten(Line(13.5, 46.5, 14.0, 46.0), Start(Line(13.5, 46.5, 14.0, 46.0)), fuel) == None
  {
    var l := Line(13.5, 46.5, 14.0, 46.0);
    var w := Start(l);
    assert w == Walker(13, 46, Finite(1.0), Finite(1.0));
    assert DestCell(l) == Cell(46, 14);
    assert StepAsWritten(l, w).y == 45;
    if fuel > 0 {
      AsWrittenPastDestination(l, StepAsWritten(l, w), fuel - 1);
    }
  }

  /** c lies between the start s and the destination d of an axis walked in
      direction `step`. */
  predicate Toward(s: int, c: int, d: int, step: int) {
    (step == 1 && s <= c <= d) || (step == -1 && d <= c <= s) || (step == 0 && s == c == d)
  }

  /** b is a's neighbour one cell along x in direction sx, or along y in
      direction sy; an axis whose direction is 0 never steps. */
  predicate UnitStep(a: Cell, b: Cell, sx: int, sy: int) {
    (sx != 0 && b == Cell(a.lat, a.lon + sx)) || (sy != 0 && b == Cell(a.lat + sy, a.lon))
  }

  function Dist(a: int, b: int): nat {
    if a <= b then b - a else a - b
  }

  lemma FloorOrder(p0: real, p1: real)
    ensures Toward(p0.Floor, p0.Floor, p1.Floor, Sign(p1 - p0))
    ensures Toward(p0.Floor, p1.Floor, p1.Floor, Sign(p1 - p0))
  {
  }

  /** One iteration of the corrected loop: a tie, or an x-crossing that
      comes first while x is already at its destination, steps y; a y already
      at its destination never steps. */
  function StepCorrected(l: Line, w: Walker): Walker {
    var d := DestCell(l);
    if w.y == d.lat || (w.x != d.lon && Earlier(w.tMaxX, w.tMaxY)) then
      Walker(w.x + Sign(l.x1 - l.x0), w.y, Plus(w.tMaxX, CellTime(l.x1 - l.x0)), w.tMaxY)
    else
      Walker(w.x, w.y + Sign(l.y1 - l.y0), w.tMaxX, Plus(w.tMaxY, CellTime(l.y1 - l.y0)))
  }

  /** The cells the corrected loop appends after w, or None when it has not
      reached the destination within `fuel` iterations. */
  function WalkCorrected(l: Line, w: Walker, fuel: nat): Option<seq<Cell>>
    decreases fuel
  {
    if At(w) == DestCell(l) then Some([])
    else if fuel == 0 then None
    else
      var n := StepCorrected(l, w);
      match WalkCorrected(l, n, fuel - 1)
      case None => None
      case Some(rest) => Some([At(n)] + rest)
  }

  /** The walker lies between the transmitter's and the receiver's cells on
      both axes. */
  predicate Between(l: Line, w: Walker) {
    && Toward(StartCell(l).lon, w.x, DestCell(l).lon, Sign(l.x1 - l.x0))
    && Toward(StartCell(l).lat, w.y, DestCell(l).lat, Sign(l.y1 - l.y0))
  }

  /** A walker the loop can reach: between the cells, and with a finite next
      crossing exactly on the axes the line moves along. */
  predicate Consistent(l: Line, w: Walker) {
    && Between(l, w)
    && (w.tMaxX.Finite? <==> l.x1 - l.x0 != 0.0)
    && (w.tMaxY.Finite? <==> l.y1 - l.y0 != 0.0)
  }

  /** The iterations left: the Manhattan distance to the receiver's cell. */
  function Remaining(l: Line, w: Walker): nat {
    Dist(w.x, DestCell(l).lon) + Dist(w.y, DestCell(l).lat)
  }

  /** The iterations the whole corrected walk takes. */
  function Fuel(l: Line): nat {
    Remaining(l, Start(l))
  }

  /** c is past the destination d of an axis walked in direction `step`. */
  predicate Beyond(c: int, d: int, step: int) {
    (step == 1 && c > d) || (step == -1 && c < d)
  }

  lemma StartConsistent(l: Line)
    ensures Consistent(l, Start(l))
  {
    FloorOrder(l.x0, l.x1);
    FloorOrder(l.y0, l.y1);
  }

  /** Each corrected iteration stays between the cells, keeps the crossings
      consistent and comes one cell closer. */
  lemma StepCorrectedCloser(l: Line, w: Walker)
    requires Between(l, w) && At(w) != DestCell(l)
    ensures Between(l, StepCorrected(l, w))
    ensures Remaining(l, StepCorrected(l, w)) + 1 == Remaining(l, w)
    ensures UnitStep(At(w), At(StepCorrected(l, w)), Sign(l.x1 - l.x0), Sign(l.y1 - l.y0))
    ensures Consistent(l, w) ==> Consistent(l, StepCorrected(l, w))
  {
  }

  /** Once a coordinate is past its destination, the as-written loop never
      arrives. */
  lemma {:induction false} AsWrittenBeyond(l: Line, w: Walker, fuel: nat)
    requires Beyond(w.x, DestCell(l).lon, Sign(l.x1 - l.x0)) || Beyond(w.y, DestCell(l).lat, Sign(l.y1 - l.y0))
    ensures WalkAsWritten(l, w, fuel) == None
    decreases fuel
  {
    if fuel > 0 {
      AsWrittenBeyond(l, StepAsWritten(l, w), fuel - 1);
    }
  }

  /** Where the as-written iteration and the corrected one differ, the
      as-written one steps past the destination. */
  lemma StepsDiffer(l: Line, w: Walker)
    requires Consistent(l, w) && At(w) != DestCell(l)
    requires StepAsWritten(l, w) != StepCorrected(l, w)
    ensures var n := StepAsWritten(l, w);
            Beyond(n.x, DestCell(l).lon, Sign(l.x1 - l.x0)) || Beyond(n.y, DestCell(l).lat, Sign(l.y1 - l.y0))
  {
    if Earlier(w.tMaxX, w.tMaxY) {
      assert w.x == DestCell(l).lon && l.x1 - l.x0 != 0.0;
    } else {
      assert w.y == DestCell(l).lat && w.x != DestCell(l).lon;
      assert l.y1 - l.y0 != 0.0;
    }
  }

  /** Wherever the loop as written terminates, it lists the same cells as the
      corrected loop: the two only differ on lines where the original never
      ends. */
  lemma {:induction false} AsWrittenAgrees(l: Line, w: Walker, fuel: nat)
    requires Consistent(l, w)
    ensures WalkAsWritten(l, w, fuel).Some? ==> WalkCorrected(l, w, fuel) == WalkAsWritten(l, w, fuel)
    decreases fuel
  {
    if At(w) != DestCell(l) && fuel > 0 {
      if StepAsWritten(l, w) == StepCorrected(l, w) {
        StepCorrectedCloser(l, w);
        AsWrittenAgrees(l, StepCorrected(l, w), fuel - 1);
      } else {
        StepsDiffer(l, w);
        AsWrittenBeyond(l, StepAsWritten(l, w), fuel - 1);
      }
    }
  }

  /** More fuel does not change a walk that already arrived. */
  lemma {:induction false} CorrectedFuel(l: Line, w: Walker, f1: nat, f2: nat)
    requires WalkCorrected(l, w, f1).Some? && WalkCorrected(l, w, f2).Some?
    ensures WalkCorrected(l, w, f1) == WalkCorrected(l, w, f2)
    decreases f1
  {
    if At(w) != DestCell(l) {
      CorrectedFuel(l, StepCorrected(l, w), f1 - 1, f2 - 1);
    }
  }

  /** `done` followed by the cells of a walk, when the walk arrives. */
  function Prefixed(done: seq<Cell>, rest: Option<seq<Cell>>): Option<seq<Cell>> {
    match rest
    case None => None
    case Some(r) => Some(done + r)
  }

  /** The corrected walk from the start is `walked` followed by the rest of
      the walk from w. */
  ghost predicate Listed(l: Line, w: Walker, walked: seq<Cell>) {
    WalkCorrected(l, Start(l), Fuel(l)) == Prefixed(walked, WalkCorrected(l, w, Remaining(l, w)))
  }

  /** One corrected iteration moves one cell from the rest of the walk to the
      cells already listed. */
  lemma CorrectedStepListed(l: Line, w: Walker, walked: seq<Cell>)
    requires Between(l, w) && At(w) != DestCell(l) && Listed(l, w, walked)
    ensures var n := StepCorrected(l, w);
            Between(l, n) && Remaining(l, n) < Remaining(l, w) && Listed(l, n, walked + [At(n)])
  {
    var n := StepCorrected(l, w);
    StepCorrectedCloser(l, w);
    match WalkCorrected(l, n, Remaining(l, n))
    case None =>
    case Some(rest) =>
      assert walked + ([At(n)] + rest) == (walked + [At(n)]) + rest;
  }

  /** Before the first iteration nothing is listed; once the walker is in the
      receiver's cell, everything is. */
  lemma ListedEnds(l: Line, w: Walker, walked: seq<Cell>)
    ensures w == Start(l) && walked == [] ==> Listed(l, w, walked)
    ensures Listed(l, w, walked) && At(w) == DestCell(l) ==> WalkCorrected(l, Start(l), Fuel(l)) == Some(walked)
  {
    PrefixedNothing(WalkCorrected(l, Start(l), Fuel(l)));
    assert walked + [] == walked;
  }

  /** Each cell is the previous one's neighbour in the directions sx, sy. */
  predicate Path(cells: seq<Cell>, sx: int, sy: int) {
    forall i :: 0 <= i < |cells| - 1 ==> UnitStep(cells[i], cells[i + 1], sx, sy)
  }

  /** Every cell lies between the transmitter's and the receiver's cells. */
  predicate AllBetween(l: Line, cells: seq<Cell>) {
    forall i :: 0 <= i < |cells| ==>
      Toward(StartCell(l).lat, cells[i].lat, DestCell(l).lat, Sign(l.y1 - l.y0))
      && Toward(StartCell(l).lon, cells[i].lon, DestCell(l).lon, Sign(l.x1 - l.x0))
  }

  /** The cells a link crosses, as the corrected loop lists them: the
      transmitter's cell, then every later cell of the corrected walk, which
      is the walk as written wherever that ends. The walk ends in the
      receiver's cell, each step moves one cell in the direction of the line,
      every cell lies between the two end cells, and the walk is as long as
      the Manhattan distance between them. */
  ghost predicate LosWalk(l: Line, cells: seq<Cell>) {
    && |cells| >= 1 && cells[0] == StartCell(l) && cells[|cells| - 1] == DestCell(l)
    && WalkCorrected(l, Start(l), Fuel(l)) == Some(cells[1..])
    && (forall fuel :: WalkAsWritten(l, Start(l), fuel).Some? ==> WalkAsWritten(l, Start(l), fuel) == Some(cells[1..]))
    && |cells| == 1 + Dist(StartCell(l).lat, DestCell(l).lat) + Dist(StartCell(l).lon, DestCell(l).lon)
    && Path(cells, Sign(l.x1 - l.x0), Sign(l.y1 - l.y0))
    && AllBetween(l, cells)
  }

  lemma ConsPath(c: Cell, cells: seq<Cell>, sx: int, sy: int)
    requires cells != [] && UnitStep(c, cells[0], sx, sy) && Path(cells, sx, sy)
    ensures Path([c] + cells, sx, sy)
  {
    var p := [c] + cells;
    forall i | 0 <= i < |p| - 1 ensures UnitStep(p[i], p[i + 1], sx, sy) {
      if i > 0 {
        assert p[i] == cells[i - 1] && p[i + 1] == cells[i];
      }
    }
  }

  /** From a walker between the cells, the corrected walk arrives in exactly
      the remaining distance, by unit steps between the cells, in the
      receiver's cell. */
  lemma {:induction false} CorrectedShape(l: Line, w: Walker)
    requires Between(l, w)
    ensures var r := WalkCorrected(l, w, Remaining(l, w));
            && r.Some? && |r.value| == Remaining(l, w)
            && Path([At(w)] + r.value, Sign(l.x1 - l.x0), Sign(l.y1 - l.y0))
            && AllBetween(l, [At(w)] + r.value)
            && ([At(w)] + r.value)[|r.value|] == DestCell(l)
    decreases Remaining(l, w)
  {
    var sx, sy := Sign(l.x1 - l.x0), Sign(l.y1 - l.y0);
    if At(w) == DestCell(l) {
      assert Remaining(l, w) == 0;
      assert [At(w)] + [] == [At(w)];
    } else {
      var n := StepCorrected(l, w);
      StepCorrectedCloser(l, w);
      CorrectedShape(l, n);
      var rn := WalkCorrected(l, n, Remaining(l, n)).value;
      assert WalkCorrected(l, w, Remaining(l, w)) == Some([At(n)] + rn);
      ConsPath(At(w), [At(n)] + rn, sx, sy);
      assert [At(w)] + ([At(n)] + rn) == [At(w), At(n)] + rn;
    }
  }

  /** The transmitter's cell followed by the corrected walk is the walk
      LosWalk describes. */
  lemma LosWalkOf(l: Line, walked: seq<Cell>)
    requires WalkCorrected(l, Start(l), Fuel(l)) == Some(walked)
    ensures LosWalk(l, [StartCell(l)] + walked)
  {
    StartConsistent(l);
    CorrectedShape(l, Start(l));
    CorrectedIsAsWritten(l, walked);
    assert ([StartCell(l)] + walked)[1..] == walked;
  }

  /** The grid walk with ties resolved so that it never steps an axis that is
      already at its destination. */
  method LosCells(l: Line) returns (cells: seq<Cell>)
    ensures LosWalk(l, cells)
  {
    var dx, dy := l.x1 - l.x0, l.y1 - l.y0;
    var x, y := l.x0.Floor, l.y0.Floor;
    var destX, destY := l.x1.Floor, l.y1.Floor;
    var stepX, stepY := Sign(dx), Sign(dy);
    var tDeltaX, tDeltaY := CellTime(dx), CellTime(dy);
    var tMaxX, tMaxY := FirstCrossing(l.x0, x, dx), FirstCrossing(l.y0, y, dy);
    assert destX == DestCell(l).lon && destY == DestCell(l).lat;
    assert stepX == Sign(l.x1 - l.x0) && stepY == Sign(l.y1 - l.y0);
    assert tDeltaX == CellTime(l.x1 - l.x0) && tDeltaY == CellTime(l.y1 - l.y0);
    StartConsistent(l);
    ghost var walked: seq<Cell> := [];
    ListedEnds(l, Start(l), walked);
    assert Cell(y, x) == StartCell(l);
    cells := [Cell(y, x)];
    while x != destX || y != destY
      invariant Between(l, Walker(x, y, tMaxX, tMaxY)) && Listed(l, Walker(x, y, tMaxX, tMaxY), walked)
      invariant cells == [StartCell(l)] + walked
      decreases Remaining(l, Walker(x, y, tMaxX, tMaxY))
    {
      ghost var w := Walker(x, y, tMaxX, tMaxY);
      ghost var n := StepCorrected(l, w);
      if y == destY || (x != destX && Earlier(tMaxX, tMaxY)) {
        x := x + stepX;
        tMaxX := Plus(tMaxX, tDeltaX);
      } else {
        y := y + stepY;
        tMaxY := Plus(tMaxY, tDeltaY);
      }
      assert Walker(x, y, tMaxX, tMaxY) == n;
      CorrectedStepListed(l, w, walked);
      walked := walked + [Cell(y, x)];
      cells := cells + [Cell(y, x)];
    }
    ListedEnds(l, Walker(x, y, tMaxX, tMaxY), walked);
    LosWalkOf(l, walked);
  }

  /** The corrected walk is every as-written walk that arrives. */
  lemma CorrectedIsAsWritten(l: Line, walked: seq<Cell>)
    requires WalkCorrected(l, Start(l), Fuel(l)) == Some(walked)
    ensures forall fuel :: WalkAsWritten(l, Start(l), fuel).Some? ==> WalkAsWritten(l, Start(l), fuel) == Some(walked)
  {
    forall fuel | WalkAsWritten(l, Start(l), fuel).Some?
      ensures WalkAsWritten(l, Start(l), fuel) == Some(walked)
    {
      StartConsistent(l);
      AsWrittenAgrees(l, Start(l), fuel);
      CorrectedFuel(l, Start(l), fuel, Fuel(l));
    }
  }

  lemma PrefixedNothing(rest: Option<seq<Cell>>)
    ensures Prefixed([], rest) == rest
  {
    match rest
    case None =>
    case Some(r) => assert [] + r == r;
  }


  /** How far along the walk a cell is: each unit step adds exactly one. */
  function Progress(c: Cell, sx: int, sy: int): int {
    (if sx > 0 then c.lon else if sx < 0 then -c.lon else 0)
      + (if sy > 0 then c.lat else if sy < 0 then -c.lat else 0)
  }

  lemma {:induction false} ProgressAlongWalk(cells: seq<Cell>, sx: int, sy: int, i: nat)
    requires -1 <= sx <= 1 && -1 <= sy <= 1
    requires forall k :: 0 <= k < |cells| - 1 ==> UnitStep(cells[k], cells[k + 1], sx, sy)
    requires i < |cells|
    ensures Progress(cells[i], sx, sy) == Progress(cells[0], sx, sy) + i
  {
    if i > 0 {
      ProgressAlongWalk(cells, sx, sy, i - 1);
      assert UnitStep(cells[i - 1], cells[i], sx, sy);
    }
  }

  /** No cell comes twice. */
  predicate NoRepeats(cells: seq<Cell>) {
    forall i, j :: 0 <= i < j < |cells| ==> cells[i] != cells[j]
  }

  /** A walk of unit steps in fixed directions never visits a cell twice, so
      no tile is listed twice. */
  lemma WalkVisitsCellsOnce(cells: seq<Cell>, sx: int, sy: int)
    requires -1 <= sx <= 1 && -1 <= sy <= 1
    requires forall k :: 0 <= k < |cells| - 1 ==> UnitStep(cells[k], cells[k + 1], sx, sy)
    ensures NoRepeats(cells)
  {
    forall i, j | 0 <= i < j < |cells| ensures cells[i] != cells[j] {
      ProgressAlongWalk(cells, sx, sy, i);
      ProgressAlongWalk(cells, sx, sy, j);
    }
  }

  /** `_calculate_required_terrain_tiles_los`: the walk's cells, then each
      cell's names. */
  method LosTiles(l: Line) returns (tiles: seq<Tile>)
    ensures exists cells: seq<Cell> :: tiles == TilesOf(cells) && LosWalk(l, cells) && NoRepeats(cells)
  {
    var cells := LosCells(l);
    WalkVisitsCellsOnce(cells, Sign(l.x1 - l.x0), Sign(l.y1 - l.y0));
    tiles := TilesOf(cells);
  }
}

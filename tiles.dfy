/** Terrain tiles: one-degree cells, their SRTM file names (N45E013.hgt.gz),
    the SPLAT! .sdf names derived from them, the coverage radius clamp and the
    cells of a coverage bounding box. */
module Tiles {
  import opened Text
  import opened Numbers

  /** A one-degree cell, named by the floor of its south-west corner. */
  datatype Cell = Cell(lat: int, lon: int)

  /** The three names the download step works with for one cell. */
  datatype Tile = Tile(hgt: string, sdf: string, sdfHd: string)

  /** f"{ns}{abs(lat):02d}{ew}{abs(lon):03d}.hgt.gz" */
  function TileName(lat: int, lon: int): (name: string)
    ensures |name| > 0 && name[0] == (if lat >= 0 then 'N' else 'S')
  {
    (if lat >= 0 then "N" else "S") + PadZeros(AbsInt(lat), 2)
      + (if lon >= 0 then "E" else "W") + PadZeros(AbsInt(lon), 3)
      + ".hgt.gz"
  }

  /** Python slicing s[i:j]: indices past the end are clamped. */
  function PySlice(s: string, i: nat, j: nat): (r: string)
    requires i <= j
    ensures |r| <= j - i
  {
    if i >= |s| then [] else if j >= |s| then s[i..] else s[i..j]
  }

  /** SPLAT!'s west-positive minimum longitude of the cell whose west edge is
      at `lon` degrees east: 359 - lon for eastern cells, |lon| - 1 for western. */
  function MinLon(lon: int): int {
    if lon >= 0 then 360 - (lon + 1) else -lon - 1
  }

  /** The eastern edge, wrapping 359 to 0. */
  function MaxLon(minLon: int): int {
    if minLon == 359 then 0 else minLon + 1
  }

  function SdfSuffix(hd: bool): string {
    if hd then "-hd.sdf" else ".sdf"
  }

  /** f"{lat}:{lat + 1}:{min_lon}:{max_lon}" */
  function SdfStem(lat: int, minLon: int): string {
    IntToString(lat) + ":" + IntToString(lat + 1) + ":" + IntToString(minLon) + ":"
      + IntToString(MaxLon(minLon))
  }

  function SdfName(lat: int, minLon: int, hd: bool): string {
    SdfStem(lat, minLon) + SdfSuffix(hd)
  }

  /** `_hgt_filename_to_sdf_filename` on the file name text; None unless
      both numeric fields are plain digits (the only names `TileName`
      produces). */
  function HgtToSdf(name: string, hd: bool): (r: Option<string>)
    ensures r.Some? ==> |name| >= 5
  {
    match ParseNat(PySlice(name, 1, 3))
    case None => None
    case Some(a) =>
      var lat := if name[0] == 'N' then a as int else -(a as int);
      match ParseNat(PySlice(name, 4, 7))
      case None => None
      case Some(b) =>
        var east := name[3] == 'E';
        var m := b - (if east then -1 else 1);
        var minLon := if east then 360 - m else m;
        Some(SdfName(lat, minLon, hd))
  }

  /** The tile triple for one cell. */
  function TileOf(c: Cell): Tile {
    Tile(TileName(c.lat, c.lon), SdfName(c.lat, MinLon(c.lon), false),
         SdfName(c.lat, MinLon(c.lon), true))
  }

  lemma NatToStringLength(n: nat, w: nat)
    requires w >= 1 && n < Pow10(w)
    ensures |NatToString(n)| <= w
    decreases w
  {
    if n >= 10 {
      assert n / 10 < Pow10(w - 1);
      NatToStringLength(n / 10, w - 1);
    }
  }

  lemma PadZerosExact(n: nat, w: nat)
    requires w >= 1 && n < Pow10(w)
    ensures |PadZeros(n, w)| == w
    ensures ParseNat(PadZeros(n, w)) == Some(n)
  {
    NatToStringLength(n, w);
    PadZerosValue(n, w);
  }

  function AbsInt(i: int): nat {
    if i < 0 then -i else i
  }

  /** Where the fields of a tile name sit, for cells the name pads exactly. */
  lemma TileNameFields(lat: int, lon: int)
    requires -99 <= lat <= 99 && -999 <= lon <= 999
    ensures var name := TileName(lat, lon);
            |name| >= 7 && PySlice(name, 1, 3) == PadZeros(AbsInt(lat), 2)
            && name[3] == (if lon >= 0 then 'E' else 'W')
            && PySlice(name, 4, 7) == PadZeros(AbsInt(lon), 3)
  {
    var pa, pb := PadZeros(AbsInt(lat), 2), PadZeros(AbsInt(lon), 3);
    PadZerosExact(AbsInt(lat), 2);
    PadZerosExact(AbsInt(lon), 3);
    var ns := if lat >= 0 then "N" else "S";
    var ew := if lon >= 0 then "E" else "W";
    var name := TileName(lat, lon);
    assert name == ns + pa + ew + pb + ".hgt.gz";
    assert name[1..3] == pa;
    assert name[4..7] == pb;
  }

  /** Reading back a generated tile name gives the cell's own .sdf names. */
  lemma HgtToSdfOfTileName(lat: int, lon: int, hd: bool)
    requires -99 <= lat <= 99 && -999 <= lon <= 999
    ensures HgtToSdf(TileName(lat, lon), hd) == Some(SdfName(lat, MinLon(lon), hd))
  {
    TileNameFields(lat, lon);
    PadZerosExact(AbsInt(lat), 2);
    PadZerosExact(AbsInt(lon), 3);
  }

  /** The hd name is the plain name with "-hd" before ".sdf". */
  lemma HdNameSharesStem(name: string)
    ensures HgtToSdf(name, true).Some? <==> HgtToSdf(name, false).Some?
    ensures HgtToSdf(name, false).Some? ==>
      var plain := HgtToSdf(name, false).value;
      |plain| >= 4 && HgtToSdf(name, true).value == plain[..|plain| - 4] + "-hd.sdf"
  {
    if HgtToSdf(name, false).Some? {
      var plain := HgtToSdf(name, false).value;
      assert plain[..|plain| - 4] + ".sdf" == plain;
    }
  }

  /** For every cell of the globe and the band around it, SPLAT!'s west-positive
      minimum longitude is (-lon - 1) mod 360, a degree in 0..359, and the
      maximum is the next degree modulo 360. */
  lemma MinLonIsWestPositive(lon: int)
    requires -360 <= lon <= 359
    ensures 0 <= MinLon(lon) <= 359
    ensures MinLon(lon) == (-lon - 1) % 360
    ensures MaxLon(MinLon(lon)) == (MinLon(lon) + 1) % 360
  {
  }

  /** Distinct cells of the longitude range -180..179 get distinct .sdf names. */
  lemma MinLonInjective(lon1: int, lon2: int)
    requires -180 <= lon1 <= 179 && -180 <= lon2 <= 179
    requires MinLon(lon1) == MinLon(lon2)
    ensures lon1 == lon2
  {
  }

  const MaxRadius: real := 300.0

  /** Requests beyond 300 are served at 300; others are left alone. */
  function ClampRadius(radius: real): (r: real)
    ensures r <= MaxRadius
    ensures r == radius || (radius > MaxRadius && r == MaxRadius)
  {
    if radius > MaxRadius then MaxRadius else radius
  }

  lemma ClampRadiusIdempotent(radius: real)
    ensures ClampRadius(ClampRadius(radius)) == ClampRadius(radius)
    ensures radius <= MaxRadius ==> ClampRadius(radius) == radius
  {
  }

  /** The cells of one latitude row, west to east. */
  function Row(lat: int, lonMin: int, lonMax: int): (row: seq<Cell>)
    ensures |row| == if lonMax < lonMin then 0 else lonMax - lonMin + 1
    ensures forall j :: 0 <= j < |row| ==> row[j] == Cell(lat, lonMin + j)
  {
    if lonMax < lonMin then [] else seq(lonMax - lonMin + 1, j => Cell(lat, lonMin + j))
  }

  /** The cells of the box, latitude-major, as the nested range() loops visit them. */
  function BoxCells(latMin: int, latMax: int, lonMin: int, lonMax: int): seq<Cell>
    decreases latMax - latMin
  {
    if latMax < latMin then []
    else BoxCells(latMin, latMax - 1, lonMin, lonMax) + Row(latMax, lonMin, lonMax)
  }

  predicate InBox(c: Cell, latMin: int, latMax: int, lonMin: int, lonMax: int) {
    latMin <= c.lat <= latMax && lonMin <= c.lon <= lonMax
  }

  /** Every cell of the box appears, and only those. */
  lemma {:induction false} BoxCellsMembership(latMin: int, latMax: int, lonMin: int, lonMax: int, c: Cell)
    ensures c in BoxCells(latMin, latMax, lonMin, lonMax) <==> InBox(c, latMin, latMax, lonMin, lonMax)
    decreases latMax - latMin
  {
    if latMax >= latMin {
      BoxCellsMembership(latMin, latMax - 1, lonMin, lonMax, c);
      var row := Row(latMax, lonMin, lonMax);
      if c.lat == latMax && lonMin <= c.lon <= lonMax {
        assert row[c.lon - lonMin] == c;
      }
    }
  }

  /** Latitude-major order: south to north, west to east within a row. */
  predicate CellBefore(a: Cell, b: Cell) {
    a.lat < b.lat || (a.lat == b.lat && a.lon < b.lon)
  }

  /** The box is listed in strictly increasing latitude-major order, so each
      cell appears once. */
  lemma {:induction false} BoxCellsSorted(latMin: int, latMax: int, lonMin: int, lonMax: int)
    ensures var s := BoxCells(latMin, latMax, lonMin, lonMax);
            forall p, q :: 0 <= p < q < |s| ==> CellBefore(s[p], s[q])
    decreases latMax - latMin
  {
    if latMax >= latMin {
      BoxCellsSorted(latMin, latMax - 1, lonMin, lonMax);
      var prev := BoxCells(latMin, latMax - 1, lonMin, lonMax);
      var row := Row(latMax, lonMin, lonMax);
      var s := prev + row;
      forall p, q | 0 <= p < q < |s| ensures CellBefore(s[p], s[q]) {
        if p < |prev| {
          BoxCellsMembership(latMin, latMax - 1, lonMin, lonMax, prev[p]);
          if q >= |prev| {
            assert s[q] == row[q - |prev|];
          }
        } else {
          assert s[p] == row[p - |prev|] && s[q] == row[q - |prev|];
        }
      }
    }
  }

  /** The box has (rows x columns) entries. */
  lemma {:induction false} BoxCellsCount(latMin: int, latMax: int, lonMin: int, lonMax: int)
    requires latMin <= latMax + 1 && lonMin <= lonMax + 1
    ensures |BoxCells(latMin, latMax, lonMin, lonMax)| == (latMax - latMin + 1) * (lonMax - lonMin + 1)
    decreases latMax - latMin
  {
    if latMax >= latMin {
      BoxCellsCount(latMin, latMax - 1, lonMin, lonMax);
    }
  }

  /** The tile triples of a list of cells, in order. */
  function TilesOf(cells: seq<Cell>): (tiles: seq<Tile>)
    ensures |tiles| == |cells|
    ensures forall k {:trigger tiles[k]} :: 0 <= k < |cells| ==> tiles[k] == TileOf(cells[k])
  {
    seq(|cells|, k requires 0 <= k < |cells| => TileOf(cells[k]))
  }

  /** The inner loop of the coverage enumeration: one latitude row. */
  method RowCells(lat: int, lonMin: int, lonMax: int) returns (cells: seq<Cell>)
    ensures cells == Row(lat, lonMin, lonMax)
  {
    cells := [];
    var lon := lonMin;
    while lon <= lonMax
      invariant lonMin <= lon && (lon <= lonMax + 1 || lon == lonMin)
      invariant |cells| == lon - lonMin
      invariant forall k :: 0 <= k < |cells| ==> cells[k] == Cell(lat, lonMin + k)
      decreases lonMax - lon
    {
      cells := cells + [Cell(lat, lon)];
      lon := lon + 1;
    }
  }

  /** The coverage tile list: the loops of
      `_calculate_required_terrain_tiles_coverage` over the floored box, then
      each cell's names. */
  method CoverageTiles(latMin: int, latMax: int, lonMin: int, lonMax: int) returns (tiles: seq<Tile>)
    ensures tiles == TilesOf(BoxCells(latMin, latMax, lonMin, lonMax))
  {
    var cells := [];
    var lat := latMin;
    while lat <= latMax
      invariant latMin <= lat && (lat <= latMax + 1 || lat == latMin)
      invariant cells == BoxCells(latMin, lat - 1, lonMin, lonMax)
      decreases latMax - lat
    {
      var row := RowCells(lat, lonMin, lonMax);
      cells := cells + row;
      lat := lat + 1;
    }
    tiles := TilesOf(cells);
  }
}

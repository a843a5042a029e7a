/** The tile index over star labels: pruning by tiles agrees with a scan of every label. */
module StarTiles {

  import opened Wrappers

  const RA_BINS: nat := 72
  const DEC_BINS: nat := 36

  datatype Kind = ProperName | BayerFlamsteed | VariableStar | DoubleStar

  datatype Label = Label(designation: string, kind: Kind, ra: real, dec: real, mag: Option<real>)

  /** Whether a search keeps a label it looks at. */
  type Test = Label -> bool

  // ---- Angles ----

  function Abs(x: real): real { if x < 0.0 then -x else x }

  function Min(x: real, y: real): real { if x <= y then x else y }

  function Max(x: real, y: real): real { if x <= y then y else x }

  function Clamp(x: real): real { Max(-90.0, Min(x, 90.0)) }

  /** The remainder of `x` modulo the full circle, never negative. */
  function RemEuclid(x: real): (r: real)
    ensures 0.0 <= r < 360.0
  {
    x - 360.0 * (x / 360.0).Floor as real
  }

  function WrappedDistance(left: real, right: real): real {
    var difference := RemEuclid(left - right);
    Min(difference, 360.0 - difference)
  }

  /** The distance between two right ascensions when one is turned by whole circles. */
  function Turned(left: real, right: real, turns: int): real { Abs(left - right - 360.0 * turns as real) }

  /** The wrapped distance is the least distance over every number of whole turns. */
  lemma WrappedIsLeast(left: real, right: real) returns (turns: int)
    ensures WrappedDistance(left, right) == Turned(left, right, turns)
    ensures forall k: int :: WrappedDistance(left, right) <= Turned(left, right, k)
  {
    var f := ((left - right) / 360.0).Floor;
    var d := RemEuclid(left - right);
    assert d == left - right - 360.0 * f as real;
    turns := if d <= 360.0 - d then f else f + 1;
    forall k: int ensures WrappedDistance(left, right) <= Turned(left, right, k) {
      assert left - right - 360.0 * k as real == d + 360.0 * (f - k) as real;
    }
  }

  /** It obeys the triangle inequality, also across 0 and 360 degrees. */
  lemma Triangle(a: real, b: real, c: real)
    ensures WrappedDistance(a, c) <= WrappedDistance(a, b) + WrappedDistance(b, c)
  {
    var j := WrappedIsLeast(a, b);
    var k := WrappedIsLeast(b, c);
    var _ := WrappedIsLeast(a, c);
    assert WrappedDistance(a, c) <= Turned(a, c, j + k);
  }

  // ---- Tiles ----

  function Bin(x: real, bins: nat): (b: nat)
    requires x >= 0.0 && bins > 0
    ensures b < bins
  {
    var floor := x.Floor;
    if floor <= bins - 1 then floor else bins - 1
  }

  function RaBin(ra: real): (b: nat)
    ensures b < RA_BINS
  {
    Bin(RemEuclid(ra) / 360.0 * RA_BINS as real, RA_BINS)
  }

  function DecBin(dec: real): (b: nat)
    ensures b < DEC_BINS
  {
    Bin((Clamp(dec) + 90.0) / 180.0 * DEC_BINS as real, DEC_BINS)
  }

  function TileIndex(ra: real, dec: real): (t: nat)
    ensures t < RA_BINS * DEC_BINS
  {
    DecBin(dec) * RA_BINS + RaBin(ra)
  }

  function TileCenter(raIndex: nat): real { (raIndex as real + 0.5) * 360.0 / RA_BINS as real }

  /** Whether the search looks into a column of tiles. */
  predicate Reaches(raIndex: nat, centerRa: real, halfSpan: real) {
    WrappedDistance(TileCenter(raIndex), centerRa) <= halfSpan + 180.0 / RA_BINS as real
  }

  lemma DecBinMonotone(low: real, high: real)
    requires low <= high
    ensures DecBin(low) <= DecBin(high)
  {
    assert Clamp(low) <= Clamp(high);
  }

  /** No label is further than half a tile from the centre line of its own column. */
  lemma NearOwnColumn(ra: real)
    ensures WrappedDistance(TileCenter(RaBin(ra)), ra) <= 180.0 / RA_BINS as real
  {
    var r, i := RemEuclid(ra), RaBin(ra);
    assert i as real <= r / 5.0 < i as real + 1.0;
    var f := (ra / 360.0).Floor;
    var _ := WrappedIsLeast(TileCenter(i), ra);
    assert WrappedDistance(TileCenter(i), ra) <= Turned(TileCenter(i), ra, -f);
  }

  /** A row of tiles is a band of five degrees; what lies beyond a pole belongs to the row at that pole. */
  lemma InOwnRow(dec: real)
    ensures var d := if dec < -90.0 then -90.0 else if dec > 90.0 then 90.0 else dec;
      DecBin(dec) as real * 5.0 - 90.0 <= d <= (DecBin(dec) as real + 1.0) * 5.0 - 90.0
  {
    var d := if dec < -90.0 then -90.0 else if dec > 90.0 then 90.0 else dec;
    assert (Clamp(dec) + 90.0) / 180.0 * 36.0 == (d + 90.0) / 5.0;
  }

  // ---- The search box ----

  datatype Box = Box(centerRa: real, decMin: real, decMax: real, halfSpan: real)

  /** The box around a centre and a radius; `cosine` stands for the cosine of an angle in degrees. */
  function SearchBox(ra: real, dec: real, radius: real, cosine: real -> real): (box: Box)
    requires radius >= 0.0
    ensures box.decMin <= box.decMax
  {
    var decMin, decMax := Clamp(dec - radius), Clamp(dec + radius);
    var edgeCos := Abs(cosine(Max(Abs(decMin), Abs(decMax))));
    var halfSpan := if decMin <= -90.0 || decMax >= 90.0 || edgeCos < 0.05
                    then 180.0 else Min(radius / edgeCos, 180.0);
    Box(ra, decMin, decMax, halfSpan)
  }

  predicate InBox(l: Label, box: Box) {
    box.decMin <= l.dec <= box.decMax && WrappedDistance(l.ra, box.centerRa) <= box.halfSpan
  }

  /** The label's tile is one that the search looks into. */
  predicate Visited(l: Label, box: Box) {
    DecBin(box.decMin) <= DecBin(l.dec) <= DecBin(box.decMax) && Reaches(RaBin(l.ra), box.centerRa, box.halfSpan)
  }

  lemma InBoxIsVisited(l: Label, box: Box)
    requires InBox(l, box)
    ensures Visited(l, box)
  {
    DecBinMonotone(box.decMin, l.dec);
    DecBinMonotone(l.dec, box.decMax);
    NearOwnColumn(l.ra);
    Triangle(TileCenter(RaBin(l.ra)), l.ra, box.centerRa);
  }

  lemma NearRow(dec: real, low: real, high: real)
    requires -90.0 <= low <= high <= 90.0 && -90.0 <= dec <= 90.0 && DecBin(low) <= DecBin(dec) <= DecBin(high)
    ensures low - 5.0 <= dec <= high + 5.0
  {
    InOwnRow(dec);
    InOwnRow(low);
    InOwnRow(high);
  }

  lemma WrappedIsSymmetric(a: real, b: real)
    ensures WrappedDistance(a, b) == WrappedDistance(b, a)
  {
    var j := WrappedIsLeast(a, b);
    var k := WrappedIsLeast(b, a);
    assert WrappedDistance(a, b) <= Turned(a, b, -k);
    assert WrappedDistance(b, a) <= Turned(b, a, -j);
  }

  /** The search looks no further than one tile beyond the box, so a found label is never far from it. */
  lemma VisitedIsNear(l: Label, box: Box)
    requires Visited(l, box) && -90.0 <= box.decMin <= box.decMax <= 90.0 && -90.0 <= l.dec <= 90.0
    ensures box.decMin - 5.0 <= l.dec <= box.decMax + 5.0
    ensures WrappedDistance(l.ra, box.centerRa) <= box.halfSpan + 5.0
  {
    NearRow(l.dec, box.decMin, box.decMax);
    NearOwnColumn(l.ra);
    WrappedIsSymmetric(l.ra, TileCenter(RaBin(l.ra)));
    Triangle(l.ra, TileCenter(RaBin(l.ra)), box.centerRa);
  }

  /**
   The box spans the full circle at a pole and where the cosine is below 0.05 or too
   small for the radius; elsewhere the radius is the span times the cosine at the
   edge nearer to a pole.
   */
  lemma SpanIsExact(ra: real, dec: real, radius: real, cosine: real -> real)
    requires radius >= 0.0
    ensures var box := SearchBox(ra, dec, radius, cosine);
      var edge := if Abs(box.decMin) <= Abs(box.decMax) then Abs(box.decMax) else Abs(box.decMin);
      var narrowest := Abs(cosine(edge));
      if dec - radius <= -90.0 || dec + radius >= 90.0 || narrowest < 0.05 || radius >= 180.0 * narrowest
      then box.halfSpan == 180.0
      else box.decMin == dec - radius && box.decMax == dec + radius && box.halfSpan * narrowest == radius
  {
    var edge := Max(Abs(Clamp(dec - radius)), Abs(Clamp(dec + radius)));
    if Abs(cosine(edge)) >= 0.05 {
      Span(radius, Abs(cosine(edge)));
    }
  }

  lemma Span(radius: real, narrowest: real)
    requires narrowest > 0.0
    ensures radius >= 180.0 * narrowest ==> Min(radius / narrowest, 180.0) == 180.0
    ensures radius < 180.0 * narrowest ==> Min(radius / narrowest, 180.0) * narrowest == radius
  {
    var q := radius / narrowest;
    assert q * narrowest == radius;
    if q < 180.0 { assert q * narrowest < 180.0 * narrowest; }
    if q > 180.0 { assert q * narrowest > 180.0 * narrowest; }
  }

  /** A box that reaches a pole takes in every label of its band of declinations. */
  lemma PoleTakesTheBand(l: Label, ra: real, dec: real, radius: real, cosine: real -> real)
    requires radius >= 0.0 && (dec + radius >= 90.0 || dec - radius <= -90.0)
    requires SearchBox(ra, dec, radius, cosine).decMin <= l.dec <= SearchBox(ra, dec, radius, cosine).decMax
    ensures Visited(l, SearchBox(ra, dec, radius, cosine))
  {
    InBoxIsVisited(l, SearchBox(ra, dec, radius, cosine));
  }

  /** The box holds every label that differs from the centre by at most the radius in both coordinates. */
  lemma BoxCoversRadius(l: Label, ra: real, dec: real, radius: real, cosine: real -> real)
    requires radius >= 0.0 && Abs(l.dec - dec) <= radius && -90.0 <= l.dec <= 90.0
    requires WrappedDistance(l.ra, ra) <= radius
    requires forall angle :: Abs(cosine(angle)) <= 1.0
    ensures InBox(l, SearchBox(ra, dec, radius, cosine))
  {
    var edge := Max(Abs(Clamp(dec - radius)), Abs(Clamp(dec + radius)));
    var edgeCos := Abs(cosine(edge));
    if edgeCos >= 0.05 {
      Quotient(radius, edgeCos);
    }
  }

  lemma Quotient(x: real, y: real)
    requires x >= 0.0 && 0.0 < y <= 1.0
    ensures x / y >= x
  {
    var q := x / y;
    assert q * y == x && q >= 0.0;
    assert q * y <= q;
  }

  // ---- Building and searching the index ----

  ghost predicate Tiled(tiles: seq<seq<Label>>, all: seq<Label>) {
    && |tiles| == RA_BINS * DEC_BINS
    && forall t, l :: 0 <= t < |tiles| ==>
         multiset(tiles[t])[l] == if TileIndex(l.ra, l.dec) == t then multiset(all)[l] else 0
  }

  method BuildTiles(all: seq<Label>) returns (tiles: seq<seq<Label>>)
    ensures Tiled(tiles, all)
  {
    tiles := seq(RA_BINS * DEC_BINS, _ => []);
    for i := 0 to |all|
      invariant Tiled(tiles, all[..i])
    {
      var t := TileIndex(all[i].ra, all[i].dec);
      assert all[..i + 1] == all[..i] + [all[i]];
      tiles := tiles[t := tiles[t] + [all[i]]];
    }
    assert all[..|all|] == all;
  }

  function FullScan(all: seq<Label>, accepts: Test): seq<Label> {
    if all == [] then [] else
    var before, last := FullScan(all[..|all| - 1], accepts), all[|all| - 1];
    if accepts(last) then before + [last] else before
  }

  lemma {:induction false} FullScanCounts(all: seq<Label>, accepts: Test, l: Label)
    ensures multiset(FullScan(all, accepts))[l] == if accepts(l) then multiset(all)[l] else 0
  {
    if all != [] {
      FullScanCounts(all[..|all| - 1], accepts, l);
      assert all == all[..|all| - 1] + [all[|all| - 1]];
    }
  }

  /** The visited labels among the rows before `row` and, in that row, the columns before `column`. */
  predicate VisitedBefore(l: Label, box: Box, row: nat, column: nat) {
    && Visited(l, box)
    && (DecBin(l.dec) < row || (DecBin(l.dec) == row && RaBin(l.ra) < column))
  }

  ghost predicate Collected(found: seq<Label>, all: seq<Label>, accepts: Test, box: Box, row: nat, column: nat) {
    forall l :: multiset(found)[l] == if accepts(l) && VisitedBefore(l, box, row, column) then multiset(all)[l] else 0
  }

  method ScanTile(tile: seq<Label>, accepts: Test) returns (kept: seq<Label>)
    ensures kept == FullScan(tile, accepts)
  {
    kept := [];
    for i := 0 to |tile|
      invariant kept == FullScan(tile[..i], accepts)
    {
      assert tile[..i + 1][..i] == tile[..i];
      if accepts(tile[i]) {
        kept := kept + [tile[i]];
      }
    }
    assert tile[..|tile|] == tile;
  }

  /** One label's count: seen before, or in the tile at hand, never both. */
  lemma CountTile(found: seq<Label>, tile: seq<Label>, all: seq<Label>, accepts: Test, l: Label,
                  seen: bool, mine: bool, reached: bool)
    requires multiset(found)[l] == if accepts(l) && seen then multiset(all)[l] else 0
    requires multiset(tile)[l] == if mine then multiset(all)[l] else 0
    requires !(seen && mine)
    ensures multiset(found + if reached then FullScan(tile, accepts) else [])[l]
         == if accepts(l) && (seen || (mine && reached)) then multiset(all)[l] else 0
  {
    FullScanCounts(tile, accepts, l);
    var kept := if reached then FullScan(tile, accepts) else [];
    assert multiset(found + kept)[l] == multiset(found)[l] + multiset(kept)[l];
  }

  /** The next tile of the row adds exactly its labels to the visited ones. */
  lemma VisitedNext(l: Label, box: Box, row: nat, column: nat)
    requires DecBin(box.decMin) <= row <= DecBin(box.decMax) && row < DEC_BINS && column < RA_BINS
    ensures VisitedBefore(l, box, row, column) ==> TileIndex(l.ra, l.dec) != row * RA_BINS + column
    ensures VisitedBefore(l, box, row, column + 1) <==>
      || VisitedBefore(l, box, row, column)
      || (TileIndex(l.ra, l.dec) == row * RA_BINS + column && Reaches(column, box.centerRa, box.halfSpan))
  {
    assert TileIndex(l.ra, l.dec) == row * RA_BINS + column <==> DecBin(l.dec) == row && RaBin(l.ra) == column;
  }

  lemma CollectTile(found: seq<Label>, tiles: seq<seq<Label>>, all: seq<Label>,
                    accepts: Test, box: Box, row: nat, column: nat)
    requires Tiled(tiles, all) && row < DEC_BINS && column < RA_BINS
    requires DecBin(box.decMin) <= row <= DecBin(box.decMax)
    requires Collected(found, all, accepts, box, row, column)
    ensures Collected(found + if Reaches(column, box.centerRa, box.halfSpan)
                              then FullScan(tiles[row * RA_BINS + column], accepts) else [],
                      all, accepts, box, row, column + 1)
  {
    var t := row * RA_BINS + column;
    var reached := Reaches(column, box.centerRa, box.halfSpan);
    forall l ensures multiset(found + if reached then FullScan(tiles[t], accepts) else [])[l] ==
                     if accepts(l) && VisitedBefore(l, box, row, column + 1) then multiset(all)[l] else 0
    {
      VisitedNext(l, box, row, column);
      CountTile(found, tiles[t], all, accepts, l, VisitedBefore(l, box, row, column), TileIndex(l.ra, l.dec) == t, reached);
    }
  }

  /**
   The loops over the tiles keep exactly the labels that pass the test and lie in a visited
   tile, each as often as it is stored; so it never reports more than a full scan
   of the labels, and inside the box it reports exactly what the full scan does.
   */
  method CollectLabels(tiles: seq<seq<Label>>, ghost all: seq<Label>, accepts: Test,
                       ra: real, dec: real, radius: real, cosine: real -> real)
    returns (found: seq<Label>, box: Box)
    requires Tiled(tiles, all) && radius >= 0.0
    ensures box == SearchBox(ra, dec, radius, cosine)
    ensures forall l :: multiset(found)[l] == if Visited(l, box) then multiset(FullScan(all, accepts))[l] else 0
    ensures forall l :: InBox(l, box) ==> multiset(found)[l] == multiset(FullScan(all, accepts))[l]
  {
    box := SearchBox(ra, dec, radius, cosine);
    found := [];
    DecBinMonotone(box.decMin, box.decMax);
    for decIndex := DecBin(box.decMin) to DecBin(box.decMax) + 1
      invariant Collected(found, all, accepts, box, decIndex, 0)
    {
      for raIndex := 0 to RA_BINS
        invariant Collected(found, all, accepts, box, decIndex, raIndex)
      {
        CollectTile(found, tiles, all, accepts, box, decIndex, raIndex);
        if Reaches(raIndex, box.centerRa, box.halfSpan) {
          var kept := ScanTile(tiles[decIndex * RA_BINS + raIndex], accepts);
          found := found + kept;
        } else {
          assert found + [] == found;
        }
      }
      assert forall l :: VisitedBefore(l, box, decIndex, RA_BINS) <==> VisitedBefore(l, box, decIndex + 1, 0);
    }
    forall l ensures multiset(found)[l] == if Visited(l, box) then multiset(FullScan(all, accepts))[l] else 0 {
      FullScanCounts(all, accepts, l);
      assert Visited(l, box) <==> VisitedBefore(l, box, DecBin(box.decMax) + 1, 0);
    }
    forall l | InBox(l, box) ensures Visited(l, box) { InBoxIsVisited(l, box); }
  }
}

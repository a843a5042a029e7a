/** The labels drawn over an image: what falls on it, brightest first, up to a limit. */
module StarLabels {

  import opened StarTiles
  import opened Text
  import opened Wrappers

  /** The plate solution, as maps between pixels and the sky. */
  datatype Wcs = Wcs(toWorld: (real, real) -> (real, real), toPixel: (real, real) -> Option<(real, real)>)

  datatype View = View(wcs: Wcs, width: real, height: real, magLimit: real)

  /** The angular separation of two points and the cosine of an angle, in degrees. */
  datatype Sphere = Sphere(separation: (real, real, real, real) -> real, cosine: real -> real)

  function Centre(v: View): (real, real) { v.wcs.toWorld(v.width / 2.0, v.height / 2.0) }

  function FromCentre(v: View, sphere: Sphere, x: real, y: real): real {
    var centre, corner := Centre(v), v.wcs.toWorld(x, y);
    sphere.separation(centre.0, centre.1, corner.0, corner.1)
  }

  /** The largest separation of a corner from the centre, at most half a circle. */
  function Radius(v: View, sphere: Sphere): (r: real)
    ensures 0.0 <= r <= 180.0
    ensures r < 180.0 ==>
      && FromCentre(v, sphere, 0.0, 0.0) <= r && FromCentre(v, sphere, v.width, 0.0) <= r
      && FromCentre(v, sphere, v.width, v.height) <= r && FromCentre(v, sphere, 0.0, v.height) <= r
    ensures 0.0 < r < 180.0 ==>
      r in {FromCentre(v, sphere, 0.0, 0.0), FromCentre(v, sphere, v.width, 0.0),
            FromCentre(v, sphere, v.width, v.height), FromCentre(v, sphere, 0.0, v.height)}
  {
    Min(Max(Max(Max(Max(0.0, FromCentre(v, sphere, 0.0, 0.0)), FromCentre(v, sphere, v.width, 0.0)),
                FromCentre(v, sphere, v.width, v.height)), FromCentre(v, sphere, 0.0, v.height)), 180.0)
  }

  /** Bright enough, near enough, and on the image. */
  predicate Accepts(v: View, sphere: Sphere, l: Label) {
    var pixel := v.wcs.toPixel(l.ra, l.dec);
    && (l.mag.Some? ==> l.mag.value <= v.magLimit)
    && sphere.separation(Centre(v).0, Centre(v).1, l.ra, l.dec) <= Radius(v, sphere) * 1.05
    && pixel.Some? && 0.0 <= pixel.value.0 <= v.width && 0.0 <= pixel.value.1 <= v.height
  }

  // ---- The order of labels ----

  function Rank(kind: Kind): nat {
    match kind
    case ProperName => 0
    case BayerFlamsteed => 1
    case VariableStar => 2
    case DoubleStar => 3
  }

  /** A missing magnitude counts as infinite. */
  predicate Brighter(a: Option<real>, b: Option<real>) { a.Some? && (b.None? || a.value < b.value) }

  /** By magnitude, then kind, then the length of the designation, then its text. */
  predicate Before(a: Label, b: Label) {
    || Brighter(a.mag, b.mag)
    || (a.mag == b.mag && RankedBefore(a, b))
  }

  predicate RankedBefore(a: Label, b: Label) {
    || Rank(a.kind) < Rank(b.kind)
    || (Rank(a.kind) == Rank(b.kind) && NamedBefore(a.designation, b.designation))
  }

  predicate NamedBefore(s: string, t: string) { |s| < |t| || (|s| == |t| && Less(s, t)) }

  lemma BeforeIsAsymmetric(a: Label, b: Label)
    requires Before(a, b)
    ensures !Before(b, a)
  {
    if Less(a.designation, b.designation) { LessIsAsymmetric(a.designation, b.designation); }
  }

  lemma BeforeIsCotransitive(a: Label, b: Label, c: Label)
    requires Before(a, c)
    ensures Before(a, b) || Before(b, c)
  {
    if Less(a.designation, c.designation) { LessIsCotransitive(a.designation, b.designation, c.designation); }
  }

  /** Proper names, then Bayer and Flamsteed designations, then variable and then double stars. */
  predicate KindNotAfter(a: Kind, b: Kind) {
    match b
    case ProperName => a.ProperName?
    case BayerFlamsteed => a.ProperName? || a.BayerFlamsteed?
    case VariableStar => !a.DoubleStar?
    case DoubleStar => true
  }

  /**
   `a` may stand before `b`: magnitudes do not fall and labels without one come
   last; at the same magnitude kinds do not go back; within a kind designations do
   not get shorter, nor, at the same length, smaller.
   */
  predicate NotAfter(a: Label, b: Label) {
    && (b.mag.Some? ==> a.mag.Some? && a.mag.value <= b.mag.value)
    && (a.mag == b.mag ==> KindNotAfter(a.kind, b.kind))
    && (a.mag == b.mag && a.kind == b.kind ==> |a.designation| <= |b.designation|)
    && (a.mag == b.mag && a.kind == b.kind && |a.designation| == |b.designation| ==> !Less(b.designation, a.designation))
  }

  /** The comparison the sort uses means exactly that. */
  lemma BeforeIsExact(a: Label, b: Label)
    ensures NotAfter(a, b) <==> !Before(b, a)
  {}

  ghost predicate InOrder(labels: seq<Label>) {
    forall i, j :: 0 <= i < j < |labels| ==> !Before(labels[j], labels[i])
  }

  /** Into its place among labels in order: after those not after it, before the others. */
  lemma InsertKeepsOrder(labels: seq<Label>, l: Label, at: nat)
    requires InOrder(labels) && at <= |labels|
    requires at > 0 ==> !Before(l, labels[at - 1])
    requires forall k :: at <= k < |labels| ==> Before(l, labels[k])
    ensures InOrder(labels[..at] + [l] + labels[at..])
  {
    forall k | 0 <= k < at ensures !Before(l, labels[k]) {
      if Before(l, labels[k]) && k < at - 1 { BeforeIsCotransitive(l, labels[at - 1], labels[k]); }
    }
    forall k | at <= k < |labels| ensures !Before(labels[k], l) { BeforeIsAsymmetric(l, labels[k]); }
    var all := labels[..at] + [l] + labels[at..];
    forall i, j | 0 <= i < j < |all| ensures !Before(all[j], all[i]) {
      assert all[j] == if j < at then labels[j] else if j == at then l else labels[j - 1];
    }
  }

  method Insert(labels: seq<Label>, l: Label) returns (longer: seq<Label>)
    requires InOrder(labels)
    ensures InOrder(longer) && multiset(longer) == multiset(labels) + multiset{l}
  {
    var at := |labels|;
    while at > 0 && Before(l, labels[at - 1])
      invariant 0 <= at <= |labels| && forall k :: at <= k < |labels| ==> Before(l, labels[k])
    {
      at := at - 1;
    }
    InsertKeepsOrder(labels, l, at);
    longer := labels[..at] + [l] + labels[at..];
    assert labels == labels[..at] + labels[at..];
  }

  /** The library's stable sort. */
  method SortLabels(labels: seq<Label>) returns (sorted: seq<Label>)
    ensures InOrder(sorted) && multiset(sorted) == multiset(labels)
    ensures forall i, j :: 0 <= i < j < |sorted| ==> NotAfter(sorted[i], sorted[j])
  {
    sorted := [];
    for i := 0 to |labels|
      invariant InOrder(sorted) && multiset(sorted) == multiset(labels[..i])
    {
      sorted := Insert(sorted, labels[i]);
      assert labels[..i + 1] == labels[..i] + [labels[i]];
    }
    assert labels[..|labels|] == labels;
    InFieldOrder(sorted);
  }

  lemma InFieldOrder(labels: seq<Label>)
    requires InOrder(labels)
    ensures forall i, j :: 0 <= i < j < |labels| ==> NotAfter(labels[i], labels[j])
  {
    forall i, j | 0 <= i < j < |labels| ensures NotAfter(labels[i], labels[j]) { BeforeIsExact(labels[i], labels[j]); }
  }

  /** The first `limit` of labels in order; whatever is cut off comes before none of them. */
  lemma CutKeepsTheFirst(labels: seq<Label>, limit: nat, l: Label)
    requires InOrder(labels) && limit <= |labels|
    ensures InOrder(labels[..limit]) && multiset(labels[..limit])[l] <= multiset(labels)[l]
    ensures multiset(labels[..limit])[l] < multiset(labels)[l] ==> forall k <- labels[..limit] :: !Before(l, k)
  {
    var kept, cut := labels[..limit], labels[limit..];
    assert labels == kept + cut;
    assert multiset(labels)[l] == multiset(kept)[l] + multiset(cut)[l];
    if l in cut {
      var j :| 0 <= j < |cut| && cut[j] == l;
      forall k <- kept ensures !Before(l, k) {
        var i :| 0 <= i < |kept| && kept[i] == k;
        assert labels[i] == k && labels[limit + j] == l;
      }
    }
  }

  /** The label belongs to the answer, but for the limit. */
  predicate Wanted(v: View, sphere: Sphere, l: Label) {
    Accepts(v, sphere, l) && Visited(l, SearchBox(Centre(v).0, Centre(v).1, Radius(v, sphere), sphere.cosine))
  }

  predicate HasRightCount(labels: seq<Label>, all: seq<Label>, v: View, sphere: Sphere, l: Label) {
    && multiset(labels)[l] <= (if Accepts(v, sphere, l) then multiset(all)[l] else 0)
    && (Wanted(v, sphere, l) ==> multiset(labels)[l] == multiset(all)[l])
  }

  /** What the loops found, put in order, holds a label as often as the catalogue if it passes the tests and is visited. */
  lemma FoundHasRightCount(found: seq<Label>, sorted: seq<Label>, all: seq<Label>, accepts: Test, box: Box,
                           v: View, sphere: Sphere, l: Label)
    requires accepts(l) == Accepts(v, sphere, l) && multiset(sorted) == multiset(found)
    requires box == SearchBox(Centre(v).0, Centre(v).1, Radius(v, sphere), sphere.cosine)
    requires multiset(found)[l] == if Visited(l, box) then multiset(FullScan(all, accepts))[l] else 0
    ensures HasRightCount(sorted, all, v, sphere, l)
  {
    FullScanCounts(all, accepts, l);
  }

  /** What cutting the sorted labels leaves. */
  lemma AnswerIsExact(sorted: seq<Label>, all: seq<Label>, v: View, sphere: Sphere, limit: nat)
    requires InOrder(sorted) && forall l :: HasRightCount(sorted, all, v, sphere, l)
    ensures var labels := if |sorted| > limit then sorted[..limit] else sorted;
      && (forall i, j :: 0 <= i < j < |labels| ==> NotAfter(labels[i], labels[j]))
      && (forall l :: multiset(labels)[l] <= if Accepts(v, sphere, l) then multiset(all)[l] else 0)
      && (forall l :: Wanted(v, sphere, l) && multiset(labels)[l] < multiset(all)[l] ==>
            |labels| == limit && forall k <- labels :: NotAfter(k, l))
  {
    var n := if |sorted| > limit then limit else |sorted|;
    InFieldOrder(sorted);
    assert sorted[..|sorted|] == sorted;
    forall l
      ensures multiset(sorted[..n])[l] <= if Accepts(v, sphere, l) then multiset(all)[l] else 0
      ensures Wanted(v, sphere, l) && multiset(sorted[..n])[l] < multiset(all)[l] ==>
        n == limit && forall k <- sorted[..n] :: NotAfter(k, l)
    {
      assert HasRightCount(sorted, all, v, sphere, l);
      CutKeepsTheFirst(sorted, n, l);
      forall k { BeforeIsExact(k, l); }
    }
  }

  /**
   The answer holds at most `limit` labels, in order, each as often as the
   catalogue does if the tests accept it. An accepted label of a visited tile is
   missing only if the limit is reached by labels none of which it may stand before.
   */
  method LabelsInFootprint(tiles: seq<seq<Label>>, ghost all: seq<Label>, v: View, sphere: Sphere, limit: nat)
    returns (labels: seq<Label>)
    requires Tiled(tiles, all)
    ensures |labels| <= limit && forall i, j :: 0 <= i < j < |labels| ==> NotAfter(labels[i], labels[j])
    ensures forall l :: multiset(labels)[l] <= if Accepts(v, sphere, l) then multiset(all)[l] else 0
    ensures forall l :: Wanted(v, sphere, l) && multiset(labels)[l] < multiset(all)[l] ==>
      |labels| == limit && forall k <- labels :: NotAfter(k, l)
  {
    if limit == 0 {
      return [];
    }
    var (ra, dec) := v.wcs.toWorld(v.width / 2.0, v.height / 2.0);
    var radius := Radius(v, sphere);
    var accepts := (l: Label) =>
      if l.mag.Some? && l.mag.value > v.magLimit then false
      else if sphere.separation(ra, dec, l.ra, l.dec) > radius * 1.05 then false
      else match v.wcs.toPixel(l.ra, l.dec)
           case None => false
           case Some(pixel) => pixel.0 >= 0.0 && pixel.0 <= v.width && pixel.1 >= 0.0 && pixel.1 <= v.height;
    var found, box := CollectLabels(tiles, all, accepts, ra, dec, radius, sphere.cosine);
    labels := SortLabels(found);
    assert forall l :: accepts(l) == Accepts(v, sphere, l);
    forall l ensures HasRightCount(labels, all, v, sphere, l) {
      FoundHasRightCount(found, labels, all, accepts, box, v, sphere, l);
    }
    AnswerIsExact(labels, all, v, sphere, limit);
    if |labels| > limit {
      labels := labels[..limit];
    }
  }
}

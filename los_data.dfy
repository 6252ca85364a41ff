// The front end's down-sampling of a line-of-sight profile: five parallel
// series longer than 100 points keep every (n / 100)-th point (between about
// 100 and 200 of them), keeping the last point and starting the distance axis
// at 0.

module LosData {

  /** The series of a line-of-sight response that the chart draws. */
  datatype Profile = Profile(
    distance: seq<real>, profile: seq<real>, curvature: seq<real>,
    fresnel: seq<real>, reference: seq<real>)

  /** The five series run in parallel. */
  predicate Aligned(p: Profile) {
    && |p.profile| == |p.distance| && |p.curvature| == |p.distance|
    && |p.fresnel| == |p.distance| && |p.reference| == |p.distance|
  }

  /** The loop's indices from i on: i, i + step, i + 2 step, ... below n. */
  function Indices(n: nat, step: nat, i: nat): seq<nat>
    requires step > 0
    decreases n - i
  {
    if i >= n then [] else [i] + Indices(n, step, i + step)
  }

  /** Index k of the loop's indices from i is i + k step, and each is below n. */
  lemma {:induction false} IndicesAt(n: nat, step: nat, i: nat)
    requires step > 0
    ensures forall k :: 0 <= k < |Indices(n, step, i)| ==> Indices(n, step, i)[k] == i + k * step < n
    ensures i < n ==> |Indices(n, step, i)| > 0
    decreases n - i
  {
    if i < n {
      IndicesAt(n, step, i + step);
      var rest := Indices(n, step, i + step);
      forall k | 0 <= k < |Indices(n, step, i)| ensures Indices(n, step, i)[k] == i + k * step < n {
        if k > 0 {
          assert Indices(n, step, i)[k] == rest[k - 1];
          assert i + step + (k - 1) * step == i + k * step;
        }
      }
    }
  }

  predicate IndicesBelow(idx: seq<nat>, n: nat) {
    forall k :: 0 <= k < |idx| ==> idx[k] < n
  }

  /** The entries of xs at the given indices, in their order. */
  function Pick(xs: seq<real>, idx: seq<nat>): (r: seq<real>)
    requires forall k :: 0 <= k < |idx| ==> idx[k] < |xs|
    ensures |r| == |idx|
  {
    seq(|idx|, k requires 0 <= k < |idx| => xs[idx[k]])
  }

  lemma PickAppend(xs: seq<real>, idx: seq<nat>, i: nat)
    requires forall k :: 0 <= k < |idx| ==> idx[k] < |xs|
    requires i < |xs|
    ensures Pick(xs, idx + [i]) == Pick(xs, idx) + [xs[i]]
  {
  }

  function PickAll(p: Profile, idx: seq<nat>): (r: Profile)
    requires Aligned(p)
    requires forall k :: 0 <= k < |idx| ==> idx[k] < |p.distance|
    ensures Aligned(r) && |r.distance| == |idx|
  {
    Profile(Pick(p.distance, idx), Pick(p.profile, idx), Pick(p.curvature, idx),
            Pick(p.fresnel, idx), Pick(p.reference, idx))
  }

  /** The indices kept: every step-th one from 0, then the last one if its
      distance differs from the last sampled distance. (The source then puts
      the first index in front if its distance differs from the first kept
      one; FirstAlwaysKept shows that this never happens.) */
  function Kept(d: Profile): (idx: seq<nat>)
    requires Aligned(d) && |d.distance| > 100
    ensures forall k :: 0 <= k < |idx| ==> idx[k] < |d.distance|
    ensures |idx| > 0
  {
    var n := |d.distance|;
    IndicesAt(n, n / 100, 0);
    var sampled := Indices(n, n / 100, 0);
    if d.distance[sampled[|sampled| - 1]] != d.distance[n - 1] then sampled + [n - 1] else sampled
  }

  /** `processLosData`: short profiles are returned as they are; longer ones
      keep the kept indices of every series, and when the first kept distance
      is not 0 a point at distance 0 with the first entry of every other series
      is put in front. */
  function Processed(d: Profile): Profile
    requires Aligned(d)
  {
    if |d.distance| <= 100 then d
    else
      var p := PickAll(d, Kept(d));
      if p.distance[0] != 0.0 then
        Profile([0.0] + p.distance, [d.profile[0]] + p.profile, [d.curvature[0]] + p.curvature,
                [d.fresnel[0]] + p.fresnel, [d.reference[0]] + p.reference)
      else p
  }

  // ------------------------------------------------------- what it guarantees

  /** The five series stay parallel. */
  lemma ProcessedAligned(d: Profile)
    requires Aligned(d)
    ensures Aligned(Processed(d))
  {
  }

  /** The first kept index is always 0, so the "first point" check never adds
      anything. */
  lemma FirstAlwaysKept(d: Profile)
    requires Aligned(d) && |d.distance| > 100
    ensures Kept(d)[0] == 0
    ensures var n := |d.distance|;
            Kept(d) == Indices(n, n / 100, 0) || Kept(d) == Indices(n, n / 100, 0) + [n - 1]
  {
    var n := |d.distance|;
    IndicesAt(n, n / 100, 0);
  }

  /** A thinned profile starts at distance 0 and ends at the input's last
      distance. */
  lemma ProcessedEnds(d: Profile)
    requires Aligned(d) && |d.distance| > 100
    ensures var out := Processed(d);
            |out.distance| > 0 && out.distance[0] == 0.0
            && out.distance[|out.distance| - 1] == d.distance[|d.distance| - 1]
  {
    var n := |d.distance|;
    FirstAlwaysKept(d);
    IndicesAt(n, n / 100, 0);
  }

  /** Every series takes the same input index at each position: the kept
      indices, after the point at 0 when one was put in front. */
  lemma ProcessedSameIndex(d: Profile)
    requires Aligned(d) && |d.distance| > 100
    ensures var out := Processed(d);
            var idx := Kept(d);
            var off := |out.distance| - |idx|;
            && (off == 0 || off == 1)
            && (off == 1 ==> out.distance[0] == 0.0 && out.profile[0] == d.profile[0]
                             && out.curvature[0] == d.curvature[0] && out.fresnel[0] == d.fresnel[0]
                             && out.reference[0] == d.reference[0])
            && forall k :: 0 <= k < |idx| ==>
                 && out.distance[k + off] == d.distance[idx[k]] && out.profile[k + off] == d.profile[idx[k]]
                 && out.curvature[k + off] == d.curvature[idx[k]] && out.fresnel[k + off] == d.fresnel[idx[k]]
                 && out.reference[k + off] == d.reference[idx[k]]
  {
  }

  /** The kept indices are 0, step, 2 step, ... with step = n / 100, and the
      last input index; so a thinned profile has at most ceil(n / step) + 2
      points. */
  lemma ProcessedLength(d: Profile)
    requires Aligned(d) && |d.distance| > 100
    ensures var n := |d.distance|;
            var step := n / 100;
            var sampled := Indices(n, step, 0);
            && (forall k :: 0 <= k < |sampled| ==> sampled[k] == k * step)
            && (|sampled| - 1) * step < n
            && |Processed(d).distance| <= |sampled| + 2
  {
    var n := |d.distance|;
    IndicesAt(n, n / 100, 0);
    FirstAlwaysKept(d);
  }

  // ------------------------------------------------------------------ the loop

  /** The stepped loop of `processLosData`: every series takes the entries at
      0, step, 2 step, ... */
  method SampleEvery(data: Profile, step: nat) returns (r: Profile)
    requires Aligned(data) && step > 0
    ensures IndicesBelow(Indices(|data.distance|, step, 0), |data.distance|)
    ensures r == PickAll(data, Indices(|data.distance|, step, 0))
  {
    var n := |data.distance|;
    var distance, profile, curvature, fresnel, reference :=
      data.distance, data.profile, data.curvature, data.fresnel, data.reference;
    var rDistance, rProfile, rCurvature, rFresnel, rReference: seq<real> := [], [], [], [], [];
    ghost var picked: seq<nat> := [];
    var i := 0;
    while i < n
      invariant picked + Indices(n, step, i) == Indices(n, step, 0)
      invariant IndicesBelow(picked, n)
      invariant rDistance == Pick(distance, picked) && rProfile == Pick(profile, picked)
      invariant rCurvature == Pick(curvature, picked) && rFresnel == Pick(fresnel, picked)
      invariant rReference == Pick(reference, picked)
      decreases n - i
    {
      PickAppend(distance, picked, i);
      PickAppend(profile, picked, i);
      PickAppend(curvature, picked, i);
      PickAppend(fresnel, picked, i);
      PickAppend(reference, picked, i);
      rDistance := rDistance + [distance[i]];
      rProfile := rProfile + [profile[i]];
      rCurvature := rCurvature + [curvature[i]];
      rFresnel := rFresnel + [fresnel[i]];
      rReference := rReference + [reference[i]];
      assert Indices(n, step, i) == [i] + Indices(n, step, i + step);
      picked := picked + [i];
      i := i + step;
    }
    assert picked + [] == picked;
    r := Profile(rDistance, rProfile, rCurvature, rFresnel, rReference);
  }

  /** `processLosData`: the sampled points, then the last point, the first
      point and a point at distance 0 when each is missing. */
  method ProcessLosData(data: Profile) returns (out: Profile)
    requires Aligned(data)
    ensures out == Processed(data)
  {
    var n := |data.distance|;
    if n <= 100 {
      return data;
    }
    var step := n / 100;
    IndicesAt(n, step, 0);
    var sampled := SampleEvery(data, step);
    ghost var picked := Indices(n, step, 0);
    var distance, profile, curvature, fresnel, reference :=
      data.distance, data.profile, data.curvature, data.fresnel, data.reference;
    var rDistance, rProfile, rCurvature, rFresnel, rReference :=
      sampled.distance, sampled.profile, sampled.curvature, sampled.fresnel, sampled.reference;
    if rDistance[|rDistance| - 1] != distance[n - 1] {
      PickAppend(distance, picked, n - 1);
      PickAppend(profile, picked, n - 1);
      PickAppend(curvature, picked, n - 1);
      PickAppend(fresnel, picked, n - 1);
      PickAppend(reference, picked, n - 1);
      rDistance := rDistance + [distance[n - 1]];
      rProfile := rProfile + [profile[n - 1]];
      rCurvature := rCurvature + [curvature[n - 1]];
      rFresnel := rFresnel + [fresnel[n - 1]];
      rReference := rReference + [reference[n - 1]];
      picked := picked + [n - 1];
    }
    assert Profile(rDistance, rProfile, rCurvature, rFresnel, rReference) == PickAll(data, Kept(data));
    var d0, p0, c0, f0, ref0 := distance[0], profile[0], curvature[0], fresnel[0], reference[0];
    if rDistance[0] != d0 {
      rDistance, rProfile, rCurvature, rFresnel, rReference :=
        [d0] + rDistance, [p0] + rProfile, [c0] + rCurvature, [f0] + rFresnel, [ref0] + rReference;
    }
    if rDistance[0] != 0.0 {
      rDistance, rProfile, rCurvature, rFresnel, rReference :=
        [0.0] + rDistance, [p0] + rProfile, [c0] + rCurvature, [f0] + rFresnel, [ref0] + rReference;
    }
    out := Profile(rDistance, rProfile, rCurvature, rFresnel, rReference);
  }
}

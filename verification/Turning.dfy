/** Turning toward a desired heading, and the angle still to turn. */
module Turning {
  import opened CArithmetic

  predicate IsHeading(h: int) {
    0 <= h < 360
  }

  /** autopilot_heading_difference */
  function HeadingDifference(bearing: int, heading: int): int {
    var difference := TruncMod(bearing - heading, 360);
    if difference < -180 then Abs(difference + 360)
    else if difference > 180 then Abs(difference - 360)
    else Abs(difference)
  }

  /** The difference is the least |bearing - heading + 360k| over all integers k, for any two angles. */
  lemma DifferenceIsLeast(bearing: int, heading: int, least: int)
    ensures least == HeadingDifference(bearing, heading) <==>
            && (exists k: int :: least == Around(bearing, heading, k))
            && (forall k: int :: least <= Around(bearing, heading, k))
  {
    var d, q := TruncMod(bearing - heading, 360), TruncDiv(bearing - heading, 360);
    assert bearing - heading == 360 * q + d && -360 < d < 360;
    var turn := if d < -180 then 1 else if d > 180 then -1 else 0;
    assert Around(bearing, heading, turn - q) == HeadingDifference(bearing, heading);
    forall k: int ensures HeadingDifference(bearing, heading) <= Around(bearing, heading, k) {
      assert bearing - heading + 360 * k == 360 * (q + k) + d;
    }
  }

  function Around(bearing: int, heading: int, k: int): int {
    Abs(bearing - heading + 360 * k)
  }

  /** Between two headings the difference is the shorter way round. */
  lemma DifferenceOfHeadings(b: int, h: int)
    requires IsHeading(b) && IsHeading(h)
    ensures HeadingDifference(b, h) == var d := Abs(b - h); if d <= 180 then d else 360 - d
  {
    assert TruncDiv(b - h, 360) == 0;
  }

  /** The turn of one simulated step: the shorter way round, and never past the desired heading. */
  class Location {
    var h: int
    var dh: int

    method Turn(offset: int)
      requires IsHeading(h) && IsHeading(dh) && offset > 0
      modifies this`h
      ensures IsHeading(h) && h == Turned(old(h), dh, offset)
    {
      if h != dh {
        var normalizedAngle := h - dh;
        if normalizedAngle < 0 { normalizedAngle := normalizedAngle + 360; }
        if normalizedAngle > 180 {
          h := h + offset;
          if h >= 360 { h := h - 360; }
          normalizedAngle := normalizedAngle + offset;
          if normalizedAngle >= 360 { h := dh; }
        } else {
          h := h - offset;
          if h < 0 { h := h + 360; }
          normalizedAngle := normalizedAngle - offset;
          if normalizedAngle < 0 { h := dh; }
        }
      }
    }

    /** The steps of a simulation whose turn rate may change from step to step. */
    method TurnAll(offsets: seq<int>)
      requires IsHeading(h) && IsHeading(dh) && AllPositive(offsets)
      modifies this`h
      ensures IsHeading(h)
      ensures HeadingDifference(dh, h) == Left(HeadingDifference(dh, old(h)), Total(offsets))
    {
      for i := 0 to |offsets|
        invariant IsHeading(h)
        invariant HeadingDifference(dh, h) == Left(HeadingDifference(dh, old(h)), Total(offsets[..i]))
      {
        TotalAppends(offsets[..i], offsets[i]);
        assert offsets[..i + 1] == offsets[..i] + [offsets[i]];
        assert AllPositive(offsets[..i]);
        TurnShrinks(h, dh, offsets[i]);
        Turn(offsets[i]);
      }
      assert offsets[..|offsets|] == offsets;
    }
  }

  function Wrapped(h: int): int {
    if h >= 360 then h - 360 else if h < 0 then h + 360 else h
  }

  /** Where one turn ends: a step down the circle when that is no longer than the way up, and the desired
      heading itself when the step would reach it. */
  function Turned(h: int, dh: int, offset: int): int
    requires IsHeading(h) && IsHeading(dh)
  {
    var down := Wrapped(h - dh);
    if down <= 180 then if offset >= down then dh else Wrapped(h - offset)
    else if offset >= 360 - down then dh else Wrapped(h + offset)
  }

  /** What is left of an angle. */
  function Left(angle: int, turned: int): int {
    if angle > turned then angle - turned else 0
  }

  /** One turn stays on the circle, takes its offset off the difference down to nothing, and moves no
      further than that. */
  lemma TurnShrinks(h: int, dh: int, offset: int)
    requires IsHeading(h) && IsHeading(dh) && offset > 0
    ensures var next, d := Turned(h, dh, offset), HeadingDifference(dh, h);
            && IsHeading(next)
            && HeadingDifference(dh, next) == Left(d, offset)
            && HeadingDifference(h, next) == d - Left(d, offset)
  {
    var next := Turned(h, dh, offset);
    assert IsHeading(next);
    DifferenceOfHeadings(dh, h);
    DifferenceOfHeadings(dh, next);
    DifferenceOfHeadings(h, next);
  }

  /** The turn goes down the circle when the way down is at most half of it, and up otherwise, by the
      offset or by all that is left of the way. */
  lemma TurnsTheShorterWay(h: int, dh: int, offset: int)
    requires IsHeading(h) && IsHeading(dh) && offset > 0
    ensures var down, up := (h - dh) % 360, (dh - h) % 360;
            Turned(h, dh, offset)
            == if down <= 180 then (h - if offset < down then offset else down) % 360
               else (h + if offset < up then offset else up) % 360
  {
    var down := Wrapped(h - dh);
    assert (h - dh) % 360 == down && (dh - h) % 360 == if down == 0 then 0 else 360 - down;
    var moved := if offset < down then offset else down;
    assert down <= 180 ==> (h - moved) % 360 == Wrapped(h - moved);
    var risen := if offset < 360 - down then offset else 360 - down;
    assert down > 180 ==> (h + risen) % 360 == Wrapped(h + risen);
  }

  predicate AllPositive(offsets: seq<int>) {
    forall i :: 0 <= i < |offsets| ==> offsets[i] > 0
  }

  function Total(offsets: seq<int>): (t: int)
    ensures AllPositive(offsets) ==> t >= |offsets|
  {
    if offsets == [] then 0 else offsets[0] + Total(offsets[1..])
  }

  lemma {:induction false} TotalAppends(offsets: seq<int>, offset: int)
    ensures Total(offsets + [offset]) == Total(offsets) + offset
  {
    if offsets == [] {
      assert [offset][1..] == [];
      assert offsets + [offset] == [offset];
    } else {
      assert (offsets + [offset])[1..] == offsets[1..] + [offset];
      TotalAppends(offsets[1..], offset);
    }
  }

  /** The heading after n turns at one rate. */
  function TurnedTimes(h: int, dh: int, offset: int, n: nat): (r: int)
    requires IsHeading(h) && IsHeading(dh) && offset > 0
    ensures IsHeading(r)
  {
    if n == 0 then h
    else
      TurnShrinks(TurnedTimes(h, dh, offset, n - 1), dh, offset);
      Turned(TurnedTimes(h, dh, offset, n - 1), dh, offset)
  }

  lemma {:induction false} LeftAfter(h: int, dh: int, offset: int, n: nat)
    requires IsHeading(h) && IsHeading(dh) && offset > 0
    ensures HeadingDifference(dh, TurnedTimes(h, dh, offset, n)) == Left(HeadingDifference(dh, h), n * offset)
  {
    if n > 0 {
      LeftAfter(h, dh, offset, n - 1);
      TurnShrinks(TurnedTimes(h, dh, offset, n - 1), dh, offset);
      assert n * offset == (n - 1) * offset + offset;
    }
  }

  /** The desired heading is reached at the first n with n * offset no less than the angle to turn,
      which is the angle divided by the offset, rounded up. */
  lemma TurningConverges(h: int, dh: int, offset: int, n: nat)
    requires IsHeading(h) && IsHeading(dh) && offset > 0
    ensures TurnedTimes(h, dh, offset, n) == dh <==> n >= (HeadingDifference(dh, h) + offset - 1) / offset
  {
    LeftAfter(h, dh, offset, n);
    var d, r := HeadingDifference(dh, h), TurnedTimes(h, dh, offset, n);
    DifferenceOfHeadings(dh, r);
    DifferenceOfHeadings(dh, h);
    RoundedUp(d, offset, n);
  }

  lemma RoundedUp(d: int, offset: int, n: nat)
    requires d >= 0 && offset > 0
    ensures n * offset >= d <==> n >= (d + offset - 1) / offset
  {
    var steps := (d + offset - 1) / offset;
    assert steps * offset >= d > (steps - 1) * offset;
    if n >= steps {
      assert n * offset >= steps * offset;
    } else {
      assert n * offset <= (steps - 1) * offset;
    }
  }
}

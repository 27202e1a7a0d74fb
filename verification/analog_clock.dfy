/** The geometry of the analog dial: hand angles in degrees clockwise from
    twelve o'clock, the 60 tick marks, the 12 numerals and the two hands.
    Angles are exact reals; the sine/cosine projection to screen
    coordinates is not part of this model. */
module AnalogClock {

  /** The component's default `size` in pixels. */
  const DefaultSize: real := 320.0

  /** `minute * 6`: six degrees per minute. */
  function MinuteAngle(minute: nat): (a: real)
    ensures minute < 60 ==> 0.0 <= a <= 354.0
    ensures minute == 30 ==> a == 180.0
  {
    (minute * 6) as real
  }

  /** `(hour % 12) * 30 + minute * 0.5`: thirty degrees per hour, so that 12
      and 0 both point up, plus half a degree per minute. */
  function HourAngle(hour: nat, minute: nat): (a: real)
    ensures minute < 60 ==> ((hour % 12) * 30) as real <= a < ((hour % 12) * 30 + 30) as real
    ensures minute < 60 ==> 0.0 <= a < 360.0
  {
    ((hour % 12) * 30) as real + (minute as real) * 0.5
  }

  lemma HandAngleExamples()
    ensures HourAngle(3, 0) == 90.0
    ensures HourAngle(12, 0) == 0.0 && HourAngle(0, 0) == 0.0
    ensures MinuteAngle(30) == 180.0
  {}

  /** The hour hand moves a twelfth as fast as the minute hand. */
  lemma HourHandTracksMinuteHand(hour: nat, minute: nat)
    ensures HourAngle(hour, minute) - HourAngle(hour, 0) == MinuteAngle(minute) / 12.0
  {}

  /** After a full turn of the minute hand the hour hand reaches the next
      hour's position (the mod-12 wrap at twelve o'clock aside). */
  lemma HourHandIsContinuous(hour: nat)
    requires hour % 12 < 11
    ensures HourAngle(hour, 60) == HourAngle(hour + 1, 0)
  {}

  /** One tick mark: a radial segment from radius `inner` to radius `outer`
      at `angle`, drawn with stroke `width`. */
  datatype Tick = Tick(index: nat, angle: real, outer: real, inner: real, width: nat)

  predicate IsHourTick(t: Tick) {
    t.width == 3
  }

  /** Tick `i` of a dial of radius `r`: every fifth tick is an hour tick,
      longer (inner radius `r - 30` instead of `r - 22`) and bolder. */
  function MakeTick(r: real, i: nat): (t: Tick)
    ensures t.index == i && t.angle == (6 * i) as real && t.outer == r - 10.0
    ensures IsHourTick(t) <==> i % 5 == 0
    ensures IsHourTick(t) ==> t.inner == r - 30.0
    ensures !IsHourTick(t) ==> t.inner == r - 22.0 && t.width == 1
  {
    var hourTick := i % 5 == 0;
    Tick(i, (i * 6) as real, r - 10.0, if hourTick then r - 30.0 else r - 22.0, if hourTick then 3 else 1)
  }

  /** The 60 ticks, in order. */
  function Ticks(r: real): (ts: seq<Tick>)
    ensures |ts| == 60
    ensures forall i :: 0 <= i < 60 ==> ts[i] == MakeTick(r, i)
  {
    seq(60, i requires 0 <= i => MakeTick(r, i))
  }

  /** The number of hour ticks among the first `n` ticks of `ts`. */
  function CountHourTicks(ts: seq<Tick>, n: nat): nat
    requires n <= |ts|
  {
    if n == 0 then 0
    else CountHourTicks(ts, n - 1) + (if IsHourTick(ts[n - 1]) then 1 else 0)
  }

  /** The first `n` ticks hold one hour tick per started group of five. */
  lemma {:induction false} HourTicksInPrefix(r: real, n: nat)
    requires n <= 60
    ensures CountHourTicks(Ticks(r), n) == (n + 4) / 5
  {
    if n > 0 {
      HourTicksInPrefix(r, n - 1);
    }
  }

  /** Exactly 12 of the 60 ticks are hour ticks. */
  lemma TwelveHourTicks(r: real)
    ensures CountHourTicks(Ticks(r), 60) == 12
  {
    HourTicksInPrefix(r, 60);
  }

  /** A numeral `n` at `angle`, centred at distance `dist` from the centre. */
  datatype Numeral = Numeral(n: nat, angle: real, dist: real)

  /** The numerals 1..12, numeral `n` at `30 * n` degrees. */
  function Numerals(r: real): (ns: seq<Numeral>)
    ensures |ns| == 12
    ensures forall k :: 0 <= k < 12 ==> ns[k].n == k + 1 && ns[k].dist == r - 55.0
    ensures forall k :: 0 <= k < 12 ==> ns[k].angle == (30 * ns[k].n) as real
  {
    seq(12, k requires 0 <= k => Numeral(k + 1, ((k + 1) * 30) as real, r - 55.0))
  }

  /** Numeral `n` points the same way as hour tick `5n mod 60` (numeral 12
      sits at 360 degrees, the direction of tick 0). */
  lemma NumeralsFaceHourTicks(r: real, k: nat)
    requires k < 12
    ensures var t := Ticks(r)[(5 * (k + 1)) % 60];
            IsHourTick(t) && Numerals(r)[k].angle == t.angle + (if k == 11 then 360.0 else 0.0)
  {}

  /** The minute hand points along tick `minute`. */
  lemma MinuteHandFacesItsTick(r: real, minute: nat)
    requires minute < 60
    ensures MinuteAngle(minute) == Ticks(r)[minute].angle
  {}

  /** On the hour, the hour hand points at its numeral. */
  lemma HourHandFacesNumeralOnTheHour(r: real, hour: nat)
    requires 1 <= hour <= 12
    ensures HourAngle(hour, 0) + (if hour == 12 then 360.0 else 0.0) == Numerals(r)[hour - 1].angle
  {}

  /** A hand: a segment from the centre of the given length, stroke width
      and angle. */
  datatype Hand = Hand(length: real, width: nat, angle: real)

  /** The rendered dial: radius `size / 2`, face circle 6 px inside it. */
  datatype Dial = Dial(radius: real, faceRadius: real, ticks: seq<Tick>, numerals: seq<Numeral>,
                       hourHand: Hand, minuteHand: Hand)

  /** `AnalogClock({hour, minute, size})` without the SVG projection. */
  function Render(hour: nat, minute: nat, size: real): (d: Dial)
    ensures d.radius * 2.0 == size && d.faceRadius == d.radius - 6.0
    ensures d.ticks == Ticks(d.radius) && d.numerals == Numerals(d.radius)
    ensures d.hourHand.angle == HourAngle(hour, minute) && d.minuteHand.angle == MinuteAngle(minute)
    ensures d.hourHand.length == d.radius * 0.55 && d.minuteHand.length == d.radius * 0.75
    ensures size > 0.0 ==> 0.0 < d.hourHand.length < d.minuteHand.length < d.radius
    ensures d.hourHand.width > d.minuteHand.width
  {
    var r := size / 2.0;
    Dial(r, r - 6.0, Ticks(r), Numerals(r),
         Hand(r * 0.55, 6, HourAngle(hour, minute)),
         Hand(r * 0.75, 4, MinuteAngle(minute)))
  }

  /** At the default size the hands are 88 and 120 pixels long. */
  lemma DefaultHandLengths()
    ensures Render(0, 0, DefaultSize).hourHand.length == 88.0
    ensures Render(0, 0, DefaultSize).minuteHand.length == 120.0
  {}
}

/** The free helpers of the simulator: coordinate flips between the world
    frame (y up, heading counter-clockwise) and the screen frame (y down),
    the knot-to-metre conversion, and the clock text shown on the banner. */
module Utils {

  /** A point or a vector on the ground plane, in metres. */
  datatype Vector2 = Vector2(x: real, y: real)

  /** World coordinates to screen coordinates: the y axis is flipped. */
  function ToSfmlPosition(p: Vector2): Vector2
  {
    Vector2(p.x, -1.0 * p.y)
  }

  /** World heading to screen rotation: the sense of rotation is flipped. */
  function ToSfmlRotation(worldDegree: real): real
  {
    -1.0 * worldDegree
  }

  /** Knots to metres per second, with the conversion factor the simulator uses. */
  function KnotsToMetersPerSecond(knot: real): real
  {
    knot * 0.5144
  }

  /** Flipping twice gives the point back, and x is never touched. */
  lemma ToSfmlPositionInvolutive(p: Vector2)
    ensures ToSfmlPosition(ToSfmlPosition(p)) == p
    ensures ToSfmlPosition(p).x == p.x
    ensures ToSfmlPosition(p).y + p.y == 0.0
  {
  }

  lemma ToSfmlRotationInvolutive(d: real)
    ensures ToSfmlRotation(ToSfmlRotation(d)) == d
    ensures ToSfmlRotation(d) + d == 0.0
  {
  }

  /** The conversion is strictly increasing, maps zero to zero, and a knot
      is more than a metre per second. */
  lemma KnotsConversionMonotone(a: real, b: real)
    ensures a < b ==> KnotsToMetersPerSecond(a) < KnotsToMetersPerSecond(b)
    ensures KnotsToMetersPerSecond(0.0) == 0.0
    ensures a > 0.0 ==> 0.0 < KnotsToMetersPerSecond(a) < a
  {
  }

  // ---------------------------------------------------------------------
  // Integer conversions of C++: a float-to-int cast and `/` on int both
  // truncate toward zero.
  // ---------------------------------------------------------------------

  /** `int(r)`: truncation toward zero. */
  function Trunc(r: real): int
  {
    if r >= 0.0 then r.Floor else -((-r).Floor)
  }

  /** Division on C++ int: the quotient is truncated toward zero. */
  function CDiv(a: int, b: int): int
    requires b > 0
  {
    if a >= 0 then a / b else -((-a) / b)
  }

  /** The five fields of the banner clock. */
  datatype Clock = Clock(year: int, day: int, hour: int, minute: int, second: int)

  /** Elapsed seconds cut into years of 365 days, days, hours, minutes and
      seconds, each field carrying what the next larger one leaves over. */
  function SplitSeconds(seconds: real): (c: Clock)
    ensures seconds >= 0.0 ==>
      0 <= c.second < 60 && 0 <= c.minute < 60 && 0 <= c.hour < 24
      && 0 <= c.day < 365 && 0 <= c.year
    ensures (((c.year * 365 + c.day) * 24 + c.hour) * 60 + c.minute) * 60 + c.second
            == Trunc(seconds)
  {
    var total := Trunc(seconds);
    var minutes := CDiv(total, 60);
    var hours := CDiv(minutes, 60);
    var days := CDiv(hours, 24);
    var years := CDiv(days, 365);
    Clock(years, days - years * 365, hours - days * 24, minutes - hours * 60, total - minutes * 60)
  }

  // ---------------------------------------------------------------------
  // std::to_string on int, and the zero padding of the clock fields.
  // ---------------------------------------------------------------------

  function DigitChar(d: int): char
    requires 0 <= d < 10
  {
    (48 + d) as char
  }

  function DigitValue(c: char): int
  {
    c as int - 48
  }

  /** Decimal digits of a natural number, most significant first. */
  function NatToString(n: nat): string
  {
    if n < 10 then [DigitChar(n)] else NatToString(n / 10) + [DigitChar(n % 10)]
  }

  /** Only decimal digits appear in the text of a number. */
  lemma {:induction false} NatToStringDigits(n: nat)
    ensures |NatToString(n)| >= 1
    ensures forall k :: 0 <= k < |NatToString(n)| ==> '0' <= NatToString(n)[k] <= '9'
  {
    if n >= 10 {
      NatToStringDigits(n / 10);
    }
  }

  /** Different numbers are written differently. */
  lemma {:induction false} NatToStringInjective(a: nat, b: nat)
    requires NatToString(a) == NatToString(b)
    ensures a == b
  {
    if a >= 10 && b >= 10 {
      var sa, sb := NatToString(a), NatToString(b);
      assert sa[|sa| - 1] == DigitChar(a % 10) && sb[|sb| - 1] == DigitChar(b % 10);
      assert sa[..|sa| - 1] == NatToString(a / 10) && sb[..|sb| - 1] == NatToString(b / 10);
      NatToStringInjective(a / 10, b / 10);
    }
  }

  /** std::to_string(int): a minus sign in front of the digits of a negative number. */
  function IntToString(i: int): string
  {
    if i < 0 then "-" + NatToString(-i) else NatToString(i)
  }

  /** A clock field: a leading zero when the value is below ten. */
  function ZeroPad(i: int): string
  {
    (if i < 10 then "0" else "") + IntToString(i)
  }

  /** The value of a two-character decimal field. */
  function ParseTwoDigits(s: string): int
    requires |s| == 2
  {
    DigitValue(s[0]) * 10 + DigitValue(s[1])
  }

  /** A field between 0 and 99 is always written with exactly two digits,
      and reading them back gives the field. */
  lemma ZeroPadTwoDigits(i: int)
    requires 0 <= i < 100
    ensures |ZeroPad(i)| == 2
    ensures ZeroPad(i) == [DigitChar(i / 10), DigitChar(i % 10)]
    ensures ParseTwoDigits(ZeroPad(i)) == i
  {
    if i >= 10 {
      assert NatToString(i) == NatToString(i / 10) + [DigitChar(i % 10)];
      assert NatToString(i / 10) == [DigitChar(i / 10)];
    }
  }

  /** The banner clock: "<years>y<days>d", a line break, then "HH:MM:SS". */
  function ConvertSecondsToHHMMSS(seconds: real): string
  {
    var c := SplitSeconds(seconds);
    IntToString(c.year) + "y" + IntToString(c.day) + "d" + "\n"
    + ZeroPad(c.hour) + ":" + ZeroPad(c.minute) + ":" + ZeroPad(c.second)
  }

  /** For a non-negative elapsed time the clock text ends in a line break
      followed by eight characters "HH:MM:SS" whose fields read back as the
      hours, minutes and seconds of `SplitSeconds`, and those fields together
      with the days and years add up to the truncated elapsed time. */
  lemma {:induction false} ClockTextRoundTrip(seconds: real)
    requires seconds >= 0.0
    ensures var s := ConvertSecondsToHHMMSS(seconds);
            var c := SplitSeconds(seconds);
            |s| >= 9 && s[|s| - 9] == '\n'
            && s[|s| - 6] == ':' && s[|s| - 3] == ':'
            && ParseTwoDigits(s[|s| - 8 .. |s| - 6]) == c.hour
            && ParseTwoDigits(s[|s| - 5 .. |s| - 3]) == c.minute
            && ParseTwoDigits(s[|s| - 2 ..]) == c.second
            && (((c.year * 365 + c.day) * 24 + c.hour) * 60 + c.minute) * 60 + c.second
               == Trunc(seconds)
  {
    var c := SplitSeconds(seconds);
    var s := ConvertSecondsToHHMMSS(seconds);
    ZeroPadTwoDigits(c.hour);
    ZeroPadTwoDigits(c.minute);
    ZeroPadTwoDigits(c.second);
    var head := IntToString(c.year) + "y" + IntToString(c.day) + "d" + "\n";
    var tail := ZeroPad(c.hour) + ":" + ZeroPad(c.minute) + ":" + ZeroPad(c.second);
    assert s == head + tail;
    assert |tail| == 8;
    assert s[|s| - 8 ..] == tail;
    assert s[|s| - 9] == head[|head| - 1] == '\n';
    assert s[|s| - 8 .. |s| - 6] == tail[0..2] == ZeroPad(c.hour);
    assert s[|s| - 5 .. |s| - 3] == tail[3..5] == ZeroPad(c.minute);
    assert s[|s| - 2 ..] == tail[6..8] == ZeroPad(c.second);
  }
}

/** The running-time label of the main window: a number of seconds shown as
    hours, minutes and seconds. */
module Timestring {
  import opened Text

  /** `"{:02d}".format(n)`. */
  function Pad2(n: nat): string {
    ZeroPad(NatDigits(n), 2)
  }

  /** `_secs_to_timestring`: nothing for a negative duration, otherwise the
      whole seconds as `HH:MM:SS`, where the hours may take more digits. */
  function SecsToTimestring(secs: real): (r: string)
    ensures secs < 0.0 <==> r == ""
  {
    if secs < 0.0 then "" else Clock(secs.Floor)
  }

  /** The whole hours in `n` seconds. */
  function Hours(n: nat): nat { n / 3600 }

  /** The whole minutes left once the hours are taken off. */
  function Minutes(n: nat): nat { (n - Hours(n) * 3600) / 60 }

  /** The seconds left once the hours and the minutes are taken off. */
  function Seconds(n: nat): int { n - Hours(n) * 3600 - Minutes(n) * 60 }

  /** The clock face of `n` whole seconds. */
  function Clock(n: nat): string {
    Pad2(Hours(n)) + ":" + Pad2(Minutes(n)) + ":" + Pad2(Seconds(n))
  }

  /** Hours, minutes and seconds split `n` as a clock does. */
  lemma ClockArithmetic(n: nat)
    ensures 0 <= Minutes(n) < 60 && 0 <= Seconds(n) < 60
    ensures Hours(n) * 3600 + Minutes(n) * 60 + Seconds(n) == n
  {
  }

  /** The hours field of a time string: everything before the last six
      characters. */
  function HoursField(t: string): string
    requires |t| >= 6
  {
    t[..|t| - 6]
  }

  function MinutesField(t: string): string
    requires |t| >= 6
  {
    t[|t| - 5..|t| - 3]
  }

  function SecondsField(t: string): string
    requires |t| >= 6
  {
    t[|t| - 2..]
  }

  /** A padded number below 100 takes exactly two digits and reads back as
      itself. */
  lemma Pad2Reads(n: nat)
    ensures AllDigits(Pad2(n)) && |Pad2(n)| >= 2 && DigitsValue(Pad2(n)) == n
    ensures n < 100 ==> |Pad2(n)| == 2
  {
    NatDigitsValue(n);
    ZeroPadValue(NatDigits(n), 2);
    if n < 100 {
      assert Pow10(2) == 100;
      NatDigitsLength(n, 2);
    }
  }

  /** The three fields of a time string whose minutes and seconds take two
      characters each. */
  lemma FieldsOf(h: string, m: string, z: string)
    requires |m| == 2 && |z| == 2
    ensures var t := h + ":" + m + ":" + z;
      && |t| == |h| + 6 && t[|t| - 6] == ':' && t[|t| - 3] == ':'
      && HoursField(t) == h && MinutesField(t) == m && SecondsField(t) == z
  {
    var t := h + ":" + m + ":" + z;
    assert t[..|t| - 6] == h;
    assert t[|t| - 5..|t| - 3] == m;
    assert t[|t| - 2..] == z;
  }

  /** Reading a time string back: three colon-separated decimal fields, the
      minutes and the seconds two digits below 60 and the hours at least two
      digits, which add up to the whole seconds of the duration. */
  lemma TimestringReadsBack(secs: real)
    requires secs >= 0.0
    ensures var t := SecsToTimestring(secs);
      && |t| >= 8 && t[|t| - 6] == ':' && t[|t| - 3] == ':'
      && AllDigits(HoursField(t)) && |HoursField(t)| >= 2
      && AllDigits(MinutesField(t)) && AllDigits(SecondsField(t))
      && DigitsValue(MinutesField(t)) < 60 && DigitsValue(SecondsField(t)) < 60
      && DigitsValue(HoursField(t)) * 3600 + DigitsValue(MinutesField(t)) * 60 + DigitsValue(SecondsField(t))
         == secs.Floor
  {
    var n: nat := secs.Floor;
    ClockArithmetic(n);
    Pad2Reads(Hours(n));
    Pad2Reads(Minutes(n));
    Pad2Reads(Seconds(n));
    FieldsOf(Pad2(Hours(n)), Pad2(Minutes(n)), Pad2(Seconds(n)));
  }
}

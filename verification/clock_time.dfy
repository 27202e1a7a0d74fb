/** The target time of a round: its generation on the five-minute grid, its
    canonical `H:MM` text, and the parse that reads that text back. */
module ClockTime {
  import opened Wrappers
  import Digits

  /** A clock reading. Hours and minutes are never negative in the app. */
  datatype Time = Time(hour: nat, minute: nat)

  /** The reading shown before the first round: `{hour: 0, minute: 0}`. */
  const Initial: Time := Time(0, 0)

  /** The readings the generator can produce: hour 1..12, minute a multiple
      of five in 0..55. */
  predicate OnGrid(t: Time) {
    1 <= t.hour <= 12 && t.minute <= 55 && t.minute % 5 == 0
  }

  /** `Math.floor(u * 12)` for a draw `u` of `Math.random()` in [0, 1). */
  function RandomIndex(u: real): (i: nat)
    requires 0.0 <= u < 1.0
    ensures i < 12
    ensures i as real <= u * 12.0 < i as real + 1.0
  {
    (u * 12.0).Floor
  }

  /** `randomTime5MinStep` with its two draws already turned into indices:
      hour `i + 1`, minute `5 * j`. */
  function RandomTime5MinStep(i: nat, j: nat): (t: Time)
    requires i < 12 && j < 12
    ensures OnGrid(t)
    ensures t.hour - 1 == i && t.minute / 5 == j
  {
    Time(i + 1, j * 5)
  }

  /** The generator is a bijection between the 144 index pairs and the grid:
      every grid reading comes from exactly one pair, so uniform indices give
      a uniform reading. */
  lemma GeneratorIsBijection(t: Time, i: nat, j: nat)
    requires i < 12 && j < 12
    ensures RandomTime5MinStep(i, j) == t <==> OnGrid(t) && t.hour == i + 1 && t.minute == 5 * j
  {}

  lemma {:induction false} GridReadingIsGenerated(t: Time)
    requires OnGrid(t)
    ensures t.hour - 1 < 12 && t.minute / 5 < 12
    ensures RandomTime5MinStep(t.hour - 1, t.minute / 5) == t
  {
    assert t.minute == 5 * (t.minute / 5);
  }

  /** `formatTime`: the unpadded hour, a colon, then the minute padded to two
      digits. */
  function FormatTime(t: Time): (s: string)
    ensures |s| >= 4
  {
    Digits.NatToString(t.hour) + ":" + Digits.Pad2(t.minute)
  }

  /** The text matches `\d{1,2}:\d{2}` for hours 1..12 and minutes 0..59:
      a canonical hour, a colon, and exactly two digits. */
  lemma FormatTimeShape(t: Time)
    requires t.minute <= 99
    ensures var s := FormatTime(t);
      && s[|s| - 3] == ':' && Digits.AllDigits(s[|s| - 2..])
      && Digits.IsCanonical(s[..|s| - 3]) && s[..|s| - 3] == Digits.NatToString(t.hour)
      && (1 <= t.hour <= 12 ==> 4 <= |s| <= 5)
  {
    var h, m := Digits.NatToString(t.hour), Digits.Pad2(t.minute);
    var s := FormatTime(t);
    assert s == h + ":" + m && |m| == 2;
    assert s[..|s| - 3] == h;
    assert s[|s| - 2..] == m;
  }

  /** The first position of `c` in `s` at or after `from`. */
  function IndexOf(s: string, c: char, from: nat): (k: Option<nat>)
    requires from <= |s|
    ensures k.Some? ==> from <= k.value < |s| && s[k.value] == c
    ensures k.Some? ==> forall i :: from <= i < k.value ==> s[i] != c
    ensures k.None? ==> forall i :: from <= i < |s| ==> s[i] != c
    decreases |s| - from
  {
    if from == |s| then None
    else if s[from] == c then Some(from)
    else IndexOf(s, c, from + 1)
  }

  /** Reads `H:MM` back: digits, a colon, exactly two digits. The app never
      parses a reading; this is the model's reference parser, against which
      `FormatTime` is shown to be invertible. */
  function ParseTime(s: string): (r: Option<Time>)
  {
    match IndexOf(s, ':', 0)
    case None => None
    case Some(k) =>
      var h := s[..k];
      var m := s[k + 1..];
      if |h| >= 1 && Digits.AllDigits(h) && |m| == 2 && Digits.AllDigits(m)
      then Some(Time(Digits.DigitsValue(h), Digits.DigitsValue(m)))
      else None
  }

  /** The colon that follows a run of digits is the first one. */
  lemma IndexOfAfterDigits(h: string, m: string)
    requires Digits.AllDigits(h)
    ensures IndexOf(h + ":" + m, ':', 0) == Some(|h|)
  {
    var s := h + ":" + m;
    var k := IndexOf(s, ':', 0);
    assert s[|h|] == ':';
    assert forall i :: 0 <= i < |h| ==> s[i] == h[i] && s[i] != ':';
    if k.Some? {
      assert !(k.value < |h|) && !(k.value > |h|);
    }
  }

  /** How `ParseTime` reads digits, a colon and two digits. */
  lemma ParseTimeOfParts(h: string, m: string)
    requires |h| >= 1 && Digits.AllDigits(h) && |m| == 2 && Digits.AllDigits(m)
    ensures ParseTime(h + ":" + m) == Some(Time(Digits.DigitsValue(h), Digits.DigitsValue(m)))
  {
    var s := h + ":" + m;
    IndexOfAfterDigits(h, m);
    assert s[..|h|] == h && s[|h| + 1..] == m;
  }

  /** A text that parses is digits, a colon and two digits. */
  lemma ParsedTextParts(s: string, t: Time) returns (h: string, m: string)
    requires ParseTime(s) == Some(t)
    ensures s == h + ":" + m && |h| >= 1 && Digits.AllDigits(h) && |m| == 2 && Digits.AllDigits(m)
    ensures t == Time(Digits.DigitsValue(h), Digits.DigitsValue(m))
  {
    var k := IndexOf(s, ':', 0).value;
    h, m := s[..k], s[k + 1..];
    assert s == h + ":" + m;
  }

  /** Formatting then parsing gives the reading back, for every minute that
      pads to two digits. */
  lemma {:induction false} FormatParseRoundTrip(t: Time)
    requires t.minute <= 99
    ensures ParseTime(FormatTime(t)) == Some(t)
  {
    var hs := Digits.NatToString(t.hour);
    ParseTimeOfParts(hs, Digits.Pad2(t.minute));
    Digits.NatToStringRoundTrip(t.hour);
  }

  /** Parsing then formatting gives the text back when its hour has no
      leading zero: the canonical texts are exactly the images of
      `FormatTime`. */
  lemma {:induction false} ParseFormatRoundTrip(s: string, t: Time)
    requires ParseTime(s) == Some(t)
    requires !(|s| >= 2 && s[0] == '0' && s[1] != ':')
    ensures FormatTime(t) == s
  {
    var h, m := ParsedTextParts(s, t);
    assert |h| > 1 ==> h[0] == s[0] && h[1] == s[1] && s[1] != ':';
    assert Digits.IsCanonical(h);
    Digits.CanonicalRoundTrip(h);
    Digits.Pad2Inverse(m);
  }

  /** Distinct readings (with minutes below 100) have distinct texts. */
  lemma FormatTimeInjective(t1: Time, t2: Time)
    requires t1.minute <= 99 && t2.minute <= 99
    requires FormatTime(t1) == FormatTime(t2)
    ensures t1 == t2
  {
    FormatParseRoundTrip(t1);
    FormatParseRoundTrip(t2);
  }

  /** The initial reading has hour 0, which is off the grid; it formats as "0:00". */
  lemma InitialIsOffGrid()
    ensures Initial.hour == 0 && !OnGrid(Initial)
    ensures FormatTime(Initial) == "0:00"
  {
    assert Digits.NatToString(0) == "0";
  }
}

/**
  The "MM:SS" text the timer shows in the middle of its dial: the minutes
  `floor(n / 60)` and the seconds `n % 60`, each written in decimal and padded
  on the left with '0' to at least two characters, joined by ':'.

  Beside the formatter stands an independent reader of "MM:SS" text, and the
  lemmas at the end prove that reading the formatted text gives the number back.
 */
module TimeFormat {

  import opened Wrappers

  predicate IsDigit(c: char) {
    '0' <= c <= '9'
  }

  predicate AllDigits(s: string) {
    forall i :: 0 <= i < |s| ==> IsDigit(s[i])
  }

  function DigitChar(d: nat): (c: char)
    requires d < 10
    ensures IsDigit(c) && c as int - '0' as int == d
  {
    ('0' as int + d) as char
  }

  function DigitValue(c: char): nat
    requires IsDigit(c)
  {
    c as int - '0' as int
  }

  /** The value of a string of decimal digits, most significant digit first. */
  function DecimalValue(s: string): nat
    requires AllDigits(s)
  {
    if |s| == 0 then 0 else DecimalValue(s[..|s| - 1]) * 10 + DigitValue(s[|s| - 1])
  }

  /** The shortest decimal notation of `n`, as JavaScript's `Number.toString()` gives it for a non-negative integer. */
  function NatToString(n: nat): (r: string)
    ensures 1 <= |r| && AllDigits(r)
    ensures |r| > 1 ==> r[0] != '0'
    decreases n
  {
    if n < 10 then [DigitChar(n)] else NatToString(n / 10) + [DigitChar(n % 10)]
  }

  /** `n` copies of `c`. */
  function Repeat(c: char, n: nat): (r: string)
    ensures |r| == n
  {
    if n == 0 then [] else Repeat(c, n - 1) + [c]
  }

  /** JavaScript's `s.padStart(width, fill)` for a one-character `fill`. */
  function PadStart(s: string, width: nat, fill: char): (r: string)
    ensures |s| >= width ==> r == s
    ensures |s| < width ==> r == Repeat(fill, width - |s|) + s
    decreases width - |s|
  {
    if |s| >= width then s else PadStart([fill] + s, width, fill)
  }

  /** One half of the dial's text, `n.toString().padStart(2, '0')`: the digits of `n`, at least two of them. */
  function TwoDigits(n: nat): (r: string)
    ensures AllDigits(r) && DecimalValue(r) == n
    ensures |r| >= 2 && (|r| == 2 <==> n < 100)
  {
    DecimalOfNatToString(n);
    NatToStringLength(n);
    ZeroPaddedValue(NatToString(n), 2);
    PadStart(NatToString(n), 2, '0')
  }

  /**
    `formatTime` of ClockTimer.tsx for a non-negative whole number of seconds:
    at least two digits holding the minutes, ':', then exactly two digits
    holding the seconds within the minute.
   */
  function FormatTime(seconds: nat): (r: string)
    ensures |r| >= 5 && r[|r| - 3] == ':'
    ensures AllDigits(r[..|r| - 3]) && DecimalValue(r[..|r| - 3]) == seconds / 60
    ensures AllDigits(r[|r| - 2..]) && DecimalValue(r[|r| - 2..]) == seconds % 60
  {
    JoinedParts(TwoDigits(seconds / 60), TwoDigits(seconds % 60));
    TwoDigits(seconds / 60) + ":" + TwoDigits(seconds % 60)
  }

  /**
    Reads "M...M:SS": at least two minute digits, a colon, exactly two second
    digits whose value is below 60. Anything else is None.
   */
  function ParseTime(s: string): (r: Option<nat>)
    ensures r.Some? ==> |s| >= 5 && s[|s| - 3] == ':'
  {
    if |s| < 5 || s[|s| - 3] != ':' then None
    else
      var minutes, seconds := s[..|s| - 3], s[|s| - 2..];
      if AllDigits(minutes) && AllDigits(seconds) && DecimalValue(seconds) < 60
      then Some(DecimalValue(minutes) * 60 + DecimalValue(seconds))
      else None
  }

  lemma {:induction false} DecimalOfNatToString(n: nat)
    ensures DecimalValue(NatToString(n)) == n
    decreases n
  {
    if n >= 10 {
      DecimalOfNatToString(n / 10);
      var r := NatToString(n);
      assert r[..|r| - 1] == NatToString(n / 10);
    }
  }

  lemma {:induction false} NatToStringLength(n: nat)
    ensures |NatToString(n)| == 1 <==> n < 10
    ensures |NatToString(n)| <= 2 <==> n < 100
    decreases n
  {
    if n >= 10 {
      NatToStringLength(n / 10);
    }
  }

  /** A leading '0' does not change a decimal value. */
  lemma {:induction false} LeadingZero(s: string)
    requires AllDigits(s)
    ensures AllDigits(['0'] + s) && DecimalValue(['0'] + s) == DecimalValue(s)
    decreases |s|
  {
    var t := ['0'] + s;
    if |s| > 0 {
      LeadingZero(s[..|s| - 1]);
      assert t[..|t| - 1] == ['0'] + s[..|s| - 1];
    } else {
      assert t[..|t| - 1] == [];
    }
  }

  /** Padding with '0' keeps a string of digits and its value. */
  lemma {:induction false} ZeroPaddedValue(s: string, width: nat)
    requires AllDigits(s)
    ensures AllDigits(PadStart(s, width, '0'))
    ensures DecimalValue(PadStart(s, width, '0')) == DecimalValue(s)
    decreases width - |s|
  {
    if |s| < width {
      LeadingZero(s);
      ZeroPaddedValue(['0'] + s, width);
    }
  }

  /** Reading the formatted time gives back the number of seconds, for every number of seconds. */
  lemma FormatTimeRoundTrip(n: nat)
    ensures ParseTime(FormatTime(n)) == Some(n)
  {
    ParseJoined(TwoDigits(n / 60), TwoDigits(n % 60));
  }

  lemma ParseJoined(m: string, s: string)
    requires AllDigits(m) && |m| >= 2
    requires AllDigits(s) && |s| == 2 && DecimalValue(s) < 60
    ensures ParseTime(m + ":" + s) == Some(DecimalValue(m) * 60 + DecimalValue(s))
  {
    JoinedParts(m, s);
  }

  lemma JoinedParts(m: string, s: string)
    requires |s| == 2
    ensures var r := m + ":" + s;
      |r| == |m| + 3 && r[..|r| - 3] == m && r[|r| - 3] == ':' && r[|r| - 2..] == s
  {
  }

  /** The text is exactly five characters long when, and only when, fewer than 100 minutes are shown. */
  lemma FormatTimeLength(n: nat)
    ensures |FormatTime(n)| == 5 <==> n < 6000
  {
    var m, s := TwoDigits(n / 60), TwoDigits(n % 60);
    assert |FormatTime(n)| == |m| + 3;
  }

  lemma TwoDigitsOfDigit(d: nat)
    requires d < 10
    ensures TwoDigits(d) == ['0', DigitChar(d)]
  {
    assert NatToString(d) == [DigitChar(d)];
    assert PadStart([DigitChar(d)], 2, '0') == PadStart(['0', DigitChar(d)], 2, '0');
  }

  /** The text for fewer than ten minutes and a seconds value below ten is "0m:0s". */
  lemma FormatTimeOfDigits(n: nat, m: nat, s: nat)
    requires m < 10 && s < 10 && n == m * 60 + s
    ensures FormatTime(n) == ['0', DigitChar(m), ':', '0', DigitChar(s)]
  {
    assert n / 60 == m && n % 60 == s;
    TwoDigitsOfDigit(m);
    TwoDigitsOfDigit(s);
  }

  lemma FormatTime65()
    ensures FormatTime(65) == "01:05"
  {
    FormatTimeOfDigits(65, 1, 5);
  }

  lemma FormatTime0()
    ensures FormatTime(0) == "00:00"
  {
    FormatTimeOfDigits(0, 0, 0);
  }

  /** Two decimal digits are their own padding. */
  lemma TwoDigitsOfTwo(n: nat)
    requires 10 <= n < 100
    ensures TwoDigits(n) == [DigitChar(n / 10), DigitChar(n % 10)]
  {
    assert NatToString(n / 10) == [DigitChar(n / 10)];
    assert NatToString(n) == [DigitChar(n / 10), DigitChar(n % 10)];
  }

  lemma FormatTime3599()
    ensures FormatTime(3599) == "59:59"
  {
    TwoDigitsOfTwo(59);
    assert 3599 / 60 == 59 && 3599 % 60 == 59;
  }

  lemma FormatTime10()
    ensures FormatTime(10) == "00:10"
  {
    TwoDigitsOfDigit(0);
    TwoDigitsOfTwo(10);
    assert 10 / 60 == 0 && 10 % 60 == 10;
  }
}

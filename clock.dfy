/**
 * The elapsed-time label of the score screens (`_format_elapsed` in
 * src/main.py): whole seconds as MM:SS, or HH:MM:SS from one hour on, every
 * field zero-padded to two digits.
 */
module ElapsedTimes {
  import opened Common

  /** Python's `int()` on a float: truncation toward zero. */
  function Truncate(x: real): (n: int)
    ensures Abs(n) as real <= (if x >= 0.0 then x else -x) < Abs(n) as real + 1.0
    ensures x >= 0.0 ==> n >= 0
    ensures x <= 0.0 ==> n <= 0
  {
    if x >= 0.0 then x.Floor else -((-x).Floor)
  }

  function DigitChar(d: int): char
    requires 0 <= d < 10
  {
    "0123456789"[d]
  }

  predicate IsDigit(c: char)
  {
    '0' <= c <= '9'
  }

  function DigitValue(c: char): (d: int)
    requires IsDigit(c)
    ensures 0 <= d < 10
  {
    (c as int) - ('0' as int)
  }

  /** Decimal digits of n, with no leading zero (a lone "0" for zero). */
  function Decimal(n: nat): (s: string)
    ensures 1 <= |s| && forall i :: 0 <= i < |s| ==> IsDigit(s[i])
    ensures n < 10 <==> |s| == 1
    decreases n
  {
    if n < 10 then [DigitChar(n)] else Decimal(n / 10) + [DigitChar(n % 10)]
  }

  /** The number a string of digits denotes. */
  function DecimalValue(s: string): (n: nat)
    requires forall i :: 0 <= i < |s| ==> IsDigit(s[i])
  {
    if s == [] then 0 else DecimalValue(s[..|s| - 1]) * 10 + DigitValue(s[|s| - 1])
  }

  lemma {:induction false} DecimalRoundTrip(n: nat)
    ensures DecimalValue(Decimal(n)) == n
    decreases n
  {
    var s := Decimal(n);
    if n < 10 {
      assert DigitValue(DigitChar(n)) == n;
    } else {
      DecimalRoundTrip(n / 10);
      assert s[..|s| - 1] == Decimal(n / 10);
      assert DigitValue(DigitChar(n % 10)) == n % 10;
    }
  }

  /** `{n:02d}` for n >= 0: the decimal digits, padded with a leading zero to two characters. */
  function Pad2(n: nat): (s: string)
    ensures |s| >= 2 && forall i :: 0 <= i < |s| ==> IsDigit(s[i])
    ensures n < 100 ==> |s| == 2
    ensures DecimalValue(s) == n
  {
    DecimalRoundTrip(n);
    if n < 10 then
      var s := "0" + Decimal(n);
      assert s[..|s| - 1] == "0";
      s
    else
      assert n < 100 ==> |Decimal(n / 10)| == 1;
      Decimal(n)
  }

  /** The hours, minutes and seconds of t seconds, by Python's floor divmod. */
  function Split(t: int): (hms: (int, nat, nat))
    ensures hms.1 < 60 && hms.2 < 60
    ensures hms.0 * 3600 + hms.1 * 60 + hms.2 == t
    ensures t >= 0 ==> hms.0 >= 0
    ensures hms.0 > 0 <==> t >= 3600
  {
    var m, s := t / 60, t % 60;
    var h, m' := m / 60, m % 60;
    (h, m', s)
  }

  /**
   * _format_elapsed: the input (0 when missing) truncated to whole seconds,
   * then HH:MM:SS when there is at least one hour, else MM:SS.
   */
  function FormatElapsed(seconds: Option<real>): (r: string)
    ensures var t := Truncate(if seconds.Some? then seconds.value else 0.0);
      && (t < 3600 ==> |r| == 5 && r[2] == ':')
      && (t >= 3600 ==> |r| >= 8 && r[|r| - 3] == ':' && r[|r| - 6] == ':')
  {
    var t := Truncate(if seconds.Some? then seconds.value else 0.0);
    var hms := Split(t);
    var h, m, s := hms.0, hms.1, hms.2;
    if h > 0 then Pad2(h) + ":" + Pad2(m) + ":" + Pad2(s)
    else Pad2(m) + ":" + Pad2(s)
  }

  /** Reads a label back: the last field is seconds, the one before minutes, any before that hours. */
  function ParseElapsed(r: string): int
  {
    if |r| >= 8 && AllDigits(r[..|r| - 6]) && AllDigits(r[|r| - 5..|r| - 3]) && AllDigits(r[|r| - 2..]) then
      DecimalValue(r[..|r| - 6]) * 3600 + DecimalValue(r[|r| - 5..|r| - 3]) * 60 + DecimalValue(r[|r| - 2..])
    else if |r| == 5 && AllDigits(r[..2]) && AllDigits(r[3..]) then
      DecimalValue(r[..2]) * 60 + DecimalValue(r[3..])
    else -1
  }

  predicate AllDigits(s: string)
  {
    forall i :: 0 <= i < |s| ==> IsDigit(s[i])
  }

  /** The label of a non-negative time reads back as the whole seconds it shows. */
  lemma FormatRoundTrip(seconds: real)
    requires seconds >= 0.0
    ensures ParseElapsed(FormatElapsed(Some(seconds))) == Truncate(seconds)
  {
    var t := Truncate(seconds);
    var hms := Split(t);
    var h, m, s := hms.0, hms.1, hms.2;
    var r := FormatElapsed(Some(seconds));
    if h > 0 {
      var hs := Pad2(h);
      assert r == hs + ":" + Pad2(m) + ":" + Pad2(s);
      assert r[..|r| - 6] == hs;
      assert r[|r| - 5..|r| - 3] == Pad2(m);
      assert r[|r| - 2..] == Pad2(s);
    } else {
      assert r == Pad2(m) + ":" + Pad2(s);
      assert r[..2] == Pad2(m);
      assert r[3..] == Pad2(s);
    }
  }
}

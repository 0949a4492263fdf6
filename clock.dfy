/** The elapsed-time text of the scoreboard: whole minutes and the remaining
    seconds, each written in decimal and left-padded with '0' to two
    characters, joined by ':'. */
module Clock {

  import opened Optional

  function Digit(d: nat): (c: char)
    requires d < 10
    ensures '0' <= c <= '9' && (c as int) - ('0' as int) == d
  {
    (('0' as int) + d) as char
  }

  predicate IsDigit(c: char)
  {
    '0' <= c <= '9'
  }

  predicate AllDigits(s: string)
  {
    forall i :: 0 <= i < |s| ==> IsDigit(s[i])
  }

  /** Decimal text of a non-negative integer, without leading zeros
      (`NoLeadingZero`), the way a number prints itself. */
  function DecimalText(n: nat): (r: string)
    ensures 1 <= |r| && AllDigits(r)
    ensures (|r| == 1) == (n < 10)
    ensures n < 100 ==> |r| <= 2
    decreases n
  {
    if n < 10 then [Digit(n)] else DecimalText(n / 10) + [Digit(n % 10)]
  }

  /** Value of a string of decimal digits, most significant first. */
  function DecimalValue(s: string): nat
    requires AllDigits(s)
  {
    if s == [] then 0
    else 10 * DecimalValue(s[..|s| - 1]) + ((s[|s| - 1] as int) - ('0' as int))
  }

  /** Left-pads `s` with `fill` up to `width` characters; a longer `s` is kept whole. */
  function PadStart(s: string, width: nat, fill: char): (r: string)
    ensures |r| == if |s| < width then width else |s|
    ensures r[|r| - |s|..] == s
    ensures forall i :: 0 <= i < |r| - |s| ==> r[i] == fill
  {
    if |s| < width then seq(width - |s|, _ => fill) + s else s
  }

  /** One field of the timer text: `n` in decimal, left-padded with '0' to two
      places. It keeps the value of `n`, and is two characters below 100. */
  function Field(n: nat): (r: string)
    ensures AllDigits(r) && DecimalValue(r) == n
    ensures n < 100 ==> |r| == 2
  {
    PaddedField(n);
    PadStart(DecimalText(n), 2, '0')
  }

  /** The timer text for `t` elapsed seconds. */
  function FormatTime(t: nat): string
  {
    Field(t / 60) + ":" + Field(t % 60)
  }

  /** Reads a timer text back: the digits before the final ':' are minutes, the
      two digits after it are seconds. */
  function ParseTime(s: string): Option<nat>
  {
    if |s| < 3 || s[|s| - 3] != ':' || !AllDigits(s[..|s| - 3]) || !AllDigits(s[|s| - 2..]) then None
    else Some(60 * DecimalValue(s[..|s| - 3]) + DecimalValue(s[|s| - 2..]))
  }

  /** Reading back the decimal text of `n` gives `n`. */
  lemma {:induction false} DecimalRoundTrip(n: nat)
    ensures DecimalValue(DecimalText(n)) == n
    decreases n
  {
    var r := DecimalText(n);
    if n >= 10 {
      DecimalRoundTrip(n / 10);
      assert r[..|r| - 1] == DecimalText(n / 10);
    }
  }

  /** A leading '0' does not change the value of a digit string. */
  lemma {:induction false} LeadingZero(s: string)
    requires AllDigits(s)
    ensures AllDigits(['0'] + s) && DecimalValue(['0'] + s) == DecimalValue(s)
    decreases |s|
  {
    if s != [] {
      var init := s[..|s| - 1];
      LeadingZero(init);
      assert (['0'] + s)[..|s|] == ['0'] + init;
    }
  }

  /** A number's decimal text padded to two places is all digits, keeps the
      number's value, and is exactly two characters for a number below 100. */
  lemma PaddedField(n: nat)
    ensures var p := PadStart(DecimalText(n), 2, '0');
      AllDigits(p) && DecimalValue(p) == n && (n < 100 ==> |p| == 2)
  {
    DecimalRoundTrip(n);
    var d := DecimalText(n);
    if |d| < 2 {
      assert PadStart(d, 2, '0') == ['0'] + d;
      LeadingZero(d);
    }
  }

  /** Reading back a minutes field with value `vm`, a ':' and a two-digit
      seconds field with value `vs`. */
  lemma ParseJoined(mm: string, ss: string, vm: nat, vs: nat)
    requires AllDigits(mm) && AllDigits(ss) && |ss| == 2
    requires DecimalValue(mm) == vm && DecimalValue(ss) == vs
    ensures ParseTime(mm + ":" + ss) == Some(60 * vm + vs)
    ensures var r := mm + ":" + ss; r[|r| - 2..] == ss
  {
    var r := mm + ":" + ss;
    assert r[..|r| - 3] == mm && r[|r| - 2..] == ss && r[|r| - 3] == ':';
  }

  /** Minutes and a seconds count below 60, written as fields and joined,
      read back as the seconds they stand for. */
  lemma JoinedRoundTrip(m: nat, sec: nat)
    requires sec < 60
    ensures ParseTime(Field(m) + ":" + Field(sec)) == Some(60 * m + sec)
  {
    ParseJoined(Field(m), Field(sec), m, sec);
  }

  /** The timer text reads back as the elapsed seconds it was made from, and
      its seconds field is below 60. */
  lemma FormatTimeRoundTrip(t: nat)
    ensures ParseTime(FormatTime(t)) == Some(t)
    ensures var r := FormatTime(t); AllDigits(r[|r| - 2..]) && DecimalValue(r[|r| - 2..]) < 60
  {
    JoinedRoundTrip(t / 60, t % 60);
    ParseJoined(Field(t / 60), Field(t % 60), t / 60, t % 60);
  }

  /** A field is two characters exactly when its number is below 100. */
  lemma FieldWidth(n: nat)
    ensures |Field(n)| == 2 <==> n < 100
  {
    if n >= 100 {
      DecimalTextLong(n);
    }
  }

  /** A number's decimal text has at least three digits from 100 on. */
  lemma {:induction false} DecimalTextLong(n: nat)
    requires n >= 100
    ensures |DecimalText(n)| >= 3
  {
    assert DecimalText(n) == DecimalText(n / 10) + [Digit(n % 10)];
    assert |DecimalText(n / 10)| >= 2;
  }

  /** Fewer than 100 whole minutes have elapsed exactly when fewer than 6000 seconds have. */
  lemma MinutesBelow(t: nat)
    ensures t / 60 < 100 <==> t < 6000
  {
    assert 60 * (t / 60) + t % 60 == t && 0 <= t % 60 < 60;
  }

  /** The timer text is five characters long exactly while fewer than 100
      minutes have elapsed. */
  lemma FormatTimeWidth(t: nat)
    ensures |FormatTime(t)| == 5 <==> t < 6000
  {
    JoinedWidth(t / 60, t % 60);
    MinutesBelow(t);
  }

  /** Joined fields are five characters long exactly when the minutes are below 100. */
  lemma JoinedWidth(m: nat, sec: nat)
    requires sec < 60
    ensures |Field(m) + ":" + Field(sec)| == 5 <==> m < 100
  {
    FieldWidth(m);
    var mm, ss := Field(m), Field(sec);
    assert |ss| == 2;
    assert |mm + ":" + ss| == |mm| + 3;
  }

  /** Decimal text starts with '0' only for zero itself: no leading zeros. */
  lemma {:induction false} NoLeadingZero(n: nat)
    ensures (DecimalText(n)[0] == '0') == (n == 0)
    decreases n
  {
    if n >= 10 {
      NoLeadingZero(n / 10);
      assert DecimalText(n)[0] == DecimalText(n / 10)[0];
    }
  }
}

/**
 * The text that paint, count_down and stop_painting write into the window:
 * Python's str() of a non-negative int, the two-digit zero padding, the
 * "mm:ss" countdown, and the action button's three kinds of label.  Each
 * formatter has a parser beside it, and a round-trip lemma shows that the
 * text carries exactly the value it was made from.
 */
module Display {
  import opened Options

  predicate IsDigit(c: char) {
    '0' <= c <= '9'
  }

  predicate IsDigits(s: string) {
    forall k :: 0 <= k < |s| ==> IsDigit(s[k])
  }

  function DigitChar(d: nat): (c: char)
    requires d < 10
    ensures IsDigit(c)
  {
    ('0' as int + d) as char
  }

  function DigitValue(c: char): (d: nat)
    requires IsDigit(c)
    ensures d < 10
  {
    c as int - '0' as int
  }

  /** str(n) for n >= 0: the decimal digits of n, most significant first, no leading zero. */
  function NatToString(n: nat): string
    decreases n
  {
    if n < 10 then [DigitChar(n)] else NatToString(n / 10) + [DigitChar(n % 10)]
  }

  /** str(n) is a non-empty string of digits without a leading zero. */
  lemma {:induction false} NatToStringDigits(n: nat)
    ensures |NatToString(n)| >= 1 && IsDigits(NatToString(n))
    ensures |NatToString(n)| > 1 ==> NatToString(n)[0] != '0'
    decreases n
  {
    if n >= 10 {
      NatToStringDigits(n / 10);
      var p := NatToString(n / 10);
      assert |p| == 1 ==> p == [DigitChar(n / 10)];
    }
  }

  /** The number a string of decimal digits denotes (the parsing partner of NatToString). */
  function DigitsValue(s: string): nat
    requires IsDigits(s)
    decreases |s|
  {
    if s == [] then 0 else DigitsValue(s[..|s| - 1]) * 10 + DigitValue(s[|s| - 1])
  }

  lemma {:induction false} NatToStringRoundTrip(n: nat)
    ensures IsDigits(NatToString(n)) && DigitsValue(NatToString(n)) == n
    decreases n
  {
    NatToStringDigits(n);
    var s := NatToString(n);
    if n < 10 {
      assert s[..|s| - 1] == [];
    } else {
      assert s[..|s| - 1] == NatToString(n / 10);
      NatToStringRoundTrip(n / 10);
    }
  }

  /** How many characters str(n) has: one below 10, two below 100, at least three from 100 on. */
  lemma {:induction false} NatToStringLength(n: nat)
    ensures n < 10 ==> |NatToString(n)| == 1
    ensures 10 <= n < 100 ==> |NatToString(n)| == 2
    ensures 100 <= n ==> |NatToString(n)| >= 3
    decreases n
  {
    if n >= 10 {
      NatToStringLength(n / 10);
    }
  }

  /** count_down's padding: a "0" in front of a value below 10, nothing otherwise. */
  function Pad(n: nat): string {
    if n < 10 then "0" + NatToString(n) else NatToString(n)
  }

  /** A padded field is at least two digits, exactly two below 100, and reads back as n. */
  lemma PadFacts(n: nat)
    ensures IsDigits(Pad(n)) && DigitsValue(Pad(n)) == n
    ensures |Pad(n)| >= 2
    ensures n < 100 ==> |Pad(n)| == 2
    ensures n >= 100 ==> |Pad(n)| == |NatToString(n)| >= 3
  {
    NatToStringRoundTrip(n);
    NatToStringLength(n);
    if n < 10 {
      var p := Pad(n);
      assert p[..|p| - 1] == "0";
      assert DigitsValue("0") == DigitsValue("0"[..0]) * 10 + 0;
    }
  }

  /** The countdown text for `current` seconds remaining: minutes, a colon, seconds. */
  function ClockText(current: nat): string {
    Pad(current / 60) + ":" + Pad(current % 60)
  }

  /** Index of the first occurrence of c in s, or |s| when there is none. */
  function IndexOf(s: string, c: char): (k: nat)
    ensures k <= |s|
    ensures forall l :: 0 <= l < k ==> s[l] != c
    ensures k < |s| ==> s[k] == c
    decreases |s|
  {
    if s == [] then 0 else if s[0] == c then 0 else 1 + IndexOf(s[1..], c)
  }

  /** Read an "m:s" text back into its minutes and seconds fields. */
  function ParseClock(s: string): Option<(nat, nat)> {
    var k := IndexOf(s, ':');
    if k < |s| && IsDigits(s[..k]) && IsDigits(s[k + 1..]) then
      Some((DigitsValue(s[..k]), DigitsValue(s[k + 1..])))
    else
      None
  }

  /**
   * The countdown text reads back as floor(current / 60) minutes and
   * current mod 60 seconds, so distinct remaining times show distinct texts.
   */
  lemma ClockTextRoundTrip(current: nat)
    ensures ParseClock(ClockText(current)) == Some((current / 60, current % 60))
  {
    var mm, ss := Pad(current / 60), Pad(current % 60);
    var t := ClockText(current);
    PadFacts(current / 60);
    PadFacts(current % 60);
    assert t == mm + ":" + ss;
    assert t[|mm|] == ':';
    assert forall l :: 0 <= l < |mm| ==> t[l] == mm[l];
    assert IndexOf(t, ':') == |mm|;
    assert t[..|mm|] == mm;
    assert t[|mm| + 1..] == ss;
  }

  /**
   * The seconds field is always exactly two characters; the minutes field is
   * two characters below 100 minutes and str(minutes) in full from 100 on.
   */
  lemma ClockTextShape(current: nat)
    ensures var t := ClockText(current);
      |t| >= 5 && t[|t| - 3] == ':' && t[|t| - 2..] == Pad(current % 60)
    ensures current / 60 < 100 ==> |ClockText(current)| == 5
    ensures current / 60 >= 100 ==> ClockText(current)[..|ClockText(current)| - 3] == NatToString(current / 60)
  {
    var mm, ss := Pad(current / 60), Pad(current % 60);
    var t := ClockText(current);
    PadFacts(current / 60);
    PadFacts(current % 60);
    assert t == mm + ":" + ss;
    assert t[|t| - 2..] == ss;
    assert t[..|t| - 3] == mm;
  }

  // ---------------------------------------------------------------------------
  // What the two widgets show

  const PaintLabel: string := "Paint"
  const GiveUpLabel: string := "Give up"
  /** The idle title "Καμβάς". */
  const IdleText: string := "\U{039A}\U{03B1}\U{03BC}\U{03B2}\U{03AC}\U{03C2}"

  /** The action button's content: "Paint", "Cancel (n)" or "Give up". */
  datatype Button = PaintButton | CancelButton(elapsed: nat) | GiveUpButton

  function ButtonText(b: Button): string {
    match b
    case PaintButton => PaintLabel
    case CancelButton(n) => "Cancel (" + NatToString(n) + ")"
    case GiveUpButton => GiveUpLabel
  }

  /** Read a button text back; None for a text no button shows. */
  function ParseButton(t: string): Option<Button> {
    if t == PaintLabel then Some(PaintButton)
    else if t == GiveUpLabel then Some(GiveUpButton)
    else if |t| >= 10 && t[..8] == "Cancel (" && t[|t| - 1] == ')' && IsDigits(t[8..|t| - 1]) then
      Some(CancelButton(DigitsValue(t[8..|t| - 1])))
    else None
  }

  /** Every button text reads back as the button it was made from, so distinct buttons read differently. */
  lemma ButtonTextRoundTrip(b: Button)
    ensures ParseButton(ButtonText(b)) == Some(b)
  {
    if b.CancelButton? {
      var digits := NatToString(b.elapsed);
      NatToStringRoundTrip(b.elapsed);
      var t := ButtonText(b);
      assert t == "Cancel (" + digits + ")";
      assert |t| >= 10 by { NatToStringDigits(b.elapsed); }
      assert |t| != |PaintLabel| && |t| != |GiveUpLabel|;
      assert t[..8] == "Cancel (";
      assert t[8..|t| - 1] == digits;
    }
  }

  /** The title label's content: the app's name while idle, the countdown while running. */
  datatype Title = Name | Clock(remaining: nat)

  function TitleText(t: Title): string {
    match t
    case Name => IdleText
    case Clock(r) => ClockText(r)
  }

  /** Read a title text back; None for a text no title shows. */
  function ParseTitle(t: string): Option<Title> {
    if t == IdleText then Some(Name)
    else match ParseClock(t)
      case Some((m, sec)) => if sec < 60 then Some(Clock(m * 60 + sec)) else None
      case None => None
  }

  /** Every title text reads back as the title it was made from. */
  lemma TitleTextRoundTrip(t: Title)
    ensures ParseTitle(TitleText(t)) == Some(t)
  {
    if t.Clock? {
      var r := t.remaining;
      ClockTextRoundTrip(r);
      var mm := Pad(r / 60);
      var text := ClockText(r);
      PadFacts(r / 60);
      assert text[|mm|] == ':';
      if |mm| < |IdleText| {
        assert text != IdleText by {
          assert IdleText[|mm|] != ':';
        }
      }
    }
  }
}

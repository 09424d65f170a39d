/** The duration input (`DurationInputComponent`): a text field showing a
    duration as `HH:MM` while the form control holds whole minutes or null.
    Typing keeps the first four digits and inserts a colon before the last
    two once there are three; leaving the field normalises the text to the
    padded `HH:MM` of the minutes it reads as. The value written to the form
    control is the second component of the result of `OnInputChange`. */
module DurationInput {
  import opened Wrappers
  import opened Text

  /** The characters the displayed text is made of. */
  predicate DisplayChar(c: char) {
    IsDigit(c) || c == ':'
  }

  predicate DisplayText(s: string) {
    forall i :: 0 <= i < |s| ==> DisplayChar(s[i])
  }

  /** JavaScript `parseInt(piece || '0', 10)` of a digit string. */
  function ReadPiece(piece: string): nat
    requires AllDigits(piece)
  {
    if piece == "" then DecimalValue("0") else DecimalValue(piece)
  }

  /** `hhmmToMinutes`: the text before the first colon counts hours, the text
      after it minutes clamped to 59; without a colon everything is hours. */
  function HhmmToMinutes(value: string): (r: nat)
    requires DisplayText(value)
    ensures ':' !in value ==> r == DecimalValue(value) * 60
  {
    if value == "" then 0
    else
      var parts := Split(value, ':');
      SplitKeeps(value, ':', DisplayChar);
      assert forall k :: 0 <= k < |parts| ==> AllDigits(parts[k]);
      SplitNoSeparator(value, ':');
      var hours := ReadPiece(parts[0]);
      var minutes := if |parts| < 2 then 0 else ReadPiece(parts[1]);
      hours * 60 + (if minutes < 59 then minutes else 59)
  }

  /** Reading `a:b` for digit strings `a` and `b`: `a` hours and `b` minutes, at most 59. */
  lemma {:induction false} ReadColonForm(a: string, b: string)
    requires AllDigits(a) && AllDigits(b) && a != ""
    ensures DisplayText(a + ":" + b)
    ensures HhmmToMinutes(a + ":" + b) == DecimalValue(a) * 60 + (if DecimalValue(b) < 59 then DecimalValue(b) else 59)
  {
    var s := a + ":" + b;
    assert forall i :: 0 <= i < |s| ==> DisplayChar(s[i]) by {
      forall i | 0 <= i < |s| ensures DisplayChar(s[i]) {
        if i < |a| { assert s[i] == a[i]; }
        else if i > |a| { assert s[i] == b[i - |a| - 1]; }
      }
    }
    DigitsExclude(a, ':');
    DigitsExclude(b, ':');
    SplitAfterPiece(a, ':', b);
    SplitNoSeparator(b, ':');
    assert Split(s, ':') == [a, b];
    if b == "" {
      assert DecimalValue(b) == 0 && DecimalValue("0") == 0;
    }
  }

  /** `minutesToHHMM`: '' for zero, else hours and minutes each padded to two digits. */
  function MinutesToHHMM(minutes: nat): (r: string)
    ensures minutes == 0 <==> r == ""
    ensures minutes > 0 ==> DisplayText(r) && HhmmToMinutes(r) == minutes
  {
    if minutes == 0 then ""
    else
      var h := PadStart2(NatToString(minutes / 60));
      var m := PadStart2(NatToString(minutes % 60));
      PadStart2Value(minutes / 60);
      PadStart2Value(minutes % 60);
      ReadColonForm(h, m);
      h + ":" + m
  }

  /** The digits of the input text, at most the first four. */
  function KeptDigits(raw: string): (r: string)
    ensures |r| == if |Digits(raw)| > 4 then 4 else |Digits(raw)|
    ensures AllDigits(r)
    ensures r == Digits(raw)[..|r|]
  {
    var digits := Digits(raw);
    if |digits| > 4 then digits[..4] else digits
  }

  /** The kept digits with a colon before the last two when there are at least three. */
  function Formatted(kept: string): (r: string)
    requires AllDigits(kept) && |kept| <= 4
    ensures DisplayText(r) && |r| <= 5
    ensures ':' in r <==> |kept| >= 3
  {
    if |kept| >= 3 then
      var r := kept[..|kept| - 2] + ":" + kept[|kept| - 2..];
      assert r[|kept| - 2] == ':';
      assert forall i :: 0 <= i < |r| ==> DisplayChar(r[i]) by {
        forall i | 0 <= i < |r| ensures DisplayChar(r[i]) {
          if i < |kept| - 2 { assert r[i] == kept[i]; }
          else if i > |kept| - 2 { assert r[i] == kept[i - 1]; }
        }
      }
      r
    else
      DigitsExclude(kept, ':');
      kept
  }

  /** The formatted text shows exactly the kept digits, in order. */
  lemma FormattedKeepsDigits(kept: string)
    requires AllDigits(kept) && |kept| <= 4
    ensures Digits(Formatted(kept)) == kept
  {
    if |kept| >= 3 {
      var a, b := kept[..|kept| - 2], kept[|kept| - 2..];
      assert kept == a + b;
      assert Digits(":") == "" by { assert ":"[1..] == ""; }
      DigitsConcat(a, ":");
      DigitsConcat(a + ":", b);
    }
  }

  /** `onInputChange`: the new display text and the value emitted to the form
      control. No digits clears the text and emits null; otherwise the text
      shows the first four digits typed, and the emitted value is the minutes
      the text reads as, or null when that is zero. */
  function OnInputChange(raw: string): (r: (string, Option<nat>))
    ensures DisplayText(r.0) && |r.0| <= 5
    ensures Digits(raw) == [] ==> r == ("", None)
    ensures ':' in r.0 <==> |KeptDigits(raw)| >= 3
    ensures r.1.None? <==> HhmmToMinutes(r.0) == 0
    ensures r.1.Some? ==> r.1.value == HhmmToMinutes(r.0)
  {
    if Digits(raw) == [] then ("", None)
    else
      var formatted := Formatted(KeptDigits(raw));
      var minutes := HhmmToMinutes(formatted);
      (formatted, if minutes > 0 then Some(minutes) else None)
  }

  /** The text shown after typing holds exactly the first four digits typed. */
  lemma OnInputChangeShowsDigits(raw: string)
    ensures Digits(OnInputChange(raw).0) == KeptDigits(raw)
  {
    if Digits(raw) != [] {
      FormattedKeepsDigits(KeptDigits(raw));
    }
  }

  /** With one or two digits the text reads as hours; with three or four the
      last two are minutes, clamped to 59. */
  lemma OnInputChangeReading(raw: string)
    requires Digits(raw) != []
    ensures var kept := KeptDigits(raw);
      var minutes := HhmmToMinutes(OnInputChange(raw).0);
      && (|kept| <= 2 ==> minutes == DecimalValue(kept) * 60)
      && (|kept| >= 3 ==>
            minutes == DecimalValue(kept[..|kept| - 2]) * 60 +
              (if DecimalValue(kept[|kept| - 2..]) < 59 then DecimalValue(kept[|kept| - 2..]) else 59))
  {
    var kept := KeptDigits(raw);
    if |kept| >= 3 {
      ReadColonForm(kept[..|kept| - 2], kept[|kept| - 2..]);
    }
  }

  /** `onBlur`: a non-empty text is replaced by the padded form of the minutes it reads as. */
  function OnBlur(display: string): (r: string)
    requires DisplayText(display)
    ensures DisplayText(r)
    ensures display == "" ==> r == ""
    ensures display != "" ==> r == MinutesToHHMM(HhmmToMinutes(display))
  {
    if display == "" then "" else MinutesToHHMM(HhmmToMinutes(display))
  }

  /** `writeValue`: null or zero shows '', anything else its padded `HH:MM`. */
  function WriteValue(value: Option<nat>): (r: string)
    ensures DisplayText(r)
    ensures r == "" <==> value.None? || value.value == 0
    ensures value.Some? && value.value > 0 ==> HhmmToMinutes(r) == value.value
  {
    match value
    case None => ""
    case Some(m) => MinutesToHHMM(m)
  }

  /** Leaving the field twice is leaving it once, and leaving it keeps the
      minutes the text reads as. */
  lemma OnBlurIdempotent(display: string)
    requires DisplayText(display)
    ensures OnBlur(OnBlur(display)) == OnBlur(display)
    ensures HhmmToMinutes(OnBlur(display)) == HhmmToMinutes(display)
  {
  }

  /** The text shown after typing and leaving the field reads as the value
      the typing emitted (zero for null). */
  lemma TypedThenBlurredAgrees(raw: string)
    ensures var (display, emitted) := OnInputChange(raw);
      HhmmToMinutes(OnBlur(display)) == emitted.GetOr(0)
  {
  }

  /** A value written into the field is already normalised. */
  lemma WrittenValueIsNormal(value: Option<nat>)
    ensures OnBlur(WriteValue(value)) == WriteValue(value)
  {
  }

  /** "45" is read as 45 hours. */
  lemma HoursOnlyExample()
    ensures OnInputChange("45") == ("45", Some(2700))
  {
    assert AllDigits("45");
    assert DecimalValue("45") == 45 by { assert "45"[..1] == "4"; assert "4"[..0] == ""; }
  }

  /** "99:99" reads as 99 hours and 59 minutes. */
  lemma NinesRead()
    ensures DisplayText("99:99") && HhmmToMinutes("99:99") == 5999
  {
    assert DecimalValue("99") == 99 by { assert "99"[..1] == "9"; assert "9"[..0] == ""; }
    ReadColonForm("99", "99");
    assert "99" + ":" + "99" == "99:99";
  }

  /** Typing "9999" keeps all four digits and shows "99:99". */
  lemma NinesShown()
    ensures KeptDigits("9999") == "9999" && Formatted("9999") == "99:99"
  {
    assert AllDigits("9999");
    assert Digits("9999") == "9999";
    assert "9999"[..2] == "99" && "9999"[2..] == "99";
    assert "99" + ":" + "99" == "99:99";
  }

  /** "9999" shows "99:99", and the minutes clamp to 59: 5999 minutes. */
  lemma ClampExample()
    ensures OnInputChange("9999") == ("99:99", Some(5999))
  {
    NinesShown();
    NinesRead();
  }

  /** The digits of "1h30". */
  lemma DigitsOfStripExample()
    ensures Digits("1h30") == "130"
  {
    assert "1h30" == "1h" + "30";
    assert "1h" == "1" + "h";
    DigitsConcat("1h", "30");
    DigitsConcat("1", "h");
    assert AllDigits("1") && AllDigits("30");
    assert Digits("h") == "" by { assert "h"[1..] == ""; }
  }

  /** Typing "1h30" keeps "130" and shows "1:30". */
  lemma StripShown()
    ensures KeptDigits("1h30") == "130" && Formatted("130") == "1:30"
  {
    DigitsOfStripExample();
    assert AllDigits("130");
    assert "130"[..1] == "1" && "130"[1..] == "30";
    assert "1" + ":" + "30" == "1:30";
  }

  /** "1:30" reads as 90 minutes. */
  lemma StripRead()
    ensures DisplayText("1:30") && HhmmToMinutes("1:30") == 90
  {
    assert DecimalValue("1") == 1 by { assert "1"[..0] == ""; }
    assert DecimalValue("30") == 30 by { assert "30"[..1] == "3"; assert "3"[..0] == ""; }
    ReadColonForm("1", "30");
    assert "1" + ":" + "30" == "1:30";
  }

  /** Non-digits are dropped: "1h30" shows "1:30", 90 minutes. */
  lemma StripExample()
    ensures OnInputChange("1h30") == ("1:30", Some(90))
  {
    StripShown();
    StripRead();
  }

  /** 90 minutes is written "01:30". */
  lemma WriteExample()
    ensures WriteValue(Some(90)) == "01:30"
  {
    assert 90 / 60 == 1 && 90 % 60 == 30;
    assert NatToString(1) == "1";
    assert NatToString(30) == "30" by { assert NatToString(3) == "3"; assert NatToString(0) == "0"; }
    assert PadStart2("1") == "01" && PadStart2("30") == "30";
    assert MinutesToHHMM(90) == "01" + ":" + "30";
  }
}

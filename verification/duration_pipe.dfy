/** The duration pipe (`DurationPipe.transform`): whole minutes rendered in
    one of three formats, for example 150 minutes as "2h 30m" (default),
    "2:30" (short) or "2 hours 30 minutes" (long). Null and zero render as
    "0m", or "0 minutes" in the long format. */
module DurationPipe {
  import opened Wrappers
  import opened Text
  import DurationInput

  datatype Format = Default | Short | Long

  /** A count in words: the number written out, a space, and its unit, singular exactly for one. */
  function Counted(n: nat, unit: string): (r: string)
    ensures ' ' !in unit ==> Split(r, ' ') == [NatToString(n), if n == 1 then unit else unit + "s"]
  {
    var word := if n == 1 then unit else unit + "s";
    DigitsExclude(NatToString(n), ' ');
    SplitAfterPiece(NatToString(n), ' ', word);
    SplitNoSeparator(word, ' ');
    NatToString(n) + " " + word
  }

  /** The short format of a positive duration: unpadded hours, a colon, two-digit minutes. */
  function ShortText(hours: nat, mins: nat): string {
    NatToString(hours) + ":" + PadStart2(NatToString(mins))
  }

  /** The long format of a positive duration. */
  function LongText(hours: nat, mins: nat): string {
    if hours > 0 && mins > 0 then Counted(hours, "hour") + " " + Counted(mins, "minute")
    else if hours > 0 then Counted(hours, "hour")
    else Counted(mins, "minute")
  }

  /** The default format of a positive duration. */
  function DefaultText(hours: nat, mins: nat): string {
    var h, m := NatToString(hours) + "h", NatToString(mins) + "m";
    if hours > 0 && mins > 0 then h + " " + m
    else if hours > 0 then h
    else m
  }

  /** `transform(minutes, format)`. */
  function Transform(minutes: Option<nat>, format: Format): (r: string)
    ensures minutes.None? || minutes.value == 0 ==> r == (if format == Long then "0 minutes" else "0m")
  {
    if minutes.None? || minutes.value == 0 then
      if format == Long then "0 minutes" else "0m"
    else
      var hours, mins := minutes.value / 60, minutes.value % 60;
      match format
      case Short => ShortText(hours, mins)
      case Long => LongText(hours, mins)
      case Default => DefaultText(hours, mins)
  }

  // ----- reading the formats back -----

  /** The minutes one piece of the default format stands for: digits followed by 'h' or 'm'. */
  function ReadDefaultPiece(p: string): Option<nat> {
    if |p| >= 2 && AllDigits(p[..|p| - 1]) then
      if p[|p| - 1] == 'h' then Some(DecimalValue(p[..|p| - 1]) * 60)
      else if p[|p| - 1] == 'm' then Some(DecimalValue(p[..|p| - 1]))
      else None
    else None
  }

  /** The sum of the pieces, or null when one does not read. */
  function ReadDefaultPieces(parts: seq<string>): Option<nat> {
    if |parts| == 0 then Some(0)
    else match (ReadDefaultPiece(parts[0]), ReadDefaultPieces(parts[1..]))
      case (Some(a), Some(b)) => Some(a + b)
      case _ => None
  }

  /** The minutes a default-format text stands for. */
  function ReadDefault(s: string): Option<nat> {
    ReadDefaultPieces(Split(s, ' '))
  }

  /** The minutes one unit word of the long format stands for. */
  function UnitMinutes(w: string): Option<nat> {
    if w == "hour" || w == "hours" then Some(60)
    else if w == "minute" || w == "minutes" then Some(1)
    else None
  }

  /** The sum of the count–unit pairs, or null when one does not read. */
  function ReadLongWords(words: seq<string>): Option<nat> {
    if |words| == 0 then Some(0)
    else if |words| >= 2 && words[0] != "" && AllDigits(words[0]) && UnitMinutes(words[1]).Some? then
      match ReadLongWords(words[2..])
      case Some(rest) => Some(DecimalValue(words[0]) * UnitMinutes(words[1]).value + rest)
      case None => None
    else None
  }

  /** The minutes a long-format text stands for. */
  function ReadLong(s: string): Option<nat> {
    ReadLongWords(Split(s, ' '))
  }

  /** A number followed by a unit word reads as the number times the unit's weight. */
  lemma ReadCountPair(digits: string, w: string, weight: nat)
    requires digits != "" && AllDigits(digits) && UnitMinutes(w) == Some(weight)
    ensures ReadLongWords([digits, w]) == Some(DecimalValue(digits) * weight)
  {
    assert [digits, w][2..] == [];
  }

  /** A rendered count reads back as itself with the unit's weight. */
  lemma ReadCounted(n: nat, unit: string, weight: nat)
    requires (unit == "hour" || unit == "minute") && UnitMinutes(unit) == Some(weight)
    ensures ReadLongWords(Split(Counted(n, unit), ' ')) == Some(n * weight)
  {
    DecimalValueOfNatToString(n);
    var word := if n == 1 then unit else unit + "s";
    assert unit + "s" == (if unit == "hour" then "hours" else "minutes");
    assert UnitMinutes(word) == Some(weight);
    ReadCountPair(NatToString(n), word, weight);
  }

  /** One rendered piece of the default format reads back, and holds no space. */
  lemma ReadPieceOf(n: nat, unit: char)
    requires unit == 'h' || unit == 'm'
    ensures ' ' !in NatToString(n) + [unit]
    ensures Split(NatToString(n) + [unit], ' ') == [NatToString(n) + [unit]]
    ensures ReadDefaultPiece(NatToString(n) + [unit]) == Some(if unit == 'h' then n * 60 else n)
  {
    var p := NatToString(n) + [unit];
    DecimalValueOfNatToString(n);
    DigitsExclude(NatToString(n), ' ');
    assert p[..|p| - 1] == NatToString(n);
    SplitNoSeparator(p, ' ');
  }

  /** A text of one piece reads as that piece. */
  lemma ReadOnePiece(p: string)
    ensures ReadDefaultPieces([p]) == ReadDefaultPiece(p)
  {
    assert [p][1..] == [];
  }

  /** Two pieces without spaces, joined by one, read back as the sum of their minutes. */
  lemma ReadJoinedPieces(a: string, b: string, x: nat, y: nat)
    requires ' ' !in a && ' ' !in b
    requires ReadDefaultPiece(a) == Some(x) && ReadDefaultPiece(b) == Some(y)
    ensures ReadDefault(a + " " + b) == Some(x + y)
  {
    SplitAtSeparator(a, ' ', b);
    SplitNoSeparator(a, ' ');
    SplitNoSeparator(b, ' ');
    var parts := Split(a + " " + b, ' ');
    assert parts == [a, b];
    assert parts[1..] == [b];
    ReadOnePiece(b);
  }

  /** Hours and minutes pieces joined by a space read back as their total. */
  lemma ReadTwoPieces(hours: nat, mins: nat)
    ensures ReadDefault((NatToString(hours) + "h") + " " + (NatToString(mins) + "m")) == Some(hours * 60 + mins)
  {
    var a, b := NatToString(hours) + "h", NatToString(mins) + "m";
    assert a == NatToString(hours) + ['h'] && b == NatToString(mins) + ['m'];
    ReadPieceOf(hours, 'h');
    ReadPieceOf(mins, 'm');
    ReadJoinedPieces(a, b, hours * 60, mins);
  }

  /** One piece on its own reads back as its minutes. */
  lemma ReadPieceAlone(n: nat, unit: char)
    requires unit == 'h' || unit == 'm'
    ensures ReadDefault(NatToString(n) + [unit]) == Some(if unit == 'h' then n * 60 else n)
  {
    var p := NatToString(n) + [unit];
    ReadPieceOf(n, unit);
    ReadOnePiece(p);
  }

  /** A positive duration's default format reads back as hours and minutes. */
  lemma DefaultTextReadsBack(hours: nat, mins: nat)
    requires hours > 0 || mins > 0
    ensures ReadDefault(DefaultText(hours, mins)) == Some(hours * 60 + mins)
  {
    if hours > 0 && mins > 0 {
      ReadTwoPieces(hours, mins);
    } else if hours > 0 {
      ReadPieceAlone(hours, 'h');
    } else {
      ReadPieceAlone(mins, 'm');
    }
  }

  /** The default format reads back as the minutes it was given. */
  lemma DefaultReadsBack(minutes: nat)
    ensures ReadDefault(Transform(Some(minutes), Default)) == Some(minutes)
  {
    if minutes == 0 {
      ReadPieceOf(0, 'm');
      assert "0m" == NatToString(0) + "m";
      assert ReadDefaultPieces(["0m"]) == Some(0) by { assert ["0m"][1..] == []; }
    } else {
      DefaultTextReadsBack(minutes / 60, minutes % 60);
    }
  }

  /** Two counted parts joined by a space read back as the sum of their weights. */
  lemma ReadTwoCounted(hours: nat, mins: nat)
    ensures ReadLongWords(Split(Counted(hours, "hour") + " " + Counted(mins, "minute"), ' ')) == Some(hours * 60 + mins)
  {
    var a, b := Counted(hours, "hour"), Counted(mins, "minute");
    SplitAtSeparator(a, ' ', b);
    var words := Split(a + " " + b, ' ');
    assert words[2..] == Split(b, ' ');
    ReadCounted(mins, "minute", 1);
    DecimalValueOfNatToString(hours);
  }

  /** The long format reads back as the minutes it was given. */
  lemma LongReadsBack(minutes: nat)
    ensures ReadLong(Transform(Some(minutes), Long)) == Some(minutes)
  {
    var hours, mins := minutes / 60, minutes % 60;
    if minutes == 0 {
      assert Transform(Some(minutes), Long) == Counted(0, "minute");
      ReadCounted(0, "minute", 1);
    } else if hours > 0 && mins > 0 {
      ReadTwoCounted(hours, mins);
    } else if hours > 0 {
      ReadCounted(hours, "hour", 60);
    } else {
      ReadCounted(mins, "minute", 1);
    }
  }

  /** The short format of a positive duration is the text the duration input
      reads back as the same minutes. */
  lemma ShortReadsBack(minutes: nat)
    requires minutes > 0
    ensures DurationInput.DisplayText(Transform(Some(minutes), Short))
    ensures DurationInput.HhmmToMinutes(Transform(Some(minutes), Short)) == minutes
  {
    DecimalValueOfNatToString(minutes / 60);
    PadStart2Value(minutes % 60);
    DurationInput.ReadColonForm(NatToString(minutes / 60), PadStart2(NatToString(minutes % 60)));
  }

  /** In the long format a unit word is singular exactly when its count is one. */
  lemma LongSingularIffOne(n: nat, unit: string)
    requires unit in {"hour", "minute"}
    ensures Split(Counted(n, unit), ' ')[1] == unit <==> n == 1
  {
    if n != 1 {
      assert |unit + "s"| != |unit|;
    }
  }

  /** The default and long formats leave out a zero component: a positive
      duration mentions hours exactly when it has a whole hour, and minutes
      exactly when it is not a whole number of hours. */
  lemma ZeroComponentOmitted(minutes: nat)
    requires minutes > 0
    ensures 'h' in Transform(Some(minutes), Default) <==> minutes / 60 > 0
    ensures 'm' in Transform(Some(minutes), Default) <==> minutes % 60 > 0
  {
    var hours, mins := minutes / 60, minutes % 60;
    DigitsExclude(NatToString(hours), 'h');
    DigitsExclude(NatToString(hours), 'm');
    DigitsExclude(NatToString(mins), 'h');
    DigitsExclude(NatToString(mins), 'm');
    var r := Transform(Some(minutes), Default);
    if hours > 0 && mins > 0 {
      assert r == NatToString(hours) + "h " + NatToString(mins) + "m";
      assert r[|NatToString(hours)|] == 'h' && r[|r| - 1] == 'm';
    } else if hours > 0 {
      assert r[|r| - 1] == 'h';
    } else {
      assert r[|r| - 1] == 'm';
    }
  }

  /** 150 minutes in each format. */
  lemma Examples()
    ensures Transform(Some(150), Default) == "2h 30m"
    ensures Transform(Some(150), Short) == "2:30"
    ensures Transform(Some(150), Long) == "2 hours 30 minutes"
  {
    assert NatToString(2) == "2" && NatToString(30) == "30";
  }
}

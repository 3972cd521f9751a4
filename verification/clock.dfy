/** The connection timer's display (src/components/EnhancedDashboard.tsx):
    `formatTime` turns a count of seconds into `HH:MM:SS`. A reader for the
    display is given as its partner: the two are inverse to each other. */
module Clock {
  import opened Wrappers
  import Decimal
  import Strings

  /** Hours, minutes and seconds of a duration. */
  datatype Hms = Hms(hours: nat, minutes: nat, seconds: nat) {
    /** Minutes and seconds below 60; the hours are not bounded. */
    predicate Valid() {
      minutes < 60 && seconds < 60
    }

    /** The duration in seconds. */
    function Total(): nat {
      hours * 3600 + minutes * 60 + seconds
    }
  }

  /** `Math.floor(s / 3600)`, `Math.floor((s % 3600) / 60)` and `s % 60`
      for a non-negative `s`, where JavaScript's and Dafny's division agree. */
  function SplitSeconds(s: nat): (r: Hms)
    ensures r.Valid() && r.Total() == s
  {
    Hms(s / 3600, (s % 3600) / 60, s % 60)
  }

  /** The decomposition is the only valid one: splitting a valid triple's
      total gives the triple back. */
  lemma SplitUnique(h: Hms)
    requires h.Valid()
    ensures SplitSeconds(h.Total()) == h
  {
    var s := h.Total();
    var r := SplitSeconds(s);
    assert h.minutes * 60 + h.seconds < 3600;
    assert s / 3600 == h.hours && s % 3600 == h.minutes * 60 + h.seconds;
  }

  /** `n.toString().padStart(2, '0')`: at least two digits, never cut. */
  function Pad2(n: nat): (r: string)
    ensures |r| >= 2
    ensures |r| == 2 <==> n < 100
    ensures |r| > 2 ==> r == Decimal.NatToString(n)
  {
    Decimal.NatToStringLength(n, 2);
    assert Decimal.Pow10(2) == 100;
    Decimal.PadStart(Decimal.NatToString(n), 2, '0')
  }

  /** The three fields padded and joined by colons. */
  function Display(h: Hms): (r: string)
    requires h.Valid()
    ensures |r| >= 8 && r[|r| - 6] == ':' && r[|r| - 3] == ':'
    ensures |r| == 8 <==> h.hours < 100
    ensures r[..|r| - 6] == Pad2(h.hours)
  {
    var a, b, c := Pad2(h.hours), Pad2(h.minutes), Pad2(h.seconds);
    assert |a| == 2 <==> h.hours < 100;
    assert |b| == 2 && |c| == 2;
    ColonShape(a, b, c);
    a + ":" + b + ":" + c
  }

  /** Where the colons fall when two-character fields follow the first. */
  lemma ColonShape(a: string, b: string, c: string)
    requires |b| == 2 && |c| == 2
    ensures var r := a + ":" + b + ":" + c;
      |r| == |a| + 6 && r[|a|] == ':' && r[|a| + 3] == ':' && r[..|a|] == a
  {
    var r := a + ":" + b + ":" + c;
    assert r == a + (":" + b + ":" + c);
  }

  /** `formatTime(seconds)`. */
  function FormatTime(s: nat): (r: string)
    ensures |r| >= 8 && r[|r| - 6] == ':' && r[|r| - 3] == ':'
    ensures |r| == 8 <==> s < 360000
  {
    var h := SplitSeconds(s);
    HoursBelow100(s);
    Display(h)
  }

  lemma HoursBelow100(s: nat)
    ensures s / 3600 < 100 <==> s < 360000
  {
  }

  // ---------------------------------------------------------------------
  // Reading a display back
  // ---------------------------------------------------------------------

  /** An hours field as `formatTime` writes it: at least two digits, and a
      leading zero only when there are exactly two. */
  predicate HoursField(f: string) {
    |f| >= 2 && Decimal.AllDigits(f) && (|f| > 2 ==> f[0] != '0')
  }

  /** A minutes or seconds field: two digits, below 60. */
  predicate SixtyField(f: string) {
    |f| == 2 && Decimal.AllDigits(f) && Decimal.Value(f) < 60
  }

  /** The number of seconds a display shows; `None` for text that
      `formatTime` never writes. */
  function ParseTime(t: string): Option<nat>
  {
    ParseFields(Strings.Split(t, ':'))
  }

  /** The seconds three fields show, if they are well formed. */
  function ParseFields(parts: seq<string>): Option<nat>
  {
    if |parts| == 3 && HoursField(parts[0]) && SixtyField(parts[1]) && SixtyField(parts[2]) then
      Some(Decimal.Value(parts[0]) * 3600 + Decimal.Value(parts[1]) * 60 + Decimal.Value(parts[2]))
    else None
  }

  /** Every field `Pad2` writes is an hours field and reads back as the
      number; below 60 it is a minutes or seconds field too. */
  lemma Pad2Field(n: nat)
    ensures HoursField(Pad2(n)) && Decimal.Value(Pad2(n)) == n
    ensures n < 60 ==> SixtyField(Pad2(n))
  {
    Decimal.PaddedValue(n, 2);
  }

  /** A field written the way `formatTime` writes it is `Pad2` of its value. */
  lemma Pad2OfField(f: string)
    requires HoursField(f)
    ensures Pad2(Decimal.Value(f)) == f
  {
    if |f| == 2 && f[0] == '0' {
      var tail := f[1..];
      assert f == "0" + tail;
      Decimal.ValueLeadingZero(tail);
      Decimal.NatToStringOfValue(tail);
      assert Decimal.Repeat('0', 1) == "0";
    } else {
      Decimal.NatToStringOfValue(f);
    }
  }

  /** A display as the list of its three fields. */
  lemma DisplayJoin(h: Hms)
    requires h.Valid()
    ensures Display(h) == Strings.Join([Pad2(h.hours), Pad2(h.minutes), Pad2(h.seconds)], ':')
  {
    Strings.Join3(Pad2(h.hours), Pad2(h.minutes), Pad2(h.seconds), ':');
  }

  /** A digit string has no colon. */
  lemma DigitsNoColon(f: string)
    requires Decimal.AllDigits(f)
    ensures ':' !in f
  {
    forall i | 0 <= i < |f| ensures f[i] != ':' {
      assert Decimal.IsDigit(f[i]);
    }
  }

  /** Three well-formed fields joined by colons read as the duration they
      spell. */
  lemma ParseJoined(a: string, b: string, c: string, h: Hms)
    requires HoursField(a) && SixtyField(b) && SixtyField(c)
    requires Decimal.Value(a) == h.hours && Decimal.Value(b) == h.minutes && Decimal.Value(c) == h.seconds
    ensures ParseTime(Strings.Join([a, b, c], ':')) == Some(h.Total())
  {
    DigitsNoColon(a);
    DigitsNoColon(b);
    DigitsNoColon(c);
    var parts := [a, b, c];
    assert forall i :: 0 <= i < |parts| ==> ':' !in parts[i];
    Strings.SplitJoin(parts, ':');
    FieldsRead(a, b, c, h);
  }

  /** Reading a display gives back the duration it shows. */
  lemma ParseDisplay(h: Hms)
    requires h.Valid()
    ensures ParseTime(Display(h)) == Some(h.Total())
  {
    DisplayJoin(h);
    Pad2Field(h.hours);
    Pad2Field(h.minutes);
    Pad2Field(h.seconds);
    ParseJoined(Pad2(h.hours), Pad2(h.minutes), Pad2(h.seconds), h);
  }

  lemma FieldsRead(a: string, b: string, c: string, h: Hms)
    requires HoursField(a) && SixtyField(b) && SixtyField(c)
    requires Decimal.Value(a) == h.hours && Decimal.Value(b) == h.minutes && Decimal.Value(c) == h.seconds
    ensures ParseFields([a, b, c]) == Some(h.Total())
  {
  }

  /** Reading a display gives back the seconds it shows. */
  lemma ParseFormat(s: nat)
    ensures ParseTime(FormatTime(s)) == Some(s)
  {
    ParseDisplay(SplitSeconds(s));
  }

  /** Well-formed fields are the display of the duration they spell. */
  lemma DisplayOfFields(a: string, b: string, c: string)
    requires HoursField(a) && SixtyField(b) && SixtyField(c)
    ensures var h := Hms(Decimal.Value(a), Decimal.Value(b), Decimal.Value(c));
      h.Valid() && Display(h) == Strings.Join([a, b, c], ':')
  {
    var h := Hms(Decimal.Value(a), Decimal.Value(b), Decimal.Value(c));
    Pad2OfField(a);
    Pad2OfField(b);
    Pad2OfField(c);
    DisplayJoin(h);
  }

  /** A valid triple's total is displayed as the triple. */
  lemma FormatOfValid(h: Hms)
    requires h.Valid()
    ensures FormatTime(h.Total()) == Display(h)
  {
    SplitUnique(h);
  }

  /** The three fields of a text that reads as `s`. */
  lemma FieldsOf(t: string, s: nat) returns (a: string, b: string, c: string)
    requires ParseTime(t) == Some(s)
    ensures Strings.Split(t, ':') == [a, b, c]
    ensures HoursField(a) && SixtyField(b) && SixtyField(c)
    ensures Decimal.Value(a) * 3600 + Decimal.Value(b) * 60 + Decimal.Value(c) == s
  {
    var parts := Strings.Split(t, ':');
    assert ParseFields(parts) == Some(s);
    a, b, c := parts[0], parts[1], parts[2];
    assert parts == [a, b, c];
  }

  /** A text that reads as `s` is the display of some valid triple
      totalling `s`. */
  lemma ParsedFields(t: string, s: nat) returns (h: Hms)
    requires ParseTime(t) == Some(s)
    ensures h.Valid() && h.Total() == s && Display(h) == t
  {
    var a, b, c := FieldsOf(t, s);
    h := Hms(Decimal.Value(a), Decimal.Value(b), Decimal.Value(c));
    DisplayOfFields(a, b, c);
    Strings.JoinSplit(t, ':');
  }

  /** Conversely, a text that reads as `s` is exactly the display of `s`. */
  lemma FormatParse(t: string, s: nat)
    requires ParseTime(t) == Some(s)
    ensures FormatTime(s) == t
  {
    var h := ParsedFields(t, s);
    FormatOfValid(h);
  }

  /** Beyond 99 hours the hours field grows instead of being cut, and still
      reads back as the full number of hours. */
  lemma LongHours(s: nat)
    requires s >= 360000
    ensures var r := FormatTime(s);
      |r| > 8 && r[..|r| - 6] == Decimal.NatToString(s / 3600)
  {
    var h := SplitSeconds(s);
    assert h.hours == s / 3600 && h.hours >= 100 by {
      HoursBelow100(s);
    }
    DisplayLongHours(h);
    assert FormatTime(s) == Display(h);
  }

  /** A display with 100 hours or more carries all of their digits. */
  lemma DisplayLongHours(h: Hms)
    requires h.Valid() && h.hours >= 100
    ensures var r := Display(h);
      |r| > 8 && r[..|r| - 6] == Decimal.NatToString(h.hours)
  {
    assert Pad2(h.hours) == Decimal.NatToString(h.hours);
  }

  /** A one-digit number is padded with a single zero. */
  lemma Pad2OneDigit(n: nat)
    requires n < 10
    ensures Pad2(n) == ['0', Decimal.DigitChar(n)]
  {
    assert Decimal.Repeat('0', 1) == "0";
  }

  /** A duration whose three fields are single digits. */
  lemma FormatOneDigitFields(h: Hms)
    requires h.hours < 10 && h.minutes < 10 && h.seconds < 10
    ensures FormatTime(h.Total()) ==
      ['0', Decimal.DigitChar(h.hours), ':', '0', Decimal.DigitChar(h.minutes), ':', '0', Decimal.DigitChar(h.seconds)]
  {
    SplitUnique(h);
    Pad2OneDigit(h.hours);
    Pad2OneDigit(h.minutes);
    Pad2OneDigit(h.seconds);
  }

  /** The counter starts at 0, shown as "00:00:00". */
  lemma FormatZero()
    ensures FormatTime(0) == "00:00:00"
  {
    FormatOneDigitFields(Hms(0, 0, 0));
  }

  /** One hour, one minute and one second. */
  lemma FormatOneOneOne()
    ensures FormatTime(3661) == "01:01:01"
  {
    FormatOneDigitFields(Hms(1, 1, 1));
  }
}

/** The small rules of the login page (src/components/EnhancedLoginPage.tsx)
    apart from the saved-card list: the high-speed warning, the rotating
    welcome text and its placeholders, and the alternating support phone. */
module LoginRules {
  import opened Wrappers
  import opened Settings
  import ControlPanel
  import Decimal
  import Strings

  // ---------------------------------------------------------------------
  // The high-speed warning
  // ---------------------------------------------------------------------

  /** Position `i` holds the first package carrying `id`. */
  predicate FirstWithId(ps: seq<Package>, id: string, i: int) {
    0 <= i < |ps| && ps[i].id == id && forall k :: 0 <= k < i ==> ps[k].id != id
  }

  /** `packages.find(pkg => pkg.id === id)`, as the position of the first
      package carrying `id`. */
  function FindPackage(ps: seq<Package>, id: string): (r: Option<nat>)
    ensures r.Some? ==> FirstWithId(ps, id, r.value)
    ensures r.None? <==> !ControlPanel.HasId(ps, id)
  {
    if ps == [] then None
    else if ps[0].id == id then Some(0)
    else match FindPackage(ps[1..], id)
      case None => None
      case Some(i) => Some(i + 1)
  }

  /** The speed from which the warning is shown, in Mbps. */
  const WarningThreshold: nat := 10

  /** `parseInt(speed) >= 10`; a speed without a leading number parses to
      `NaN`, and `NaN >= 10` is false. */
  function IsHighSpeed(speed: string): (r: bool)
    ensures (speed == [] || !Decimal.IsDigit(speed[0])) ==> !r
    ensures r ==> |speed| >= 2 && Decimal.IsDigit(speed[0]) && Decimal.IsDigit(speed[1])
    ensures |speed| >= 2 && Decimal.IsDigit(speed[0]) && speed[0] != '0' && Decimal.IsDigit(speed[1]) ==> r
  {
    var d := Decimal.LeadingDigits(speed);
    Decimal.LeadingValueBounds(d);
    assert |speed| >= 2 && Decimal.IsDigit(speed[0]) && Decimal.IsDigit(speed[1]) ==> |d| >= 2 && d[0] == speed[0];
    match Decimal.ParseLeadingInt(speed)
    case None => false
    case Some(n) => n >= WarningThreshold
  }

  /** The page state `handleSpeedChange` writes. */
  datatype SpeedChoice = SpeedChoice(selected: string, warning: bool)

  /** `handleSpeedChange(speed)`: the selection is always recorded; the
      warning is recomputed from the first package with that id, and left as
      it was when no package has it. */
  function HandleSpeedChange(ps: seq<Package>, choice: SpeedChoice, speed: string): (r: SpeedChoice)
    ensures r.selected == speed
    ensures !ControlPanel.HasId(ps, speed) ==> r.warning == choice.warning
    ensures forall i :: FirstWithId(ps, speed, i) ==> (r.warning <==> IsHighSpeed(ps[i].speed))
  {
    match FindPackage(ps, speed)
    case None => SpeedChoice(speed, choice.warning)
    case Some(i) => SpeedChoice(speed, IsHighSpeed(ps[i].speed))
  }

  /** A speed written as digits followed by a unit is high exactly when the
      digits read as at least 10: the boundary itself warns, and leading
      zeros count for nothing. */
  lemma HighSpeedThreshold(digits: string, unit: string)
    requires |digits| >= 1 && Decimal.AllDigits(digits)
    requires unit == [] || !Decimal.IsDigit(unit[0])
    ensures IsHighSpeed(digits + unit) <==> Decimal.Value(digits) >= 10
  {
    Decimal.ParseLeadingIntOfDigits(digits, unit);
  }

  /** `digits` spells `n`, followed by the unit the defaults use. */
  lemma SpeedSpelled(n: nat, digits: string)
    requires Decimal.NatToString(n) == digits
    ensures IsHighSpeed(digits + " Mbps") <==> n >= 10
  {
    Decimal.ValueOfNatToString(n);
    HighSpeedThreshold(digits, " Mbps");
  }

  /** A leading zero does not change whether a speed warns. */
  lemma LeadingZeroIgnored(digits: string, unit: string)
    requires |digits| >= 1 && Decimal.AllDigits(digits)
    requires unit == [] || !Decimal.IsDigit(unit[0])
    ensures IsHighSpeed("0" + digits + unit) <==> IsHighSpeed(digits + unit)
  {
    Decimal.ValueLeadingZero(digits);
    HighSpeedThreshold(digits, unit);
    HighSpeedThreshold("0" + digits, unit);
    assert "0" + digits + unit == ("0" + digits) + unit;
  }

  /** With a leading zero, "05 Mbps" does not warn. */
  lemma LeadingZeroFive(speed: string)
    requires speed == "05 Mbps"
    ensures !IsHighSpeed(speed)
  {
    var d, unit := speed[..2], speed[2..];
    assert d[0] == '0' && d[1] == '5' && unit[0] == ' ';
    assert speed == d + unit;
    assert d[..1][..0] == [];
    assert Decimal.Value(d[..1]) == 0;
    assert Decimal.Value(d) == 5;
    HighSpeedThreshold(d, unit);
  }

  /** With a leading zero, "010 Mbps" warns. */
  lemma LeadingZeroTen(speed: string)
    requires speed == "010 Mbps"
    ensures IsHighSpeed(speed)
  {
    var d, unit := speed[..3], speed[3..];
    assert d[0] == '0' && d[1] == '1' && d[2] == '0' && unit[0] == ' ';
    assert speed == d + unit;
    assert d[..2][..1] == d[..1] && d[..1][..0] == [];
    assert Decimal.Value(d[..1]) == 0;
    assert Decimal.Value(d[..2]) == 1;
    assert Decimal.Value(d) == 10;
    HighSpeedThreshold(d, unit);
  }

  /** The search finds the first package carrying the id. */
  lemma FindsFirst(ps: seq<Package>, id: string, i: int)
    requires FirstWithId(ps, id, i)
    ensures FindPackage(ps, id) == Some(i)
  {
    assert ControlPanel.HasId(ps, id);
    var j := FindPackage(ps, id).value;
    assert FirstWithId(ps, id, j);
    assert !(j < i) && !(i < j);
  }

  /** The default packages carry the ids "1" to "4" in order. */
  lemma DefaultIdAt(i: nat)
    requires i < |Default.packages|
    ensures FindPackage(Default.packages, Default.packages[i].id) == Some(i)
  {
    var ps := Default.packages;
    assert ps[0].id == "1" && ps[1].id == "2" && ps[2].id == "3" && ps[3].id == "4";
    FindsFirst(ps, ps[i].id, i);
  }

  /** The default packages carry exactly the ids "1" to "4". */
  lemma DefaultIds(id: string)
    ensures ControlPanel.HasId(Default.packages, id) <==> id == "1" || id == "2" || id == "3" || id == "4"
  {
    var ps := Default.packages;
    assert ps[0].id == "1" && ps[1].id == "2" && ps[2].id == "3" && ps[3].id == "4";
    if id == "1" || id == "2" || id == "3" || id == "4" {
      var i := if id == "1" then 0 else if id == "2" then 1 else if id == "3" then 2 else 3;
      assert ps[i].id == id;
    }
  }

  /** A package found by its id, with a speed of `digits` Mbps, warns
      exactly when the number `digits` spells is at least 10. */
  lemma WarningOfFound(ps: seq<Package>, choice: SpeedChoice, i: nat, n: nat, digits: string)
    requires i < |ps| && FindPackage(ps, ps[i].id) == Some(i)
    requires ps[i].speed == digits + " Mbps" && Decimal.NatToString(n) == digits
    ensures HandleSpeedChange(ps, choice, ps[i].id).warning <==> n >= 10
  {
    SpeedSpelled(n, digits);
  }

  /** With the default packages, choosing the third or fourth ("10 Mbps",
      "25 Mbps") warns and choosing the first or second ("1 Mbps", "5 Mbps")
      does not. */
  lemma DefaultSpeedWarnings(choice: SpeedChoice, i: nat)
    requires i < |Default.packages|
    ensures HandleSpeedChange(Default.packages, choice, Default.packages[i].id).warning <==> i >= 2
  {
    DefaultIdAt(i);
    var n, digits := DefaultSpeed(i);
    WarningOfFound(Default.packages, choice, i, n, digits);
  }

  /** The default speeds are 1, 5, 10 and 25 Mbps. */
  lemma DefaultSpeed(i: nat) returns (n: nat, digits: string)
    requires i < |Default.packages|
    ensures Default.packages[i].speed == digits + " Mbps" && Decimal.NatToString(n) == digits
    ensures n >= 10 <==> i >= 2
  {
    var ps := Default.packages;
    if i == 0 {
      n, digits := 1, "1";
      assert ps[0].speed == digits + " Mbps";
    } else if i == 1 {
      n, digits := 5, "5";
      assert ps[1].speed == digits + " Mbps";
    } else if i == 2 {
      n, digits := 10, "10";
      assert ps[2].speed == digits + " Mbps";
      assert Decimal.NatToString(1) == "1";
    } else {
      n, digits := 25, "25";
      assert ps[3].speed == digits + " Mbps";
      assert Decimal.NatToString(2) == "2";
    }
  }

  /** Any id other than the default ones "1" to "4" leaves the flag alone. */
  lemma UnknownIdKeepsWarning(choice: SpeedChoice, id: string)
    requires id != "1" && id != "2" && id != "3" && id != "4"
    ensures HandleSpeedChange(Default.packages, choice, id) == SpeedChoice(id, choice.warning)
  {
    DefaultIds(id);
  }

  // ---------------------------------------------------------------------
  // Saved-card selection
  // ---------------------------------------------------------------------

  /** The placeholder entry of the saved-card menu. */
  const SelectPlaceholder: string := "select"

  /** `handleSavedCardSelect(card)`: the username becomes `card` unless it is
      empty or the placeholder entry. */
  function HandleSavedCardSelect(username: string, card: string): (r: string)
    ensures r == card || r == username
    ensures r == card <==> card == username || (card != "" && card != SelectPlaceholder)
  {
    if card != "" && card != SelectPlaceholder then card else username
  }

  // ---------------------------------------------------------------------
  // Rotating welcome texts
  // ---------------------------------------------------------------------

  const SiteNamePlaceholder: string := "${siteName}"
  const SupportPhonePlaceholder: string := "${supportPhone}"
  const SupportPhone2Placeholder: string := "${supportPhone2}"

  /** The number of rotating texts. */
  const TextCount: nat := 3

  /** `rotatingTexts`: the three welcome texts, the first with the site name
      put in for its placeholder, the second with both support phones. */
  function RotatingTexts(s: AppSettings): (r: seq<string>)
    ensures |r| == TextCount
    ensures r[2] == s.welcomeTexts.text3
    ensures r[0] == Strings.ReplaceFirst(s.welcomeTexts.text1, SiteNamePlaceholder, s.siteName)
    ensures r[1] == Strings.ReplaceFirst(
      Strings.ReplaceFirst(s.welcomeTexts.text2, SupportPhonePlaceholder, s.supportPhone),
      SupportPhone2Placeholder, s.supportPhone2)
  {
    var w := s.welcomeTexts;
    [ Strings.ReplaceFirst(w.text1, SiteNamePlaceholder, s.siteName),
      Strings.ReplaceFirst(Strings.ReplaceFirst(w.text2, SupportPhonePlaceholder, s.supportPhone),
        SupportPhone2Placeholder, s.supportPhone2),
      w.text3 ]
  }

  /** A pattern whose first character does not occur in `s` occurs nowhere. */
  lemma Absent(s: string, pat: string)
    requires pat != [] && pat[0] !in s
    ensures forall k :: !Strings.OccursAt(s, pat, k)
  {
    forall k ensures !Strings.OccursAt(s, pat, k) {
      if 0 <= k && k + |pat| <= |s| {
        assert s[k..k + |pat|][0] == s[k];
      }
    }
  }

  /** When `pat` first occurs right after `a`, exactly that occurrence is
      replaced, by the substitution `rep` describes, and everything after it,
      later occurrences included, is kept. */
  lemma SubstituteFirst(s: string, a: string, pat: string, rep: string, b: string)
    requires s == a + pat + b
    requires forall k :: 0 <= k < |a| ==> !Strings.OccursAt(s, pat, k)
    ensures Strings.ReplaceFirst(s, pat, rep) == a + Strings.Substitution(rep, pat, a, b) + b
    ensures '$' !in rep ==> Strings.ReplaceFirst(s, pat, rep) == a + rep + b
  {
    assert s[|a|..|a| + |pat|] == pat;
    assert Strings.FirstOccurrence(s, pat, |a|);
    assert s[..|a|] == a && s[|a| + |pat|..] == b;
  }

  /** Only the first occurrence is replaced: of two copies of a pattern,
      the second survives. */
  lemma OnlyFirstOccurrence(pat: string, rep: string)
    ensures Strings.ReplaceFirst(pat + pat, pat, rep) == Strings.Substitution(rep, pat, [], pat) + pat
  {
    var s := pat + pat;
    assert Strings.OccursAt(s, pat, 0) by {
      assert s[0..|pat|] == pat;
    }
    Strings.ReplaceAtStart(s, pat, rep);
    assert s[|pat|..] == pat;
  }

  /** A site name without `$` is put in as written in place of the first
      placeholder of the first text, provided no `$` comes before it. */
  lemma SiteNameShown(s: AppSettings, a: string, b: string)
    requires s.welcomeTexts.text1 == a + SiteNamePlaceholder + b
    requires '$' !in a && '$' !in s.siteName
    ensures RotatingTexts(s)[0] == a + s.siteName + b
  {
    var t := s.welcomeTexts.text1;
    forall k | 0 <= k < |a| ensures !Strings.OccursAt(t, SiteNamePlaceholder, k) {
      assert t[k] == a[k] && a[k] != '$' && SiteNamePlaceholder[0] == '$';
    }
    SubstituteFirst(t, a, SiteNamePlaceholder, s.siteName, b);
  }

  /** A site name containing `$$` is not shown as written: the text
      "${siteName}" with the site name "$$" reads "$". */
  lemma DollarSiteName(s: AppSettings)
    requires s.welcomeTexts.text1 == SiteNamePlaceholder && s.siteName == "$$"
    ensures RotatingTexts(s)[0] == "$"
  {
    var t := s.welcomeTexts.text1;
    assert t == [] + SiteNamePlaceholder + [];
    SubstituteFirst(t, [], SiteNamePlaceholder, s.siteName, []);
    Strings.SubstitutionPatterns(SiteNamePlaceholder, [], []);
  }

  /** Texts without a `$` are shown as written. */
  lemma PlainTextsVerbatim(s: AppSettings)
    requires '$' !in s.welcomeTexts.text1 && '$' !in s.welcomeTexts.text2
    ensures RotatingTexts(s) == [s.welcomeTexts.text1, s.welcomeTexts.text2, s.welcomeTexts.text3]
  {
    var w := s.welcomeTexts;
    Absent(w.text1, SiteNamePlaceholder);
    Absent(w.text2, SupportPhonePlaceholder);
    Absent(w.text2, SupportPhone2Placeholder);
  }

  /** The interval step `(prev + 1) % rotatingTexts.length`. */
  function NextTextIndex(i: nat): (r: nat)
    ensures r < TextCount
  {
    (i + 1) % TextCount
  }

  /** The index after `k` steps from the initial 0. */
  function TextIndexAfter(k: nat): nat {
    if k == 0 then 0 else NextTextIndex(TextIndexAfter(k - 1))
  }

  /** The texts are shown in turn: after `k` steps the `k mod 3`-th. */
  lemma {:induction false} TextIndexCycles(k: nat)
    ensures TextIndexAfter(k) == k % TextCount
  {
    if k > 0 {
      TextIndexCycles(k - 1);
    }
  }

  // ---------------------------------------------------------------------
  // Alternating support phone
  // ---------------------------------------------------------------------

  /** The two numbers the page alternates between; fixed in the page, not
      taken from the settings. */
  const SupportPhones: seq<string> := ["778881677", "739149005"]

  /** The interval step: the first number gives the second, anything else
      gives the first. */
  function TogglePhone(prev: string): (r: string)
    ensures r in SupportPhones
    ensures r != prev
    ensures prev == SupportPhones[0] ==> r == SupportPhones[1]
    ensures prev != SupportPhones[0] ==> r == SupportPhones[0]
  {
    if prev == SupportPhones[0] then SupportPhones[1] else SupportPhones[0]
  }

  /** On the two numbers the toggle is an involution. */
  lemma ToggleTwice(p: string)
    requires p in SupportPhones
    ensures TogglePhone(TogglePhone(p)) == p
  {
  }

  /** The phone shown after `k` steps from the initial first number. */
  function PhoneAfter(k: nat): string {
    if k == 0 then SupportPhones[0] else TogglePhone(PhoneAfter(k - 1))
  }

  /** The numbers alternate: the first on even steps, the second on odd ones. */
  lemma {:induction false} PhoneAlternates(k: nat)
    ensures PhoneAfter(k) == SupportPhones[k % 2]
  {
    if k > 0 {
      PhoneAlternates(k - 1);
    }
  }
}

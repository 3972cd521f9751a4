# Captive-portal settings and login logic, in Dafny

This project models the pure logic inside three React components of a
Wi-Fi captive portal. The components are the settings control panel, the
login page and the dashboard. The view code is left out; what remains is
stated as immutable data and pure functions:

- **Settings tree and its editors** (`ControlPanel.tsx`), in modules
  `Settings` and `ControlPanel`.
  - The tree `AppSettings` has a fixed shape. Its scalar leaves outside
    `packages` and `salesPoints` are named by the enumerated locator
    `Field`; the two collections are edited only by their own editors.
  - `updateSetting(path, value)` is `Settings.UpdateSetting`. It parses the
    dotted path into a `Field` and is `None` for a path that names no leaf,
    including a path through a collection index.
    Every path the form passes is proved to be a leaf path.
  - The package editors address packages by id: add, remove and update.
  - The sales-point editors address sales points by index: add, remove and
    update.
  - The form's edits are also modelled as one step, `Apply`. It keeps the
    tree well formed: at least one package and one sales point, and unique
    package ids.
  - `getSettings` and `handleSave` read and write an explicit store through
    an abstract JSON codec (module `Storage`).
- **Saved-card list** (`EnhancedLoginPage.tsx`), in module `RecentCards`.
  - `saveCardToStorage` is a bounded most-recently-used list of five
    entries. After any history it is proved to equal the five most
    recently used distinct names.
  - `handleSubmit` trims the username before recording it.
- **Login-page rules** (`EnhancedLoginPage.tsx`), in module `LoginRules`:
  - the high-speed warning, which parses the speed's leading integer and
    warns at `>= 10`;
  - saved-card selection;
  - first-occurrence placeholder substitution in the welcome texts;
  - the rotating-text index;
  - the two-phone toggle.
- **`formatTime`** (`EnhancedDashboard.tsx`), in module `Clock`. It turns
  seconds into `HH:MM:SS`. It is paired with a reader `ParseTime`, and the
  two are proved inverse in both directions.
- **The control-panel gate** (`EnhancedDashboard.tsx`), in module `Gate`.
  It is modelled as a state machine over `(open, authenticated, input)`.
  Along every run the page can produce, the gate is authenticated exactly
  when a correct submit happened since the last close.

Support modules hold the JavaScript built-ins the components call:

- `Seqs`: `filter`, `slice` and removal at an index.
- `Decimal`: `toString` and `padStart` on naturals, and the leading-digit
  prefix of `parseInt`.
- `Strings`: `trim`, `replace` with a string pattern (including its `$` replacement patterns) and `split`. `Strings.Join` is not a call of the page: it is how the model spells a leaf's dotted path, as the inverse of `split`.
- `Wrappers`: `Option`.

Storage (`localStorage`) is an explicit `map<string, string>` that
operations take and return. `JSON.stringify` and `JSON.parse` are an
abstract `Codec` pair. Their round-trip guarantee is the hypothesis
`Storage.Faithful`, which the persistence lemmas require. The clock-based
package id is a parameter.

## Model

| member | source | states |
|---|---|---|
| Settings.Extensional | src/components/ControlPanel.tsx:34-69 | Two trees are equal when they agree on every leaf and on both collections. This is what makes the "nothing else changed" clauses of the editors complete. |
| Settings.PackageExtensional | src/components/ControlPanel.tsx:27-32 | Two packages with the same id that agree on name, speed and price are equal. |
| Settings.AppSettings.Set | src/components/ControlPanel.tsx:141-154 | Writing a leaf makes that leaf read back the new value, and every other leaf and both collections keep their values. |
| Settings.SetCurrentValue | src/components/ControlPanel.tsx:141-154 | Writing a leaf's current value back leaves the tree unchanged. |
| Settings.SetTwice | src/components/ControlPanel.tsx:141-154 | Of two writes to the same leaf, the second wins. |
| Settings.SetCommutes | src/components/ControlPanel.tsx:141-154 | Writes to two different leaves commute. |
| Settings.Locate | src/components/ControlPanel.tsx:144-151 | Walking a key list down the tree finds a leaf only when the list is exactly that leaf's key list. |
| Settings.LocateKeys | src/components/ControlPanel.tsx:144-151 | Every leaf's own key list leads back to that leaf. |
| Settings.PathRoundTrip | src/components/ControlPanel.tsx:141-154 | A string parses to a leaf if and only if it is that leaf's dotted path. |
| Settings.ParsePathExact | src/components/ControlPanel.tsx:144-151 | For every leaf at once: the path parses to the leaf exactly when it spells it. |
| Settings.UpdateSetting | src/components/ControlPanel.tsx:141-154 | A path naming a leaf replaces exactly that leaf; every other leaf and both collections keep their values. A path that names no leaf is refused with `None`. |
| Settings.FormPathIsPath | src/components/ControlPanel.tsx:237-613 | Each literal path the form passes to `updateSetting` is the dotted path of the corresponding leaf. |
| Settings.FormPathsAreLeaves | src/components/ControlPanel.tsx:237-613 | The 23 form paths parse to the 23 leaves, one each, and every leaf is among them. The enumerated locator therefore covers every caller. |
| Settings.AllFieldsComplete | src/components/ControlPanel.tsx:34-69 | The list of leaves contains every leaf of the tree. |
| ControlPanel.AddPackage | src/components/ControlPanel.tsx:156-167 | Exactly one package is appended at the end, with the given id and the placeholder name, speed and price. Earlier packages and the rest of the tree are unchanged. |
| ControlPanel.RemovePackage | src/components/ControlPanel.tsx:169-174 | No remaining package has the id. Every other package stays with its multiplicity. Nothing else changes. An absent id leaves the tree as it was. |
| ControlPanel.RemoveUniquePackage | src/components/ControlPanel.tsx:169-174 | With unique ids, removing the id of the package at `j` drops exactly that package and keeps the others in order. |
| ControlPanel.AddThenRemovePackage | src/components/ControlPanel.tsx:156-174 | Removing a just-added package with a fresh id restores the tree. |
| ControlPanel.UpdatePackage | src/components/ControlPanel.tsx:176-183 | In packages with the id, only the chosen field becomes the value. The length, every id and all other packages are kept. |
| ControlPanel.UpdateAbsentPackage | src/components/ControlPanel.tsx:176-183 | Updating an id no package has changes nothing. |
| ControlPanel.UpdatePackageRestore | src/components/ControlPanel.tsx:176-183 | Writing back the previous value of the field undoes an update. |
| ControlPanel.UpdatePackageTwice | src/components/ControlPanel.tsx:176-183 | Of two updates of the same field, the second wins. |
| ControlPanel.SalesPointLabelInjective | src/components/ControlPanel.tsx:185-190 | Different positions get different sales-point labels. |
| ControlPanel.DefaultSalesPointLabels | src/components/ControlPanel.tsx:81-85 | The default sales points carry exactly the labels `addSalesPoint` would give positions 1 to 3. |
| ControlPanel.AddSalesPoint | src/components/ControlPanel.tsx:185-190 | One point is appended, labelled with its 1-based position (old length + 1). Earlier points and the rest of the tree are unchanged. |
| ControlPanel.RemoveSalesPoint | src/components/ControlPanel.tsx:192-197 | An index in range drops exactly that point: the length shrinks by one and the rest keep their order. An index out of range changes nothing. |
| ControlPanel.AddThenRemoveSalesPoint | src/components/ControlPanel.tsx:185-197 | Removing the point just appended restores the tree. |
| ControlPanel.UpdateSalesPoint | src/components/ControlPanel.tsx:199-204 | The point at the index becomes the value; the length and all other points are kept. |
| ControlPanel.UpdateSalesPointMeaning | src/components/ControlPanel.tsx:199-204 | In range, the update is sequence update. Out of range, it is the identity. Writing the current value back changes nothing. |
| ControlPanel.DefaultWf | src/components/ControlPanel.tsx:71-115 | The default tree has a package, a sales point and unique package ids. |
| ControlPanel.AddPackageKeepsUnique | src/components/ControlPanel.tsx:156-167 | Adding a package under a fresh id keeps ids unique. |
| ControlPanel.RemovePackageKeepsUnique | src/components/ControlPanel.tsx:169-174 | With unique ids, removing a present id removes exactly one package and keeps ids unique. |
| ControlPanel.ApplyPreservesWf | src/components/ControlPanel.tsx:141-204 | Every edit the form allows keeps the tree well formed. |
| ControlPanel.GetSettings | src/components/ControlPanel.tsx:634-644 | A missing entry, an empty entry or an unparsable entry gives the defaults. Otherwise the result is the parsed tree. |
| ControlPanel.HandleSave | src/components/ControlPanel.tsx:132-139 | The encoded tree is written under the settings key; no other storage entry changes. |
| ControlPanel.SaveThenGet | src/components/ControlPanel.tsx:634-644 | Reading after a save returns the saved tree. |
| Storage.GetItem | src/components/ControlPanel.tsx:635-636 | An entry is found exactly when its key is present and the stored text is non-empty, as the `if (saved)` test demands. |
| Storage.SetItem | src/components/ControlPanel.tsx:133 | The key is bound to the value; every other entry is kept. |
| Seqs.Filter | src/components/ControlPanel.tsx:171 | The result is no longer than the input, and every kept element passes the test. |
| Seqs.FilterMultiset | src/components/ControlPanel.tsx:171 | The result holds each passing element exactly as often as the input, and no other. |
| Seqs.FilterAppend | src/components/ControlPanel.tsx:171 | Filtering distributes over concatenation, so relative order is kept. |
| Seqs.Without | src/components/EnhancedLoginPage.tsx:113 | The value no longer occurs; every other value keeps its multiplicity. A list without the value is returned unchanged. |
| Seqs.Take | src/components/EnhancedLoginPage.tsx:114 | `slice(0, n)`: the first `min(n, length)` entries. |
| Seqs.RemoveAt | src/components/ControlPanel.tsx:195 | `filter((_, i) => i !== index)`: in range, the entry at the index is gone and the rest keep their order. Out of range, nothing changes. |
| RecentCards.Record | src/components/EnhancedLoginPage.tsx:112-117 | The list has 1 to 5 entries. The card is first and occurs once. The tail is the old list without the card, cut to four. Duplicate-freedom is kept. Re-recording a present card does not grow the list. |
| RecentCards.MostRecentFirst | src/components/EnhancedLoginPage.tsx:113-114 | Reference order: the distinct names of a history, each once, most recently used first. |
| RecentCards.RecordAllIsRecentDistinct | src/components/EnhancedLoginPage.tsx:113-114 | After any login history, the list is the first five of the most-recent-first distinct names. |
| RecentCards.RecordAllBounded | src/components/EnhancedLoginPage.tsx:114 | After any history, the list has at most five entries and no duplicates. |
| RecentCards.MostRecentFirstDistinct | src/components/EnhancedLoginPage.tsx:113-114 | For a history of distinct names, the most-recent-first order is the history reversed. |
| RecentCards.DistinctCardsEvictOldest | src/components/EnhancedLoginPage.tsx:113-114 | Recording distinct names keeps the last five, newest first. Older ones are evicted. |
| RecentCards.PromoteExisting | src/components/EnhancedLoginPage.tsx:113-114 | For any duplicate-free list that holds the card, re-recording it keeps the length (cut to five). A list of at most five keeps exactly its cards, now with this one first. |
| RecentCards.LoadSavedCards | src/components/EnhancedLoginPage.tsx:57-59 | Nothing stored gives the empty list; a stored value gives what it decodes to. |
| RecentCards.SaveCardToStorage | src/components/EnhancedLoginPage.tsx:112-117 | The recorded list is written back whole under its key, and no other entry changes. |
| RecentCards.SaveThenLoadCards | src/components/EnhancedLoginPage.tsx:112-117 | The next load reads what was saved. |
| RecentCards.HandleSubmit | src/components/EnhancedLoginPage.tsx:119-131 | A username that is all whitespace changes nothing and logs nobody in. Otherwise the trimmed name is recorded and saved, heads the list, and is the name logged in. |
| RecentCards.PickSubmittedName | src/components/EnhancedLoginPage.tsx:106-110 | Picking the name just submitted from the saved-card menu fills the username with it, unless the name is spelled like the placeholder value "select". |
| LoginRules.FindPackage | src/components/EnhancedLoginPage.tsx:89 | `find` gives the position of the first package with the id, and `None` exactly when no package has it. |
| LoginRules.FindsFirst | src/components/EnhancedLoginPage.tsx:89 | The first package with the id is the one found. |
| LoginRules.IsHighSpeed | src/components/EnhancedLoginPage.tsx:92-93 | A speed with no leading digit never warns. A warning needs at least two leading digits. Two leading digits without a leading zero always warn. |
| LoginRules.HandleSpeedChange | src/components/EnhancedLoginPage.tsx:84-104 | The selection is always recorded. When a package has the id, the warning holds iff the first such package's speed has a leading integer of at least 10. When none has it, the warning is left as it was. |
| LoginRules.HighSpeedThreshold | src/components/EnhancedLoginPage.tsx:92-93 | A speed written as digits and then a non-digit unit is high iff the digits read as at least 10, leading zeros included; the boundary 10 warns. |
| LoginRules.LeadingZeroIgnored | src/components/EnhancedLoginPage.tsx:92-93 | Putting a zero in front of a speed's digits never changes whether it warns. |
| LoginRules.LeadingZeroFive | src/components/EnhancedLoginPage.tsx:92-93 | "05 Mbps" reads as 5 and does not warn. |
| LoginRules.LeadingZeroTen | src/components/EnhancedLoginPage.tsx:92-93 | "010 Mbps" reads as 10 and warns. |
| LoginRules.DefaultIdAt | src/components/ControlPanel.tsx:75-80 | Each default package is found by its own id at its own position. |
| LoginRules.DefaultSpeed | src/components/ControlPanel.tsx:75-80 | The default speeds spell 1, 5, 10 and 25 Mbps; only the last two reach 10. |
| LoginRules.DefaultSpeedWarnings | src/components/EnhancedLoginPage.tsx:84-104 | With the default packages, the 10 and 25 Mbps choices warn and the 1 and 5 Mbps choices do not. |
| LoginRules.DefaultIds | src/components/ControlPanel.tsx:75-80 | A default package has a given id iff the id is one of "1" to "4". |
| LoginRules.UnknownIdKeepsWarning | src/components/EnhancedLoginPage.tsx:89-103 | With the default packages, any id other than "1" to "4" is recorded as the selection and leaves the warning as it was. |
| LoginRules.HandleSavedCardSelect | src/components/EnhancedLoginPage.tsx:106-110 | The username becomes the chosen card, unless the card is empty or the placeholder value; then it is kept. |
| LoginRules.RotatingTexts | src/components/EnhancedLoginPage.tsx:48-52 | Three texts: the first with the first site-name placeholder replaced, the second with the first of each phone placeholder replaced, the third verbatim. Each replacement applies the `$` patterns of `replace`. |
| LoginRules.SubstituteFirst | src/components/EnhancedLoginPage.tsx:48-50 | When the first occurrence of the placeholder follows `a`, exactly that occurrence is replaced by the substitution of the value; everything after it is kept. A value without `$` is put in as written. |
| LoginRules.OnlyFirstOccurrence | src/components/EnhancedLoginPage.tsx:48-50 | Of two copies of a placeholder only the first is replaced; the second survives as written. |
| LoginRules.SiteNameShown | src/components/EnhancedLoginPage.tsx:49 | A site name without `$` appears as written where the first text's first placeholder was, when no `$` precedes it. |
| LoginRules.DollarSiteName | src/components/EnhancedLoginPage.tsx:49 | The site name "$$" in the text "${siteName}" reads "$": the value is not put in verbatim. |
| LoginRules.PlainTextsVerbatim | src/components/EnhancedLoginPage.tsx:48-52 | Texts without a `$` are shown as written. |
| LoginRules.NextTextIndex | src/components/EnhancedLoginPage.tsx:66 | The next index is always below the number of texts. |
| LoginRules.TextIndexCycles | src/components/EnhancedLoginPage.tsx:62-69 | After `k` steps from 0 the index is `k mod 3`: the texts are shown in turn. |
| LoginRules.TogglePhone | src/components/EnhancedLoginPage.tsx:72-76 | The result is one of the two numbers and differs from the previous one. The first number gives the second. Anything else, including a value outside the pair, gives the first. |
| LoginRules.ToggleTwice | src/components/EnhancedLoginPage.tsx:72-76 | On the two numbers the toggle is an involution. |
| LoginRules.PhoneAlternates | src/components/EnhancedLoginPage.tsx:42-76 | Starting from the first number, the first is shown after an even number of steps and the second after an odd number. |
| Strings.Trim | src/components/EnhancedLoginPage.tsx:121 | The result is empty iff the input is all whitespace. Otherwise it is the stretch of the input between leading and trailing whitespace, with no whitespace at either end. |
| Strings.TrimFixpoint | src/components/EnhancedLoginPage.tsx:121-127 | A string is its own trim iff it is empty or has no whitespace at either end. Trimming twice is trimming once. |
| Strings.Substitution | src/components/EnhancedLoginPage.tsx:49-50 | A replacement without `$` is inserted as written. |
| Strings.SubstitutionPatterns | src/components/EnhancedLoginPage.tsx:49-50 | `$$` gives `$`, `$&` the matched text, `` $` `` the text before the match and `$'` the text after it. |
| Strings.ReplaceFirst | src/components/EnhancedLoginPage.tsx:49-50 | An absent pattern leaves the text unchanged. Otherwise only the first occurrence is replaced, by the substitution the replacement describes, and the text around it is kept. |
| Strings.ReplaceFirstSelf | src/components/EnhancedLoginPage.tsx:49-50 | Replacing a pattern without `$` by itself changes nothing. |
| Strings.ReplaceDollarsSelf | src/components/EnhancedLoginPage.tsx:49-50 | Replacing "$$" by itself in "$$" gives "$", so the identity needs the pattern to be free of `$`. |
| Strings.Split | src/components/ControlPanel.tsx:144 | There is one more part than separators, and no part contains the separator. |
| Strings.JoinSplit | src/components/ControlPanel.tsx:144 | Joining the parts of a split gives the string back. |
| Strings.SplitJoin | src/components/ControlPanel.tsx:144 | Splitting separator-free parts joined by the separator gives the parts back. |
| Decimal.NatToString | src/components/EnhancedDashboard.tsx:69 | `toString` on a natural: at least one digit, with no leading zero unless it is the single digit 0. |
| Decimal.ValueOfNatToString | src/components/EnhancedDashboard.tsx:69 | The digits read back as the number. |
| Decimal.NatToStringOfValue | src/components/EnhancedDashboard.tsx:69 | A digit string without a leading zero is the `toString` of its value. |
| Decimal.NatToStringLength | src/components/EnhancedDashboard.tsx:69 | The decimal form has at most `k` digits iff the number is below `10^k`. |
| Decimal.PadStart | src/components/EnhancedDashboard.tsx:69 | `padStart` fills on the left up to the width and never cuts: the original is the suffix. |
| Decimal.PaddedValue | src/components/EnhancedDashboard.tsx:69 | A zero-padded number still reads as the number. |
| Decimal.ParseLeadingInt | src/components/EnhancedLoginPage.tsx:92 | A text with no leading digit reads as `None`, and only then; the page's `parseInt` also gives `NaN` there, but it reads more texts than this (see "## Left out"). |
| Decimal.LeadingValueBounds | src/components/EnhancedLoginPage.tsx:92-93 | One digit reads as less than 10; two or more digits without a leading zero read as at least 10. |
| Decimal.ParseLeadingIntOfDigits | src/components/EnhancedLoginPage.tsx:92 | Any run of digits followed by a non-digit parses to the value of the digits, leading zeros included. |
| Decimal.ParseLeadingIntOfNat | src/components/EnhancedLoginPage.tsx:92 | A number followed by a non-digit parses back to the number. |
| Clock.SplitSeconds | src/components/EnhancedDashboard.tsx:65-68 | `hrs*3600 + mins*60 + secs` is the input, with minutes and seconds below 60. |
| Clock.SplitUnique | src/components/EnhancedDashboard.tsx:65-68 | That decomposition is the only valid one. |
| Clock.Pad2 | src/components/EnhancedDashboard.tsx:69 | At least two characters, exactly two iff the number is below 100, and longer numbers are never cut. |
| Clock.ColonShape | src/components/EnhancedDashboard.tsx:69 | Joining a field and two 2-character fields with colons puts the colons 6 and 3 places from the end and keeps the first field as the prefix. |
| Clock.Display | src/components/EnhancedDashboard.tsx:69 | Colons sit before the last two 2-character fields. The text is 8 characters long iff the hours are below 100. The leading field is the padded hours. |
| Clock.FormatTime | src/components/EnhancedDashboard.tsx:65-70 | At least 8 characters with the two colons in place; exactly 8 iff the input is below 360000 seconds. |
| Clock.LongHours | src/components/EnhancedDashboard.tsx:69 | From 100 hours on, the hours field is longer than two and holds all digits of the hours. |
| Clock.ParseFormat | src/components/EnhancedDashboard.tsx:65-70 | Reading the display back gives the seconds. |
| Clock.FormatParse | src/components/EnhancedDashboard.tsx:65-70 | A text that reads as `s` is exactly `formatTime(s)`. |
| Clock.FormatZero | src/components/EnhancedDashboard.tsx:40 | The counter's start, 0, is shown as "00:00:00". |
| Clock.FormatOneOneOne | src/components/EnhancedDashboard.tsx:65-70 | 3661 seconds is shown as "01:01:01". |
| Gate.TypeInput | src/components/EnhancedDashboard.tsx:247 | Typing sets the field and touches nothing else. |
| Gate.Submit | src/components/EnhancedDashboard.tsx:72-87 | The gate becomes authenticated iff it was already authenticated or the field holds "123". A wrong code clears the field and changes nothing else. |
| Gate.OpenChange | src/components/EnhancedDashboard.tsx:218-223 | Closing forgets the authentication and the typed code; opening keeps them. |
| Gate.ViewOf | src/components/EnhancedDashboard.tsx:232-271 | The settings editor is shown iff the dialog is open and authenticated; the passcode form iff it is open and not authenticated. |
| Gate.StepKeepsInv | src/components/EnhancedDashboard.tsx:218-247 | Every event the page can deliver keeps a closed dialog free of authentication and typed code. |
| Gate.InitialInv | src/components/EnhancedDashboard.tsx:43-45 | The dashboard starts with the dialog closed and nothing shown. |
| Gate.ReachableInv | src/components/EnhancedDashboard.tsx:218-223 | Along any run the page can produce, a closed dialog holds neither authentication nor a typed code. |
| Gate.AuthenticatedIffUnlocked | src/components/EnhancedDashboard.tsx:72-87 | After any run, the gate is authenticated iff some submit carried "123" and no close came after it. |
| Gate.WrongCodeStaysLocked | src/components/EnhancedDashboard.tsx:72-87 | From the passcode form, a wrong code keeps the form shown with the field cleared. |
| Gate.ReopenAsksAgain | src/components/EnhancedDashboard.tsx:218-223 | Closing and reopening always asks for the code again. |

## Left out

- JSX rendering, toasts, icons, CSS and animation classes, and the static Arabic copy are presentation only.
- The JSON grammar is not modelled. `JSON.stringify`/`JSON.parse` are an abstract `Codec`, and their round trip is the hypothesis `Storage.Faithful`.
- `getSettings` does not check the shape of what it parses. The model's decoder answers either a well-formed tree or `None`.
- A `setItem` failure (quota exceeded) is not modelled; writes always succeed.
- RecentCards.LoadSavedCards: an unparsable saved-card value throws in the page, because the load has no `try`/`catch`. The model returns `None` instead of modelling the exception.
- Settings.UpdateSetting: the page's shallow copy mutates nested objects that the previous state and `defaultSettings` share. The model states the intended pure update, not the aliasing.
- Settings.UpdateSetting: the model refuses with `None` every path that names no leaf. The page does one of several things for such a path. An unknown last key adds a stray property. A path to a record or collection (`'packages'`, `'cardInfo'`) overwrites it with the string. A missing parent throws. A key below a string (`'siteName.x'`) throws in strict module code. A path through a collection index edits that element in place, through the array the previous state shares: `'salesPoints.0'` sets the first sales point, `'packages.0.name'` renames the first package, and `'packages.length'` truncates the array or throws `RangeError` for a non-numeric value. The form never passes such a path (`Settings.FormPathsAreLeaves`); it edits the collections only through the package and sales-point editors (`ControlPanel.UpdatePackage`, `ControlPanel.UpdateSalesPoint`).
- ControlPanel.AddPackage: the id comes from `Date.now()` in `ControlPanel.tsx` and is a parameter here. Freshness is assumed where a lemma needs it; the code never checks it.
- ControlPanel.RemovePackage and ControlPanel.RemoveSalesPoint require more than one entry. The operations themselves accept any list; the requirement is the disabled-button guard at `ControlPanel.tsx:296` and `:372`.
- ControlPanel.UpdatePackage: the key ranges over name, speed and price only, the fields the form edits. Rewriting `id` through `keyof Package` is not modelled.
- Decimal.ParseLeadingInt: full `parseInt` is not modelled: leading whitespace, signs, the `0x` prefix and radix handling are absent, and `NaN` is `None`. The speeds in the defaults and in new packages start with a digit.
- LoginRules.IsHighSpeed: a speed that starts with whitespace or a sign never warns in the model, while the page's `parseInt(" 10 Mbps")` and `parseInt("+10 Mbps")` read 10 and warn; such a speed can only come from an admin edit, because the defaults and new packages start with a digit.
- Strings.Trim: the whitespace set is space, tab, line feed and carriage return. JavaScript's set also includes other Unicode spaces and line terminators.
- The timers are not modelled: the 4-second text rotation, the 3-second phone toggle, the 1-second connection counter and the 1-second login delay. Only the step of the two text/phone timers and the counter's start value are modelled (`LoginRules.NextTextIndex`, `LoginRules.TogglePhone`, `Clock.FormatZero`); the counter's `prev + 1` step is not.
- The two support phones the login page alternates between are hard-coded in the page and ignore the settings; the model uses the same fixed pair.
- `LoadingScreen.tsx` (random progress and timers) and `ActivityFeed.tsx` (a static table with icon lookup) are not part of this model.
- LoginRules.PlainTextsVerbatim is stated for any texts without a `$`. Its instance for the three default welcome texts is not proved separately.
- Strings.ReplaceFirstSelf requires a pattern without `$`. With `$` in the pattern, replacing it by itself is not the identity (`Strings.ReplaceDollarsSelf`).
- Strings.Substitution covers the patterns a string search pattern can produce. Numbered and named groups (`$1`, `$<name>`) only arise with a regular expression and are kept as written, as `replace` does for a string pattern.
- JavaScript numbers are doubles. `toString` switches to exponent form at 10^21, and integers above 2^53 are inexact. A per-second counter reaches neither, so `Decimal` and `Clock` work on unbounded naturals.

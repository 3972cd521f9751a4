/** String operations the components call: `trim`, `replace` with a string
    pattern (first occurrence only), and `split` / `join` on one character. */
module Strings {
  import opened Wrappers

  /** The whitespace `trim` removes; a small fixed subset of JavaScript's set. */
  predicate IsSpace(c: char) {
    c == ' ' || c == '\t' || c == '\n' || c == '\r'
  }

  predicate AllSpace(s: string) {
    forall i :: 0 <= i < |s| ==> IsSpace(s[i])
  }

  /** The first position at or after `i` that does not hold whitespace,
      or `|s|`. */
  function SpanStart(s: string, i: nat): (b: nat)
    requires i <= |s|
    ensures i <= b <= |s|
    ensures forall k :: i <= k < b ==> IsSpace(s[k])
    ensures b == |s| || !IsSpace(s[b])
    decreases |s| - i
  {
    if i == |s| || !IsSpace(s[i]) then i else SpanStart(s, i + 1)
  }

  /** The position just after the last non-whitespace character before `j`,
      or 0. */
  function SpanEnd(s: string, j: nat): (e: nat)
    requires j <= |s|
    ensures e <= j
    ensures forall k :: e <= k < j ==> IsSpace(s[k])
    ensures e == 0 || !IsSpace(s[e - 1])
  {
    if j == 0 || !IsSpace(s[j - 1]) then j else SpanEnd(s, j - 1)
  }

  /** `s.trim()`: whitespace dropped from both ends. The result is the
      stretch of `s` from its first to its last non-whitespace character,
      and empty exactly when `s` is all whitespace. */
  function Trim(s: string): (r: string)
    ensures |r| <= |s|
    ensures r == [] <==> AllSpace(s)
    ensures r != [] ==> !IsSpace(r[0]) && !IsSpace(r[|r| - 1])
    ensures r != [] ==> exists b ::
      0 <= b <= |s| - |r| && r == s[b..b + |r|] && AllSpace(s[..b]) && AllSpace(s[b + |r|..])
  {
    var b := SpanStart(s, 0);
    if b == |s| then []
    else
      var e := SpanEnd(s, |s|);
      assert b < e;
      SpanPieces(s, b, e);
      s[b..e]
  }

  /** What the spans leave out is whitespace. */
  lemma SpanPieces(s: string, b: nat, e: nat)
    requires b <= e <= |s|
    requires forall k :: 0 <= k < b ==> IsSpace(s[k])
    requires forall k :: e <= k < |s| ==> IsSpace(s[k])
    ensures s[b..e] == s[b..b + (e - b)]
    ensures AllSpace(s[..b]) && AllSpace(s[b + (e - b)..])
  {
  }

  /** A string is its own trim exactly when it is empty or has no
      whitespace at either end; in particular trimming twice is trimming
      once. */
  lemma TrimFixpoint(s: string)
    ensures Trim(s) == s <==> s == [] || (!IsSpace(s[0]) && !IsSpace(s[|s| - 1]))
    ensures Trim(Trim(s)) == Trim(s)
  {
    var t := Trim(s);
    if t != [] {
      assert SpanStart(t, 0) == 0;
      assert SpanEnd(t, |t|) == |t|;
      assert t[0..|t|] == t;
    }
    if s != [] && !IsSpace(s[0]) && !IsSpace(s[|s| - 1]) {
      assert SpanStart(s, 0) == 0;
      assert SpanEnd(s, |s|) == |s|;
      assert s[0..|s|] == s;
    }
  }

  /** `pat` occurs in `s` starting at position `i`. */
  predicate OccursAt(s: string, pat: string, i: int) {
    0 <= i && i + |pat| <= |s| && s[i..i + |pat|] == pat
  }

  /** `i` is the first position where `pat` occurs in `s`. */
  predicate FirstOccurrence(s: string, pat: string, i: int) {
    OccursAt(s, pat, i) && forall k :: 0 <= k < i ==> !OccursAt(s, pat, k)
  }

  /** `s.indexOf(pat, from)`: the first position at or after `from` where `pat`
      occurs, `None` for JavaScript's -1. */
  function IndexOf(s: string, pat: string, from: nat): (r: Option<nat>)
    ensures r.Some? ==> from <= r.value && OccursAt(s, pat, r.value)
    ensures r.Some? ==> forall k :: from <= k < r.value ==> !OccursAt(s, pat, k)
    ensures r.None? ==> forall k :: from <= k ==> !OccursAt(s, pat, k)
    decreases |s| - from
  {
    if from + |pat| > |s| then None
    else if s[from..from + |pat|] == pat then Some(from)
    else IndexOf(s, pat, from + 1)
  }

  /** The replacement text `replace` inserts for the template `rep` (the
      GetSubstitution step of ECMAScript 2024, section 22.1.3.19.1, for a
      string pattern, which has no capture groups): `$$` gives `$`, `$&` the
      matched text, `` $` `` the text before the match and `$'` the text after
      it; every other character, a `$` before anything else included, is kept. */
  function Substitution(rep: string, matched: string, before: string, after: string): (r: string)
    ensures '$' !in rep ==> r == rep
    decreases |rep|
  {
    if rep == [] then []
    else if rep[0] == '$' && |rep| >= 2 && rep[1] == '$' then "$" + Substitution(rep[2..], matched, before, after)
    else if rep[0] == '$' && |rep| >= 2 && rep[1] == '&' then matched + Substitution(rep[2..], matched, before, after)
    else if rep[0] == '$' && |rep| >= 2 && rep[1] == '`' then before + Substitution(rep[2..], matched, before, after)
    else if rep[0] == '$' && |rep| >= 2 && rep[1] == '\'' then after + Substitution(rep[2..], matched, before, after)
    else
      assert rep == [rep[0]] + rep[1..];
      [rep[0]] + Substitution(rep[1..], matched, before, after)
  }

  /** The four two-character patterns, each on its own. */
  lemma SubstitutionPatterns(matched: string, before: string, after: string)
    ensures Substitution("$$", matched, before, after) == "$"
    ensures Substitution("$&", matched, before, after) == matched
    ensures Substitution("$`", matched, before, after) == before
    ensures Substitution("$'", matched, before, after) == after
  {
    assert "$$"[2..] == [] && "$&"[2..] == [] && "$`"[2..] == [] && "$'"[2..] == [];
    assert Substitution([], matched, before, after) == [];
    assert "$" + [] == "$" && matched + [] == matched && before + [] == before && after + [] == after;
  }

  /** `s` with the occurrence of `pat` at `i` replaced by the substitution
      `rep` describes for it. */
  function Spliced(s: string, pat: string, rep: string, i: nat): string
    requires OccursAt(s, pat, i)
  {
    var before, after := s[..i], s[i + |pat|..];
    before + Substitution(rep, pat, before, after) + after
  }

  /** `s.replace(pat, rep)` with a string pattern: only the first occurrence of
      `pat` is replaced, by the substitution `rep` describes, and `s` comes
      back unchanged when `pat` is absent. */
  function ReplaceFirst(s: string, pat: string, rep: string): (r: string)
    ensures (forall k :: !OccursAt(s, pat, k)) ==> r == s
    ensures forall i: nat :: FirstOccurrence(s, pat, i) ==> r == Spliced(s, pat, rep, i)
  {
    IndexOfFirst(s, pat);
    match IndexOf(s, pat, 0)
    case None => s
    case Some(i) => Spliced(s, pat, rep, i)
  }

  /** The search from 0 finds the first occurrence. */
  lemma IndexOfFirst(s: string, pat: string)
    ensures forall i :: FirstOccurrence(s, pat, i) ==> IndexOf(s, pat, 0) == Some(i)
  {
    forall i | FirstOccurrence(s, pat, i)
      ensures IndexOf(s, pat, 0) == Some(i)
    {
      var j := IndexOf(s, pat, 0);
      assert j.Some?;
      assert !(j.value < i) && !(i < j.value);
    }
  }

  /** A pattern at the very start is the one replaced. */
  lemma ReplaceAtStart(s: string, pat: string, rep: string)
    requires OccursAt(s, pat, 0)
    ensures ReplaceFirst(s, pat, rep) == Substitution(rep, pat, [], s[|pat|..]) + s[|pat|..]
  {
    assert FirstOccurrence(s, pat, 0);
    assert s[..0] == [];
  }

  /** Replacing a pattern without `$` by itself changes nothing. */
  lemma ReplaceFirstSelf(s: string, pat: string)
    requires '$' !in pat
    ensures ReplaceFirst(s, pat, pat) == s
  {
    match IndexOf(s, pat, 0)
    case None =>
    case Some(i) =>
      assert s == s[..i] + s[i..i + |pat|] + s[i + |pat|..];
  }

  /** With a `$` in it, the same replacement is not the identity: "$$"
      replaced by itself gives "$". */
  lemma ReplaceDollarsSelf()
    ensures ReplaceFirst("$$", "$$", "$$") == "$"
  {
    var s := "$$";
    assert OccursAt(s, s, 0) by {
      assert s[0..|s|] == s;
    }
    ReplaceAtStart(s, s, s);
    SubstitutionPatterns(s, [], s[|s|..]);
    assert s[|s|..] == [];
  }

  /** `s.split(sep)` for a one-character separator. */
  function Split(s: string, sep: char): (r: seq<string>)
    ensures |r| == multiset(s)[sep] + 1
    ensures forall i :: 0 <= i < |r| ==> sep !in r[i]
  {
    match IndexOf(s, [sep], 0)
    case None =>
      assert forall k :: 0 <= k < |s| ==> s[k] != sep by {
        forall k | 0 <= k < |s| ensures s[k] != sep {
          assert !OccursAt(s, [sep], k);
        }
      }
      assert multiset(s)[sep] == 0;
      [s]
    case Some(i) =>
      assert s[i] == sep;
      assert sep !in s[..i] by {
        forall k | 0 <= k < i ensures s[k] != sep {
          assert !OccursAt(s, [sep], k);
        }
      }
      assert s == s[..i] + [sep] + s[i + 1..];
      [s[..i]] + Split(s[i + 1..], sep)
  }

  /** `parts.join(sep)`. */
  function Join(parts: seq<string>, sep: char): string
  {
    if parts == [] then []
    else if |parts| == 1 then parts[0]
    else parts[0] + [sep] + Join(parts[1..], sep)
  }

  /** Joining three parts. */
  lemma Join3(a: string, b: string, c: string, sep: char)
    ensures Join([a, b, c], sep) == a + [sep] + b + [sep] + c
  {
    assert [a, b, c][1..] == [b, c];
    assert [b, c][1..] == [c];
    assert Join([c], sep) == c;
    assert Join([b, c], sep) == b + [sep] + c;
    assert Join([a, b, c], sep) == a + [sep] + (b + [sep] + c);
  }

  /** Splitting then joining gives the string back. */
  lemma {:induction false} JoinSplit(s: string, sep: char)
    ensures Join(Split(s, sep), sep) == s
    decreases |s|
  {
    match IndexOf(s, [sep], 0)
    case None =>
    case Some(i) =>
      var rest := s[i + 1..];
      JoinSplit(rest, sep);
      assert s == s[..i] + [sep] + rest;
  }

  /** A string without `sep` has no occurrence of the one-character pattern. */
  lemma NoOccurrence(p: string, sep: char)
    requires sep !in p
    ensures forall k :: !OccursAt(p, [sep], k)
  {
    forall k | 0 <= k < |p| ensures !OccursAt(p, [sep], k) {
      assert p[k..k + 1] == [p[k]];
    }
  }

  /** The first separator in `p + [sep] + rest` is the one after `p`. */
  lemma IndexOfAfterPrefix(p: string, sep: char, rest: string)
    requires sep !in p
    ensures IndexOf(p + [sep] + rest, [sep], 0) == Some(|p|)
  {
    var s := p + [sep] + rest;
    assert s[|p|..|p| + 1] == [sep];
    assert OccursAt(s, [sep], |p|);
    forall k | 0 <= k < |p| ensures !OccursAt(s, [sep], k) {
      assert s[k..k + 1] == [p[k]];
    }
  }

  /** Joining separator-free parts then splitting gives the parts back. */
  lemma {:induction false} SplitJoin(parts: seq<string>, sep: char)
    requires |parts| >= 1
    requires forall i :: 0 <= i < |parts| ==> sep !in parts[i]
    ensures Split(Join(parts, sep), sep) == parts
  {
    var p := parts[0];
    if |parts| == 1 {
      NoOccurrence(p, sep);
      assert IndexOf(p, [sep], 0).None?;
    } else {
      var rest := Join(parts[1..], sep);
      var s := p + [sep] + rest;
      assert Join(parts, sep) == s;
      IndexOfAfterPrefix(p, sep, rest);
      assert s[|p| + 1..] == rest;
      assert s[..|p|] == p;
      SplitJoin(parts[1..], sep);
      assert Split(s, sep) == [p] + Split(rest, sep);
    }
  }
}

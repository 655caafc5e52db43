/**
 * The operations on Python `str` values that the routers rely on: case
 * mapping, `strip`, substring tests, `replace(pat, "")`, `endswith`,
 * `os.path.splitext`, `rstrip("/")`, `isdigit`/`int` and the code-point
 * order that `sorted` uses on names. Case mapping and whitespace are those
 * of the ASCII range; every other character is left as it is.
 */
module Strings {

  predicate IsUpperAscii(c: char) { 'A' <= c <= 'Z' }
  predicate IsLowerAscii(c: char) { 'a' <= c <= 'z' }
  predicate IsDigit(c: char) { '0' <= c <= '9' }
  predicate IsAlnum(c: char) { IsUpperAscii(c) || IsLowerAscii(c) || IsDigit(c) }

  /** The ASCII characters `str.strip()` removes: tab to carriage return, the
      four separators 0x1C..0x1F and the space. */
  predicate IsSpace(c: char) {
    c == ' ' || '\U{9}' <= c <= '\U{D}' || '\U{1C}' <= c <= '\U{1F}'
  }

  function UpperChar(c: char): char {
    if IsLowerAscii(c) then (c as int - 32) as char else c
  }

  function LowerChar(c: char): char {
    if IsUpperAscii(c) then (c as int + 32) as char else c
  }

  /** `s.upper()` */
  function Upper(s: string): string {
    seq(|s|, i requires 0 <= i < |s| => UpperChar(s[i]))
  }

  /** `s.lower()` */
  function Lower(s: string): string {
    seq(|s|, i requires 0 <= i < |s| => LowerChar(s[i]))
  }

  /** `upper()` distributes over concatenation. */
  lemma UpperAppend(a: string, b: string)
    ensures Upper(a + b) == Upper(a) + Upper(b)
  {
  }

  /** `upper()` twice is `upper()` once. */
  lemma UpperIdempotent(s: string)
    ensures Upper(Upper(s)) == Upper(s)
  {
  }

  /** Lower-casing forgets an earlier upper-casing. */
  lemma LowerUpper(s: string)
    ensures Lower(Upper(s)) == Lower(s)
  {
  }

  /** `s.lstrip()` */
  function TrimStart(s: string): (r: string)
    ensures |r| <= |s|
    ensures r == [] || !IsSpace(r[0])
  {
    if |s| > 0 && IsSpace(s[0]) then TrimStart(s[1..]) else s
  }

  /** `s.rstrip()` */
  function TrimEnd(s: string): (r: string)
    ensures |r| <= |s|
    ensures r == [] || !IsSpace(r[|r| - 1])
  {
    if |s| > 0 && IsSpace(s[|s| - 1]) then TrimEnd(s[..|s| - 1]) else s
  }

  /** `lstrip()` cuts only whitespace, and only from the start. */
  lemma {:induction false} TrimStartCuts(s: string)
    ensures TrimStart(s) == s[|s| - |TrimStart(s)|..]
    ensures forall k :: 0 <= k < |s| - |TrimStart(s)| ==> IsSpace(s[k])
  {
    if |s| > 0 && IsSpace(s[0]) {
      TrimStartCuts(s[1..]);
    }
  }

  /** `rstrip()` cuts only whitespace, and only from the end. */
  lemma {:induction false} TrimEndCuts(s: string)
    ensures TrimEnd(s) == s[..|TrimEnd(s)|]
    ensures forall k :: |TrimEnd(s)| <= k < |s| ==> IsSpace(s[k])
  {
    if |s| > 0 && IsSpace(s[|s| - 1]) {
      TrimEndCuts(s[..|s| - 1]);
    }
  }

  /** How many whitespace characters `s.lstrip()` removes. */
  function LeadingSpace(s: string): (n: nat)
    ensures n <= |s|
  {
    |s| - |TrimStart(s)|
  }

  /** A prefix of a suffix is a slice. */
  lemma SliceOfSuffix(s: string, i: nat, n: nat)
    requires i + n <= |s|
    ensures s[i..][..n] == s[i..i + n]
  {
  }

  /** `rstrip()` after `lstrip()` leaves a slice of `s` that starts with a
      non-space, with only whitespace around it. */
  lemma StripCuts(s: string)
    ensures LeadingSpace(s) + |TrimEnd(TrimStart(s))| <= |s|
    ensures TrimEnd(TrimStart(s)) == s[LeadingSpace(s)..LeadingSpace(s) + |TrimEnd(TrimStart(s))|]
    ensures TrimEnd(TrimStart(s)) == [] || !IsSpace(TrimEnd(TrimStart(s))[0])
    ensures forall k :: 0 <= k < LeadingSpace(s) ==> IsSpace(s[k])
    ensures forall k :: LeadingSpace(s) + |TrimEnd(TrimStart(s))| <= k < |s| ==> IsSpace(s[k])
  {
    var t := TrimStart(s);
    var r := TrimEnd(t);
    var i := LeadingSpace(s);
    TrimStartCuts(s);
    TrimEndCuts(t);
    SliceOfSuffix(s, i, |r|);
    assert r == [] || r[0] == t[0];
    TrailingSpace(s, t, i, |r|);
  }

  /** Whitespace after the kept part of a suffix is whitespace of the whole. */
  lemma TrailingSpace(s: string, t: string, i: nat, n: nat)
    requires i <= |s| && t == s[i..] && n <= |t|
    requires forall k :: n <= k < |t| ==> IsSpace(t[k])
    ensures forall k :: i + n <= k < |s| ==> IsSpace(s[k])
  {
    forall k | i + n <= k < |s|
      ensures IsSpace(s[k])
    {
      assert s[k] == t[k - i];
    }
  }

  /** `s.strip()`: the input with its leading and trailing whitespace cut,
      so that neither end of the result is whitespace. */
  function Strip(s: string): (r: string)
    ensures |r| <= |s| - LeadingSpace(s) && r == s[LeadingSpace(s)..LeadingSpace(s) + |r|]
    ensures forall k :: 0 <= k < LeadingSpace(s) ==> IsSpace(s[k])
    ensures forall k :: LeadingSpace(s) + |r| <= k < |s| ==> IsSpace(s[k])
    ensures r == [] || (!IsSpace(r[0]) && !IsSpace(r[|r| - 1]))
  {
    StripCuts(s);
    TrimEnd(TrimStart(s))
  }

  lemma {:induction false} TrimStartKeeps(s: string, c: char)
    requires c !in s
    ensures c !in TrimStart(s)
  {
    if |s| > 0 && IsSpace(s[0]) {
      TrimStartKeeps(s[1..], c);
    }
  }

  /** `strip()` lets no character in that was not there. */
  lemma StripKeeps(s: string, c: char)
    requires c !in s
    ensures c !in Strip(s)
  {
    TrimStartKeeps(s, c);
    TrimEndCuts(TrimStart(s));
  }

  /** A string without whitespace is its own `strip()`. */
  lemma StripNoSpace(s: string)
    requires forall k :: 0 <= k < |s| ==> !IsSpace(s[k])
    ensures Strip(s) == s
  {
  }

  /** `sub in s` */
  predicate Contains(s: string, sub: string)
    decreases |s|
  {
    sub <= s || (|s| > 0 && Contains(s[1..], sub))
  }

  /** `sub` is the slice of `s` that starts at `p`. */
  predicate OccursAt(s: string, sub: string, p: nat) {
    p + |sub| <= |s| && s[p..p + |sub|] == sub
  }

  /** `sub in s` holds exactly when `sub` occurs in `s` at some position. */
  lemma {:induction false} ContainsAt(s: string, sub: string)
    ensures Contains(s, sub) <==> exists p: nat :: OccursAt(s, sub, p)
    decreases |s|
  {
    if sub <= s {
      assert OccursAt(s, sub, 0);
    } else if |s| > 0 {
      ContainsAt(s[1..], sub);
      if Contains(s[1..], sub) {
        var p: nat :| OccursAt(s[1..], sub, p);
        assert OccursAt(s, sub, p + 1);
      } else {
        forall p: nat | OccursAt(s, sub, p)
          ensures false
        {
          if p > 0 {
            assert OccursAt(s[1..], sub, p - 1);
          }
        }
      }
    }
  }

  /** A slice of a string is in it. */
  lemma ContainsSlice(s: string, p: nat, q: nat)
    requires p <= q <= |s|
    ensures Contains(s, s[p..q])
  {
    ContainsAt(s, s[p..q]);
    assert OccursAt(s, s[p..q], p);
  }

  /** `c in b` and `b in a` give `c in a`. */
  lemma ContainsTransitive(a: string, b: string, c: string)
    requires Contains(a, b) && Contains(b, c)
    ensures Contains(a, c)
  {
    ContainsAt(a, b);
    ContainsAt(b, c);
    ContainsAt(a, c);
    var p: nat :| OccursAt(a, b, p);
    var p': nat :| OccursAt(b, c, p');
    forall k | 0 <= k < |c|
      ensures a[p + p' + k] == c[k]
    {
      assert c[k] == b[p' + k] == a[p..p + |b|][p' + k];
    }
    assert OccursAt(a, c, p + p');
  }

  /** Lower-casing commutes with taking a slice. */
  lemma LowerSlice(s: string, p: nat, q: nat)
    requires p <= q <= |s|
    ensures Lower(s[p..q]) == Lower(s)[p..q]
  {
  }

  /** `s.endswith(suffix)` */
  predicate EndsWith(s: string, suffix: string) {
    |suffix| <= |s| && s[|s| - |suffix|..] == suffix
  }

  /** `s.replace(pat, "")`: occurrences are removed left to right, without
      overlap and without rescanning what the removal joins together. */
  function RemoveAll(s: string, pat: string): (r: string)
    requires pat != []
    decreases |s|
    ensures |r| <= |s|
    ensures forall k :: 0 <= k < |r| ==> r[k] in s
  {
    if |s| < |pat| then s
    else if s[..|pat|] == pat then RemoveAll(s[|pat|..], pat)
    else [s[0]] + RemoveAll(s[1..], pat)
  }

  /** Removing a one-character pattern leaves no occurrence of it. */
  lemma {:induction false} RemoveAllChar(s: string, c: char)
    ensures c !in RemoveAll(s, [c])
    decreases |s|
  {
    if |s| >= 1 {
      if s[..1] == [c] {
        RemoveAllChar(s[1..], c);
      } else {
        RemoveAllChar(s[1..], c);
        assert s[0] != c;
      }
    }
  }

  /** Removal never lets a character in that was not there. */
  lemma {:induction false} RemoveAllKeeps(s: string, pat: string, c: char)
    requires pat != []
    requires c !in s
    ensures c !in RemoveAll(s, pat)
    decreases |s|
  {
    if |s| >= |pat| {
      if s[..|pat|] == pat {
        RemoveAllKeeps(s[|pat|..], pat, c);
      } else {
        RemoveAllKeeps(s[1..], pat, c);
      }
    }
  }

  /** A one-character text occurs only where that character does. */
  lemma {:induction false} ContainsChar(s: string, c: char)
    ensures Contains(s, [c]) ==> c in s
    decreases |s|
  {
    if |s| > 0 {
      ContainsChar(s[1..], c);
      if [c] <= s {
        assert s[0] == c;
      }
    }
  }

  /** A text that does not contain the pattern is left as it is. */
  lemma {:induction false} RemoveAllAbsent(s: string, pat: string)
    requires pat != [] && !Contains(s, pat)
    ensures RemoveAll(s, pat) == s
    decreases |s|
  {
    if |s| >= |pat| {
      assert !(pat <= s);
      RemoveAllAbsent(s[1..], pat);
      assert s == [s[0]] + s[1..];
    }
  }

  /** Removing a one-character pattern deletes every occurrence of that
      character and keeps every other character, as often as it occurs. */
  lemma {:induction false} RemoveAllCharCount(s: string, c: char)
    ensures multiset(RemoveAll(s, [c])) == multiset(s)[c := 0]
    decreases |s|
  {
    if |s| >= 1 {
      var rest := RemoveAll(s[1..], [c]);
      RemoveAllCharCount(s[1..], c);
      assert s == [s[0]] + s[1..];
      assert multiset(s) == multiset{s[0]} + multiset(s[1..]);
      if s[0] == c {
        assert s[..1] == [c];
        RemoveAllTail(s, [c]);
      } else {
        assert s[..1] != [c];
        assert RemoveAll(s, [c]) == [s[0]] + rest;
        assert multiset([s[0]] + rest) == multiset{s[0]} + multiset(rest);
      }
    }
  }

  /** A text with no whitespace at either end is its own `strip()`. */
  /** Trailing blanks after a trimmed text are stripped away. */
  lemma StripTrailingSpace(s: string, n: nat)
    requires s != [] && !IsSpace(s[0]) && !IsSpace(s[|s| - 1])
    ensures Strip(s + seq(n, _ => ' ')) == s
  {
    var x := s + seq(n, _ => ' ');
    var r := Strip(x);
    assert x[0] == s[0];
    assert LeadingSpace(x) == 0;
    assert x[|s| - 1] == s[|s| - 1];
    assert |r| >= |s|;
    assert r == x[..|s|] == s;
  }

  lemma StripTrimmed(s: string)
    requires s == [] || (!IsSpace(s[0]) && !IsSpace(s[|s| - 1]))
    ensures Strip(s) == s
  {
    var r := Strip(s);
    if s != [] {
      assert LeadingSpace(s) == 0;
      assert |r| == |s|;
    }
  }

  /** A character a number can be written with: a digit, `.`, `-` or `+`. */
  predicate IsNumeralChar(c: char) {
    IsDigit(c) || c == '.' || c == '-' || c == '+'
  }

  /** The characters of `s` a number can be written with, in order. */
  function Numeral(s: string): (r: string)
    ensures |r| <= |s|
  {
    if s == [] then [] else (if IsNumeralChar(s[0]) then [s[0]] else []) + Numeral(s[1..])
  }

  lemma {:induction false} NumeralAppend(a: string, b: string)
    ensures Numeral(a + b) == Numeral(a) + Numeral(b)
    decreases |a|
  {
    if a == [] {
      assert a + b == b;
    } else {
      var h := if IsNumeralChar(a[0]) then [a[0]] else [];
      assert (a + b)[0] == a[0] && (a + b)[1..] == a[1..] + b;
      calc {
        Numeral(a + b);
        h + Numeral(a[1..] + b);
        { NumeralAppend(a[1..], b); }
        h + (Numeral(a[1..]) + Numeral(b));
        (h + Numeral(a[1..])) + Numeral(b);
      }
    }
  }

  /** A text without a numeral character contributes nothing. */
  lemma {:induction false} NumeralNone(s: string)
    requires forall k :: 0 <= k < |s| ==> !IsNumeralChar(s[k])
    ensures Numeral(s) == []
    decreases |s|
  {
    if s != [] {
      NumeralNone(s[1..]);
    }
  }

  /** Removing a pattern without numeral characters keeps the numeral
      characters of the text, in order. */
  lemma {:induction false} NumeralRemoveAll(s: string, pat: string)
    requires pat != [] && forall k :: 0 <= k < |pat| ==> !IsNumeralChar(pat[k])
    ensures Numeral(RemoveAll(s, pat)) == Numeral(s)
    decreases |s|
  {
    if |s| >= |pat| {
      if s[..|pat|] == pat {
        RemoveAllTail(s, pat);
        NumeralRemoveAll(s[|pat|..], pat);
        assert s == s[..|pat|] + s[|pat|..];
        NumeralAppend(s[..|pat|], s[|pat|..]);
        NumeralNone(pat);
      } else {
        NumeralRemoveAll(s[1..], pat);
        var t := [s[0]] + RemoveAll(s[1..], pat);
        assert t[0] == s[0] && t[1..] == RemoveAll(s[1..], pat);
      }
    }
  }

  /** When the pattern starts the text, removal goes on after it. */
  lemma RemoveAllTail(s: string, pat: string)
    requires pat != [] && |pat| <= |s| && s[..|pat|] == pat
    ensures RemoveAll(s, pat) == RemoveAll(s[|pat|..], pat)
  {
  }

  /** Dropping the first character moves every occurrence one place left. */
  lemma OccursAtTail(s: string, pat: string, j: nat)
    requires |s| > 0
    ensures OccursAt(s[1..], pat, j) <==> OccursAt(s, pat, j + 1)
  {
    if j + 1 + |pat| <= |s| {
      assert s[1..][j..j + |pat|] == s[j + 1..j + 1 + |pat|];
    }
  }

  /** Removal copies the text up to the leftmost occurrence, drops that
      occurrence and goes on after it. */
  lemma {:induction false} RemoveAllLeftmost(s: string, pat: string, i: nat)
    requires pat != [] && OccursAt(s, pat, i)
    requires forall j: nat :: j < i ==> !OccursAt(s, pat, j)
    ensures RemoveAll(s, pat) == s[..i] + RemoveAll(s[i + |pat|..], pat)
    decreases i
  {
    if i == 0 {
      RemoveAllTail(s, pat);
      assert s[..i] == [];
    } else {
      var t := s[1..];
      LeftmostInTail(s, pat, i);
      RemoveAllLeftmost(t, pat, i - 1);
      SliceAfterHead(s, i, |pat|);
      RemoveAllHead(s, pat);
      JoinHead(RemoveAll(s, pat), s[0], t[..i - 1], RemoveAll(s[i + |pat|..], pat), RemoveAll(t, pat));
    }
  }

  /** The occurrence conditions carry over to the text without its head. */
  lemma LeftmostInTail(s: string, pat: string, i: nat)
    requires 0 < i && OccursAt(s, pat, i)
    requires forall j: nat :: j < i ==> !OccursAt(s, pat, j)
    ensures OccursAt(s[1..], pat, i - 1)
    ensures forall j: nat :: j < i - 1 ==> !OccursAt(s[1..], pat, j)
  {
    OccursAtTail(s, pat, i - 1);
    forall j: nat | j < i - 1
      ensures !OccursAt(s[1..], pat, j)
    {
      OccursAtTail(s, pat, j);
    }
  }

  /** Without an occurrence at the start, the head is kept. */
  lemma RemoveAllHead(s: string, pat: string)
    requires pat != [] && |pat| <= |s| && !OccursAt(s, pat, 0)
    ensures RemoveAll(s, pat) == [s[0]] + RemoveAll(s[1..], pat)
  {
    assert s[..|pat|] != pat;
  }

  lemma JoinHead(x: string, c: char, a: string, b: string, y: string)
    requires x == [c] + y && y == a + b
    ensures x == ([c] + a) + b
  {
  }

  /** The slices before and after an occurrence, seen from the tail. */
  lemma SliceAfterHead(s: string, i: nat, n: nat)
    requires 0 < i && i + n <= |s|
    ensures s[..i] == [s[0]] + s[1..][..i - 1]
    ensures s[1..][i - 1 + n..] == s[i + n..]
  {
  }

  /** A suffix whose first character the stem lacks comes off whole. */
  lemma RemoveSuffix(stem: string, suffix: string)
    requires |suffix| > 0 && suffix[0] !in stem
    ensures RemoveAll(stem + suffix, suffix) == stem
  {
    var s := stem + suffix;
    forall j: nat | j < |stem|
      ensures !OccursAt(s, suffix, j)
    {
      assert s[j] == stem[j];
    }
    assert s[|stem|..|stem| + |suffix|] == suffix;
    RemoveAllLeftmost(s, suffix, |stem|);
    assert s[..|stem|] == stem;
    assert s[|stem| + |suffix|..] == [];
  }

  /** Stripping keeps the numeral characters, in order. */
  lemma NumeralStrip(s: string)
    ensures Numeral(Strip(s)) == Numeral(s)
  {
    var t := Strip(s);
    var i := LeadingSpace(s);
    var j := i + |t|;
    var a, b := s[..i], s[j..];
    assert s == a + t + b;
    assert forall k :: 0 <= k < |a| ==> IsSpace(a[k]);
    assert forall k :: 0 <= k < |b| ==> IsSpace(b[k]);
    NumeralNone(a);
    NumeralNone(b);
    NumeralAppend(a + t, b);
    NumeralAppend(a, t);
  }

  /** The index of the last `c` in `s`, or -1 (`str.rfind`). */
  function LastIndexOf(s: string, c: char): (r: int)
    ensures -1 <= r < |s|
    ensures r >= 0 ==> s[r] == c
    ensures forall j :: r < j < |s| ==> s[j] != c
  {
    if |s| == 0 then -1
    else if s[|s| - 1] == c then |s| - 1
    else LastIndexOf(s[..|s| - 1], c)
  }

  /** `os.path.splitext(name)[0]` for a name without `/`: the extension
      starts at the last dot, unless only dots come before that dot. */
  function SplitExtRoot(name: string): (r: string)
    ensures r <= name
    ensures r != name ==>
      && name[|r|] == '.' && (forall k :: |r| < k < |name| ==> name[k] != '.')
      && exists k :: 0 <= k < |r| && r[k] != '.'
    ensures (exists d, j :: 0 <= j < d < |name| && name[j] != '.' && name[d] == '.') ==> r != name
  {
    var dot := LastIndexOf(name, '.');
    if dot > 0 && exists j | 0 <= j < dot :: name[j] != '.' then name[..dot] else name
  }

  /** A stem with some non-dot character loses exactly its last extension. */
  lemma SplitExtDropsExt(stem: string, ext: string)
    requires '.' !in ext
    requires exists k :: 0 <= k < |stem| && stem[k] != '.'
    ensures SplitExtRoot(stem + "." + ext) == stem
  {
    var name := stem + "." + ext;
    var k :| 0 <= k < |stem| && stem[k] != '.';
    assert name[k] == stem[k] && name[|stem|] == '.';
    var r := SplitExtRoot(name);
    assert forall j :: |stem| < j < |name| ==> name[j] == ext[j - |stem| - 1];
    assert name[..|stem|] == stem;
  }

  /** A name without a dot has no extension. */
  lemma SplitExtNoDot(name: string)
    requires '.' !in name
    ensures SplitExtRoot(name) == name
  {
  }

  /** `s.rstrip(c)` for one character. */
  function RStripChar(s: string, c: char): (r: string)
    ensures r <= s
    ensures r == [] || r[|r| - 1] != c
    ensures forall k :: |r| <= k < |s| ==> s[k] == c
  {
    if |s| > 0 && s[|s| - 1] == c then RStripChar(s[..|s| - 1], c) else s
  }

  /** Code-point order, as Python compares `str` values. */
  predicate Less(a: string, b: string)
    decreases |a|
  {
    if |a| == 0 then |b| > 0
    else |b| > 0 && (if a[0] == b[0] then Less(a[1..], b[1..]) else a[0] < b[0])
  }

  lemma {:induction false} LessIrreflexive(a: string)
    ensures !Less(a, a)
    decreases |a|
  {
    if |a| > 0 { LessIrreflexive(a[1..]); }
  }

  lemma {:induction false} LessTransitive(a: string, b: string, c: string)
    requires Less(a, b) && Less(b, c)
    ensures Less(a, c)
    decreases |a|
  {
    if |a| > 0 && a[0] == b[0] && b[0] == c[0] {
      LessTransitive(a[1..], b[1..], c[1..]);
    }
  }

  /** Transitivity in implication form, for use where either premise may fail. */
  lemma LessChain(a: string, b: string, c: string)
    ensures Less(a, b) && Less(b, c) ==> Less(a, c)
  {
    if Less(a, b) && Less(b, c) {
      LessTransitive(a, b, c);
    }
  }

  lemma {:induction false} LessTotal(a: string, b: string)
    ensures a == b || Less(a, b) || Less(b, a)
    decreases |a|
  {
    if |a| > 0 && |b| > 0 && a[0] == b[0] {
      LessTotal(a[1..], b[1..]);
      if a[1..] == b[1..] {
        assert a == [a[0]] + a[1..] && b == [b[0]] + b[1..];
      }
    }
  }

  /** `s.isdigit()` for ASCII digits. */
  predicate IsDigits(s: string) {
    |s| > 0 && forall i :: 0 <= i < |s| ==> IsDigit(s[i])
  }

  function DigitValue(c: char): nat
    requires IsDigit(c)
  {
    c as int - '0' as int
  }

  function DigitChar(n: nat): (c: char)
    requires n < 10
    ensures IsDigit(c) && DigitValue(c) == n
  {
    (n + '0' as int) as char
  }

  /** `int(s)` for a string of ASCII digits. */
  function DecimalValue(s: string): nat
    requires forall i :: 0 <= i < |s| ==> IsDigit(s[i])
  {
    if |s| == 0 then 0 else DecimalValue(s[..|s| - 1]) * 10 + DigitValue(s[|s| - 1])
  }

  /** `str(n)` */
  function Decimal(n: nat): (s: string)
    ensures IsDigits(s)
  {
    if n < 10 then [DigitChar(n)] else Decimal(n / 10) + [DigitChar(n % 10)]
  }

  /** `int(str(n)) == n` */
  lemma {:induction false} DecimalRoundTrip(n: nat)
    ensures DecimalValue(Decimal(n)) == n
  {
    var s := Decimal(n);
    if n >= 10 {
      DecimalRoundTrip(n / 10);
      assert s[..|s| - 1] == Decimal(n / 10);
    }
  }
}

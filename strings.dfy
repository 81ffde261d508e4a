/**
  The few Python `str` operations the scripts rely on, over `seq<char>`.

  `Split`, `Replace` and `Count` scan left to right and never overlap two
  matches, as CPython's `str.split`, `str.replace` and `str.count` do. They
  require a non-empty separator: every call in the scripts passes a non-empty
  literal. Letters, digits and white space are the ASCII ones.
*/
module Strings {

  import opened Wrappers

  predicate IsDigit(c: char) { '0' <= c <= '9' }
  predicate IsAsciiUpper(c: char) { 'A' <= c <= 'Z' }
  predicate IsAsciiLower(c: char) { 'a' <= c <= 'z' }
  predicate IsAsciiLetter(c: char) { IsAsciiUpper(c) || IsAsciiLower(c) }
  predicate IsSpace(c: char) {
    c == ' ' || c == '\t' || c == '\n' || c == '\r' || c == '\U{000B}' || c == '\U{000C}'
  }

  predicate AllDigits(s: string) { forall i :: 0 <= i < |s| ==> IsDigit(s[i]) }

  // ---------------------------------------------------------------------
  // Case, prefixes, containment

  function LowerChar(c: char): (r: char)
    ensures IsAsciiUpper(c) ==> IsAsciiLower(r) && r as int == c as int + 32
    ensures !IsAsciiUpper(c) ==> r == c
  {
    if IsAsciiUpper(c) then (c as int + 32) as char else c
  }

  /** `s.lower()` restricted to ASCII letters. */
  function Lower(s: string): (r: string)
    ensures |r| == |s|
    ensures forall i :: 0 <= i < |s| ==> r[i] == LowerChar(s[i])
  {
    seq(|s|, i requires 0 <= i < |s| => LowerChar(s[i]))
  }

  lemma LowerHasNoUpper(s: string)
    ensures forall i :: 0 <= i < |s| ==> !IsAsciiUpper(Lower(s)[i])
  {
  }

  predicate StartsWith(s: string, p: string) { p <= s }

  predicate EndsWith(s: string, p: string) { |p| <= |s| && s[|s| - |p|..] == p }

  /** `t` occurs in `s` starting at index `i`. */
  predicate OccursAt(s: string, t: string, i: int) {
    0 <= i && i + |t| <= |s| && s[i..i + |t|] == t
  }

  /** `t in s`. */
  predicate Contains(s: string, t: string) {
    exists i :: 0 <= i <= |s| - |t| && OccursAt(s, t, i)
  }

  lemma ContainsPrefix(s: string, t: string)
    requires t <= s
    ensures Contains(s, t)
  {
    assert OccursAt(s, t, 0);
  }

  /** Anything found in a piece of a string is found in the string. */
  lemma ContainsInSlice(s: string, lo: nat, hi: nat, t: string)
    requires lo <= hi <= |s|
    requires Contains(s[lo..hi], t)
    ensures Contains(s, t)
  {
    var i :| 0 <= i <= |s[lo..hi]| - |t| && OccursAt(s[lo..hi], t, i);
    var inner, outer := s[lo..hi][i..i + |t|], s[lo + i..lo + i + |t|];
    forall j | 0 <= j < |t| ensures outer[j] == inner[j] {
      assert inner[j] == s[lo..hi][i + j];
    }
    assert outer == inner;
    assert OccursAt(s, t, lo + i);
  }

  /** `any(t in s for t in ts)`. */
  predicate ContainsAny(s: string, ts: seq<string>) {
    exists k :: 0 <= k < |ts| && Contains(s, ts[k])
  }

  // ---------------------------------------------------------------------
  // split, join, count, replace

  /** `s.split(sep)`. */
  function Split(s: string, sep: string): (parts: seq<string>)
    requires |sep| > 0
    ensures |parts| >= 1
    decreases |s|
  {
    if |s| < |sep| then [s]
    else if s[..|sep|] == sep then [""] + Split(s[|sep|..], sep)
    else
      var rest := Split(s[1..], sep);
      [[s[0]] + rest[0]] + rest[1..]
  }

  /** `sep.join(parts)`. */
  function Join(parts: seq<string>, sep: string): string
    decreases |parts|
  {
    if |parts| == 0 then ""
    else if |parts| == 1 then parts[0]
    else parts[0] + sep + Join(parts[1..], sep)
  }

  /** `s.count(sub)`. */
  function Count(s: string, sub: string): nat
    requires |sub| > 0
    decreases |s|
  {
    if |s| < |sub| then 0
    else if s[..|sub|] == sub then 1 + Count(s[|sub|..], sub)
    else Count(s[1..], sub)
  }

  /** `s.replace(pat, rep)`. */
  function Replace(s: string, pat: string, rep: string): string
    requires |pat| > 0
    decreases |s|
  {
    if |s| < |pat| then s
    else if s[..|pat|] == pat then rep + Replace(s[|pat|..], pat, rep)
    else [s[0]] + Replace(s[1..], pat, rep)
  }

  lemma JoinHead(c: string, parts: seq<string>, sep: string)
    requires |parts| >= 1
    ensures Join([c + parts[0]] + parts[1..], sep) == c + Join(parts, sep)
  {
    var ps := [c + parts[0]] + parts[1..];
    assert ps[1..] == parts[1..];
  }

  lemma JoinEmptyHead(parts: seq<string>, sep: string)
    requires |parts| >= 1
    ensures Join([""] + parts, sep) == sep + Join(parts, sep)
  {
    assert ([""] + parts)[1..] == parts;
  }

  /** Splitting on `sep` and joining with `sep` gives the string back. */
  lemma {:induction false} JoinSplit(s: string, sep: string)
    requires |sep| > 0
    ensures Join(Split(s, sep), sep) == s
    decreases |s|
  {
    if |s| < |sep| {
    } else if s[..|sep|] == sep {
      JoinSplit(s[|sep|..], sep);
      JoinEmptyHead(Split(s[|sep|..], sep), sep);
      assert s == sep + s[|sep|..];
    } else {
      JoinSplit(s[1..], sep);
      JoinHead([s[0]], Split(s[1..], sep), sep);
      assert s == [s[0]] + s[1..];
    }
  }

  /** `s.replace(pat, rep) == rep.join(s.split(pat))`: replacing rewrites every separator between the pieces. */
  lemma {:induction false} ReplaceIsJoinSplit(s: string, pat: string, rep: string)
    requires |pat| > 0
    ensures Replace(s, pat, rep) == Join(Split(s, pat), rep)
    decreases |s|
  {
    if |s| < |pat| {
    } else if s[..|pat|] == pat {
      ReplaceIsJoinSplit(s[|pat|..], pat, rep);
      JoinEmptyHead(Split(s[|pat|..], pat), rep);
    } else {
      ReplaceIsJoinSplit(s[1..], pat, rep);
      JoinHead([s[0]], Split(s[1..], pat), rep);
    }
  }

  /** `len(s.split(sep)) == s.count(sep) + 1`. */
  lemma {:induction false} SplitLength(s: string, sep: string)
    requires |sep| > 0
    ensures |Split(s, sep)| == Count(s, sep) + 1
    decreases |s|
  {
    if |s| < |sep| {
    } else if s[..|sep|] == sep {
      SplitLength(s[|sep|..], sep);
    } else {
      SplitLength(s[1..], sep);
    }
  }

  lemma {:induction false} SplitFirstIsPrefix(s: string, sep: string)
    requires |sep| > 0
    ensures Split(s, sep)[0] <= s
    decreases |s|
  {
    if |s| < |sep| {
    } else if s[..|sep|] == sep {
    } else {
      SplitFirstIsPrefix(s[1..], sep);
      var r := Split(s[1..], sep);
      assert [s[0]] + r[0] <= [s[0]] + s[1..];
      assert [s[0]] + s[1..] == s;
    }
  }

  /** No piece produced by `split` contains the separator. */
  lemma {:induction false} SplitPiecesAvoidSeparator(s: string, sep: string)
    requires |sep| > 0
    ensures forall k :: 0 <= k < |Split(s, sep)| ==> !Contains(Split(s, sep)[k], sep)
    decreases |s|
  {
    var parts := Split(s, sep);
    if |s| < |sep| {
    } else if s[..|sep|] == sep {
      SplitPiecesAvoidSeparator(s[|sep|..], sep);
      var rest := Split(s[|sep|..], sep);
      assert parts == [""] + rest;
      forall k | 0 <= k < |parts| ensures !Contains(parts[k], sep) {
        if k > 0 {
          assert parts[k] == rest[k - 1];
        }
      }
    } else {
      SplitPiecesAvoidSeparator(s[1..], sep);
      SplitFirstIsPrefix(s[1..], sep);
      var rest := Split(s[1..], sep);
      var head := [s[0]] + rest[0];
      assert parts == [head] + rest[1..];
      HeadAvoidsSeparator(s, sep, rest[0]);
      forall k | 0 <= k < |parts| ensures !Contains(parts[k], sep) {
        if k > 0 {
          assert parts[k] == rest[k];
        }
      }
    }
  }

  /** A first character that does not start the separator, before a prefix of the rest free of it, stays free of it. */
  lemma HeadAvoidsSeparator(s: string, sep: string, r0: string)
    requires 0 < |sep| <= |s| && s[..|sep|] != sep
    requires r0 <= s[1..] && !Contains(r0, sep)
    ensures !Contains([s[0]] + r0, sep)
  {
    var head := [s[0]] + r0;
    assert head <= s by {
      assert [s[0]] + r0 <= [s[0]] + s[1..];
      assert [s[0]] + s[1..] == s;
    }
    if |sep| <= |head| {
      assert head[..|sep|] == s[..|sep|];
    }
    if Contains(head, sep) {
      var i :| 0 <= i <= |head| - |sep| && OccursAt(head, sep, i);
      if i == 0 {
        assert false;
      } else {
        assert head[i..i + |sep|] == r0[i - 1..i - 1 + |sep|];
        assert OccursAt(r0, sep, i - 1);
        assert false;
      }
    }
  }

  /** `s.count(t) > 0` exactly when `t in s`. */
  lemma {:induction false} CountPositiveIffContains(s: string, t: string)
    requires |t| > 0
    ensures Count(s, t) > 0 <==> Contains(s, t)
    decreases |s|
  {
    if |s| < |t| {
    } else if s[..|t|] == t {
      assert OccursAt(s, t, 0);
    } else {
      CountPositiveIffContains(s[1..], t);
      if Contains(s[1..], t) {
        assert s[1..|s|] == s[1..];
        ContainsInSlice(s, 1, |s|, t);
      }
      if Contains(s, t) {
        var i :| 0 <= i <= |s| - |t| && OccursAt(s, t, i);
        assert i != 0;
        assert s[1..][i - 1..i - 1 + |t|] == t;
        assert OccursAt(s[1..], t, i - 1);
      }
    }
  }

  /** Splitting on a one-character separator peels off the text before its first occurrence. */
  lemma {:induction false} SplitAtFirst(a: string, c: char, b: string)
    requires c !in a
    ensures Split(a + [c] + b, [c]) == [a] + Split(b, [c])
    decreases |a|
  {
    var s := a + [c] + b;
    if |a| == 0 {
      assert s[..1] == [c] && s[1..] == b;
    } else {
      assert s[0] == a[0] && a[0] != c;
      assert s[..1][0] == s[0];
      assert s[1..] == a[1..] + [c] + b;
      SplitAtFirst(a[1..], c, b);
      assert [s[0]] + a[1..] == a;
    }
  }

  /** A string without the separator splits into itself. */
  lemma {:induction false} SplitWithoutSeparator(s: string, c: char)
    requires c !in s
    ensures Split(s, [c]) == [s]
    decreases |s|
  {
    if |s| > 0 {
      assert s[..1][0] == s[0] && s[0] != c;
      SplitWithoutSeparator(s[1..], c);
      assert [s[0]] + s[1..] == s;
    }
  }

  /** `sep.join(parts)` has no `c` when neither the parts nor the separator have one. */
  lemma {:induction false} JoinAvoids(parts: seq<string>, sep: string, c: char)
    requires forall k :: 0 <= k < |parts| ==> c !in parts[k]
    requires c !in sep
    ensures c !in Join(parts, sep)
    decreases |parts|
  {
    if |parts| > 1 {
      JoinAvoids(parts[1..], sep, c);
    }
  }

  /** `s` has no ASCII upper-case letter. */
  predicate NoUpper(s: string) { forall i :: 0 <= i < |s| ==> !IsAsciiUpper(s[i]) }

  /** `sep.join(parts)` has no upper-case letter when neither the parts nor the separator have one. */
  lemma {:induction false} JoinNoUpper(parts: seq<string>, sep: string)
    requires forall k :: 0 <= k < |parts| ==> NoUpper(parts[k])
    requires NoUpper(sep)
    ensures NoUpper(Join(parts, sep))
    decreases |parts|
  {
    if |parts| > 1 {
      JoinNoUpper(parts[1..], sep);
      var rest := Join(parts[1..], sep);
      assert Join(parts, sep) == parts[0] + sep + rest;
      forall i | 0 <= i < |Join(parts, sep)| ensures !IsAsciiUpper(Join(parts, sep)[i]) {
        if i < |parts[0]| {
        } else if i < |parts[0]| + |sep| {
          assert Join(parts, sep)[i] == sep[i - |parts[0]|];
        } else {
          assert Join(parts, sep)[i] == rest[i - |parts[0]| - |sep|];
        }
      }
    }
  }

  /** Lower-casing keeps every character that is not an upper-case letter. */
  lemma LowerAvoids(s: string, c: char)
    requires c !in s && !IsAsciiUpper(c) && !IsAsciiLower(c)
    ensures c !in Lower(s)
  {
  }

  /** Replacing something absent changes nothing. */
  lemma ReplaceAbsent(s: string, pat: string, rep: string)
    requires |pat| > 0
    requires !Contains(s, pat)
    ensures Replace(s, pat, rep) == s
  {
    CountPositiveIffContains(s, pat);
    SplitLength(s, pat);
    ReplaceIsJoinSplit(s, pat, rep);
    JoinSplit(s, pat);
  }

  // ---------------------------------------------------------------------
  // Digits and numbers

  /** Length of the run of digits that starts `s`. */
  function LeadingDigits(s: string): (k: nat)
    ensures k <= |s|
    ensures forall i :: 0 <= i < k ==> IsDigit(s[i])
    ensures k < |s| ==> !IsDigit(s[k])
    decreases |s|
  {
    if |s| == 0 || !IsDigit(s[0]) then 0 else 1 + LeadingDigits(s[1..])
  }

  function DigitValue(c: char): nat
    requires IsDigit(c)
  {
    c as int - '0' as int
  }

  /** `int(s)` for a string of digits. */
  function DigitsValue(s: string): nat
    requires AllDigits(s)
    decreases |s|
  {
    if |s| == 0 then 0 else DigitsValue(s[..|s| - 1]) * 10 + DigitValue(s[|s| - 1])
  }

  function DigitChar(d: nat): (c: char)
    requires d < 10
    ensures IsDigit(c) && DigitValue(c) == d
  {
    ('0' as int + d) as char
  }

  /** `str(n)`. */
  function NatToString(n: nat): (s: string)
    ensures |s| > 0 && AllDigits(s)
    ensures n < 10 <==> |s| == 1
    decreases n
  {
    if n < 10 then [DigitChar(n)] else NatToString(n / 10) + [DigitChar(n % 10)]
  }

  /** `str(n)` for an int. */
  function IntToString(n: int): string {
    if n < 0 then "-" + NatToString(-n) else NatToString(n)
  }

  /** `int(str(n)) == n`. */
  lemma {:induction false} NatToStringRoundTrip(n: nat)
    ensures DigitsValue(NatToString(n)) == n
    decreases n
  {
    var s := NatToString(n);
    if n < 10 {
      assert s[..0] == [];
    } else {
      NatToStringRoundTrip(n / 10);
      assert s[..|s| - 1] == NatToString(n / 10);
    }
  }

  /** `int(s)` where only plain digit strings parse. */
  function ParseNat(s: string): (r: Option<nat>)
    ensures r.Some? <==> |s| > 0 && AllDigits(s)
  {
    if |s| > 0 && AllDigits(s) then Some(DigitsValue(s)) else None
  }

  lemma ParseNatToString(n: nat)
    ensures ParseNat(NatToString(n)) == Some(n)
  {
    NatToStringRoundTrip(n);
  }

  /** `s.zfill(width)` for a digit string: left-pad with zeros. */
  function ZeroPad(s: string, width: nat): (r: string)
    ensures |r| == if |s| < width then width else |s|
    ensures AllDigits(s) ==> AllDigits(r)
    decreases width - |s|
  {
    if |s| < width then ZeroPad("0" + s, width) else s
  }

  /** Leading zeros do not change the value of a digit string. */
  lemma {:induction false} DigitsValueLeadingZero(s: string)
    requires AllDigits(s)
    ensures AllDigits("0" + s) && DigitsValue("0" + s) == DigitsValue(s)
    decreases |s|
  {
    var z := "0" + s;
    if |s| == 0 {
      assert z[..0] == [];
    } else {
      var init := s[..|s| - 1];
      assert z[..|z| - 1] == "0" + init;
      DigitsValueLeadingZero(init);
    }
  }

  /** `int(s.zfill(width)) == int(s)`. */
  lemma {:induction false} ZeroPadValue(s: string, width: nat)
    requires AllDigits(s)
    ensures DigitsValue(ZeroPad(s, width)) == DigitsValue(s)
    decreases width - |s|
  {
    if |s| < width {
      DigitsValueLeadingZero(s);
      ZeroPadValue("0" + s, width);
    }
  }

  /** `int(str(n).zfill(width)) == n`: a zero-padded number parses back. */
  lemma ParseNatZeroPad(n: nat, width: nat)
    ensures ParseNat(ZeroPad(NatToString(n), width)) == Some(n)
  {
    NatToStringRoundTrip(n);
    ZeroPadValue(NatToString(n), width);
  }

  /** `re.findall(r'\d+', s)` read as numbers: the value of every maximal run of digits, left to right. */
  function Numbers(s: string): (ns: seq<nat>)
    decreases |s|
  {
    if |s| == 0 then []
    else if IsDigit(s[0]) then
      var k := LeadingDigits(s);
      [DigitsValue(s[..k])] + Numbers(s[k..])
    else Numbers(s[1..])
  }

  /** `re.findall(r'\d+', s)` is empty exactly when `s` has no digit. */
  lemma {:induction false} NumbersEmptyIffNoDigit(s: string)
    ensures Numbers(s) == [] <==> forall i :: 0 <= i < |s| ==> !IsDigit(s[i])
    decreases |s|
  {
    if |s| == 0 {
    } else if IsDigit(s[0]) {
    } else {
      NumbersEmptyIffNoDigit(s[1..]);
      assert forall i :: 1 <= i < |s| ==> s[i] == s[1..][i - 1];
    }
  }

  // ---------------------------------------------------------------------
  // strip

  function StripLeft(s: string): (r: string)
    ensures |r| <= |s| && r == s[|s| - |r|..]
    ensures forall i :: 0 <= i < |s| - |r| ==> IsSpace(s[i])
    ensures r == [] || !IsSpace(r[0])
    decreases |s|
  {
    if |s| > 0 && IsSpace(s[0]) then StripLeft(s[1..]) else s
  }

  function StripRight(s: string): (r: string)
    ensures |r| <= |s| && r == s[..|r|]
    ensures forall i :: |r| <= i < |s| ==> IsSpace(s[i])
    ensures r == [] || !IsSpace(r[|r| - 1])
    decreases |s|
  {
    if |s| > 0 && IsSpace(s[|s| - 1]) then StripRight(s[..|s| - 1]) else s
  }

  /** `s.strip()`: the string without its leading and trailing white space. */
  function Strip(s: string): (r: string)
    ensures Contains(s, r)
    ensures r == [] || (!IsSpace(r[0]) && !IsSpace(r[|r| - 1]))
  {
    var l := StripLeft(s);
    var r := StripRight(l);
    assert OccursAt(s, r, |s| - |l|);
    r
  }

  // ---------------------------------------------------------------------
  // Character classes, first occurrences, split and join as inverses

  /** Every character of `s` satisfies `P`. */
  predicate AllChars(s: string, P: char -> bool) {
    forall i :: 0 <= i < |s| ==> P(s[i])
  }

  /** Replacing with text of a character class keeps a string of that class inside it. */
  lemma {:induction false} ReplaceKeepsChars(s: string, pat: string, rep: string, P: char -> bool)
    requires |pat| > 0 && AllChars(s, P) && AllChars(rep, P)
    ensures AllChars(Replace(s, pat, rep), P)
    decreases |s|
  {
    if |s| < |pat| {
    } else if s[..|pat|] == pat {
      ReplaceKeepsChars(s[|pat|..], pat, rep, P);
    } else {
      ReplaceKeepsChars(s[1..], pat, rep, P);
    }
  }

  /** A replacement that is not empty leaves a non-empty string non-empty. */
  lemma ReplaceNonEmpty(s: string, pat: string, rep: string)
    requires |pat| > 0 && |s| > 0 && |rep| > 0
    ensures |Replace(s, pat, rep)| > 0
  {
  }

  /** `s.replace(c, rep)` has no `c` left when `rep` has none. */
  lemma ReplaceRemovesChar(s: string, c: char, rep: string)
    requires c !in rep
    ensures c !in Replace(s, [c], rep)
  {
    ReplaceIsJoinSplit(s, [c], rep);
    SplitPiecesAvoidSeparator(s, [c]);
    var parts := Split(s, [c]);
    forall k | 0 <= k < |parts| ensures c !in parts[k] {
      if c in parts[k] {
        var i :| 0 <= i < |parts[k]| && parts[k][i] == c;
        assert OccursAt(parts[k], [c], i);
      }
    }
    JoinAvoids(parts, rep, c);
  }

  /** Text that does not hold the first character of `pat` is copied through, and a final `pat` is replaced. */
  lemma {:induction false} ReplaceFinal(a: string, pat: string, rep: string)
    requires |pat| > 0 && pat[0] !in a
    ensures Replace(a + pat, pat, rep) == a + rep
    decreases |a|
  {
    var s := a + pat;
    if |a| == 0 {
      assert s == pat && s[|pat|..] == [];
    } else {
      assert s[..|pat|] != pat by {
        assert s[..|pat|][0] == a[0] && a[0] != pat[0];
      }
      assert Replace(s, pat, rep) == [a[0]] + Replace(s[1..], pat, rep);
      assert s[1..] == a[1..] + pat;
      ReplaceFinal(a[1..], pat, rep);
      assert [a[0]] + a[1..] == a;
    }
  }

  /** Joining a prefix of the pieces gives a prefix of the joined text. */
  lemma {:induction false} JoinPrefix(parts: seq<string>, n: nat, sep: string)
    requires 1 <= n <= |parts|
    ensures Join(parts[..n], sep) <= Join(parts, sep)
    decreases n
  {
    if n > 1 {
      JoinPrefix(parts[1..], n - 1, sep);
      assert parts[..n][1..] == parts[1..][..n - 1];
    }
  }

  /** Joining two or more pieces leaves at least one separator in the text. */
  lemma JoinLength(parts: seq<string>, sep: string)
    requires |parts| >= 2
    ensures |Join(parts, sep)| >= |sep|
  {
  }

  /** Splitting undoes joining when no piece holds the one-character separator. */
  lemma {:induction false} SplitJoin(parts: seq<string>, c: char)
    requires |parts| >= 1
    requires forall k :: 0 <= k < |parts| ==> c !in parts[k]
    ensures Split(Join(parts, [c]), [c]) == parts
    decreases |parts|
  {
    if |parts| == 1 {
      SplitWithoutSeparator(parts[0], c);
    } else {
      SplitJoin(parts[1..], c);
      SplitAtFirst(parts[0], c, Join(parts[1..], [c]));
      assert Join(parts, [c]) == parts[0] + [c] + Join(parts[1..], [c]);
      assert parts == [parts[0]] + parts[1..];
    }
  }

  /** No piece of `s.split(c)` holds `c`. */
  lemma SplitPiecesAvoidChar(s: string, c: char)
    ensures forall k :: 0 <= k < |Split(s, [c])| ==> c !in Split(s, [c])[k]
  {
    SplitPiecesAvoidSeparator(s, [c]);
    var parts := Split(s, [c]);
    forall k | 0 <= k < |parts| ensures c !in parts[k] {
      if c in parts[k] {
        var i :| 0 <= i < |parts[k]| && parts[k][i] == c;
        assert OccursAt(parts[k], [c], i);
      }
    }
  }

  /** A text that the first character of `t` does not occur in cannot hold the start of an occurrence of `t`. */
  lemma ContainsAfterPrefix(p: string, b: string, t: string)
    requires |t| > 0 && t[0] !in p
    requires Contains(p + b, t)
    ensures Contains(b, t)
  {
    var s := p + b;
    var i :| 0 <= i <= |s| - |t| && OccursAt(s, t, i);
    var inner, outer := s[i..i + |t|], b[i - |p|..i - |p| + |t|];
    forall j | 0 <= j < |t| ensures outer[j] == inner[j] {
    }
    assert outer == inner;
    assert OccursAt(b, t, i - |p|);
  }

  /** Something found inside a found text is found in the whole. */
  lemma ContainsTrans(a: string, b: string, t: string)
    requires Contains(a, b) && Contains(b, t)
    ensures Contains(a, t)
  {
    var i :| 0 <= i <= |a| - |b| && OccursAt(a, b, i);
    ContainsInSlice(a, i, i + |b|, t);
  }

  /** `s.replace(pat, rep)` changes the length by the difference for each counted occurrence. */
  lemma {:induction false} ReplaceLength(s: string, pat: string, rep: string)
    requires |pat| > 0
    ensures |Replace(s, pat, rep)| == |s| + Count(s, pat) * (|rep| - |pat|)
    decreases |s|
  {
    var d := |rep| - |pat|;
    if |s| < |pat| {
    } else if s[..|pat|] == pat {
      var rest := s[|pat|..];
      ReplaceLength(rest, pat, rep);
      var c := Count(rest, pat);
      assert Replace(s, pat, rep) == rep + Replace(rest, pat, rep);
      assert Count(s, pat) == 1 + c;
      assert |Replace(rest, pat, rep)| == |s| - |pat| + c * d;
      MulSucc(c, d);
    } else {
      ReplaceLength(s[1..], pat, rep);
      assert Replace(s, pat, rep) == [s[0]] + Replace(s[1..], pat, rep);
      assert Count(s, pat) == Count(s[1..], pat);
    }
  }

  lemma MulSucc(c: int, d: int)
    ensures (1 + c) * d == d + c * d
  {
  }

  /** Replacing a pattern that occurs leaves the replacement in the text. */
  lemma {:induction false} ReplaceKeepsRep(s: string, pat: string, rep: string)
    requires |pat| > 0 && Contains(s, pat)
    ensures Contains(Replace(s, pat, rep), rep)
    decreases |s|
  {
    var r := Replace(s, pat, rep);
    if s[..|pat|] == pat {
      assert OccursAt(r, rep, 0);
    } else {
      var i :| 0 <= i <= |s| - |pat| && OccursAt(s, pat, i);
      assert i != 0;
      assert s[1..][i - 1..i - 1 + |pat|] == pat;
      assert OccursAt(s[1..], pat, i - 1);
      ReplaceKeepsRep(s[1..], pat, rep);
      assert r[1..|r|] == Replace(s[1..], pat, rep);
      ContainsInSlice(r, 1, |r|, rep);
    }
  }

  /** `s.find(c)`, or `|s|` when `c` does not occur. */
  function FirstIndex(s: string, c: char): (k: nat)
    ensures k <= |s|
    ensures forall i :: 0 <= i < k ==> s[i] != c
    ensures k < |s| ==> s[k] == c
    ensures k == |s| <==> c !in s
    decreases |s|
  {
    if |s| == 0 then 0 else if s[0] == c then 0 else 1 + FirstIndex(s[1..], c)
  }

  lemma FirstIndexAfter(a: string, c: char, b: string)
    requires c !in a
    ensures FirstIndex(a + b, c) == |a| + FirstIndex(b, c)
  {
    var k, s := FirstIndex(b, c), a + b;
    assert forall i :: 0 <= i < |a| + k ==> s[i] != c by {
      forall i | 0 <= i < |a| + k ensures s[i] != c {
        if i >= |a| {
          assert s[i] == b[i - |a|];
        }
      }
    }
    if k < |b| {
      assert s[|a| + k] == b[k];
    }
  }

  /** The run of digits at the start of `d + [x] + rest`, where `x` is not a digit, is `d`. */
  lemma {:induction false} LeadingDigitsOf(d: string, x: char, rest: string)
    requires AllDigits(d) && !IsDigit(x)
    ensures LeadingDigits(d + [x] + rest) == |d|
    decreases |d|
  {
    if |d| > 0 {
      assert (d + [x] + rest)[1..] == d[1..] + [x] + rest;
      LeadingDigitsOf(d[1..], x, rest);
    }
  }

  /** `str(n)` of a four-digit number has four characters. */
  lemma NatToStringLength4(n: nat)
    requires 1000 <= n <= 9999
    ensures |NatToString(n)| == 4
  {
    assert n / 100 / 10 == n / 1000 && n / 10 / 10 == n / 100;
    assert |NatToString(n / 1000)| == 1;
    assert |NatToString(n / 100)| == 2;
    assert |NatToString(n / 10)| == 3;
  }

  /** `str(n)` of a number below 100 has at most two characters. */
  lemma NatToStringBelow100(n: nat)
    requires n < 100
    ensures |NatToString(n)| <= 2
  {
  }
}

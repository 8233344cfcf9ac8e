/**
 * Python string operations used throughout the checker, on `string` = `seq<char>`
 * (one `char` per Unicode code point, as Python's `str` counts them).
 *
 * Whitespace is the set `str.isspace()` and the regular-expression class `\s`
 * accept; digits, letters and case mapping are the ASCII ones.
 */
module Text {
  import opened Wrappers

  /** Python `str.isspace()` / regex `\s` on one code point. */
  predicate IsSpace(c: char) {
    c == ' ' || c == '\t' || c == '\n' || c == '\r' || c == '\U{000B}' || c == '\U{000C}'
    || ('\U{001C}' <= c <= '\U{001F}') || c == '\U{0085}' || c == '\U{00A0}' || c == '\U{1680}'
    || ('\U{2000}' <= c <= '\U{200A}') || c == '\U{2028}' || c == '\U{2029}' || c == '\U{202F}'
    || c == '\U{205F}' || c == '\U{3000}'
  }

  predicate IsDigit(c: char) { '0' <= c <= '9' }
  predicate IsUpperAscii(c: char) { 'A' <= c <= 'Z' }
  predicate IsLowerAscii(c: char) { 'a' <= c <= 'z' }
  predicate IsLetterAscii(c: char) { IsUpperAscii(c) || IsLowerAscii(c) }
  predicate IsAlnumAscii(c: char) { IsLetterAscii(c) || IsDigit(c) }

  /** The CJK range `[一-龥]` the checker's patterns use for "a Chinese character". */
  predicate IsCjk(c: char) { '\U{4E00}' <= c <= '\U{9FA5}' }

  /** Every character is an ASCII digit and there is at least one (Python `str.isdigit()`). */
  predicate AllDigits(s: string) { |s| > 0 && forall i :: 0 <= i < |s| ==> IsDigit(s[i]) }

  predicate NoSpace(s: string) { forall i :: 0 <= i < |s| ==> !IsSpace(s[i]) }

  function LowerChar(c: char): char {
    if IsUpperAscii(c) then (c as int + 32) as char else c
  }

  function UpperChar(c: char): char {
    if IsLowerAscii(c) then (c as int - 32) as char else c
  }

  /** Python `str.lower()` on the ASCII letters. */
  function Lower(s: string): (r: string)
    ensures |r| == |s|
    ensures forall i :: 0 <= i < |s| ==> r[i] == LowerChar(s[i])
  {
    seq(|s|, i requires 0 <= i < |s| => LowerChar(s[i]))
  }

  /** Python `str.upper()` on the ASCII letters. */
  function Upper(s: string): (r: string)
    ensures |r| == |s|
    ensures forall i :: 0 <= i < |s| ==> r[i] == UpperChar(s[i])
  {
    seq(|s|, i requires 0 <= i < |s| => UpperChar(s[i]))
  }

  // ---------------------------------------------------------------- searching

  /** `pat` occurs in `s` starting at index `i`. */
  predicate OccursAt(s: string, pat: string, i: int) {
    0 <= i && i + |pat| <= |s| && s[i..i + |pat|] == pat
  }

  /** Python `pat in s`. */
  predicate Contains(s: string, pat: string) {
    exists i | 0 <= i <= |s| - |pat| :: OccursAt(s, pat, i)
  }

  /** `any(k in s for k in pats)`. */
  predicate AnyIn(pats: seq<string>, s: string) {
    exists k :: k in pats && Contains(s, k)
  }

  /** `pat[j..]` agrees with `s` from index `i + j` on: the character-by-character comparison `find` makes at `i`. */
  predicate MatchesFrom(s: string, pat: string, i: nat, j: nat)
    requires j <= |pat|
    decreases |pat| - j
  {
    j == |pat| || (i + j < |s| && s[i + j] == pat[j] && MatchesFrom(s, pat, i, j + 1))
  }

  lemma {:induction false} MatchesFromAll(s: string, pat: string, i: nat, j: nat)
    requires j <= |pat| && i + |pat| <= |s|
    ensures MatchesFrom(s, pat, i, j) <==> forall k :: j <= k < |pat| ==> s[i + k] == pat[k]
    decreases |pat| - j
  {
    if j < |pat| {
      MatchesFromAll(s, pat, i, j + 1);
    }
  }

  /** Comparing character by character at `i` decides whether `pat` occurs at `i`. */
  lemma MatchesOccurs(s: string, pat: string, i: nat)
    requires i + |pat| <= |s|
    ensures MatchesFrom(s, pat, i, 0) <==> OccursAt(s, pat, i)
  {
    MatchesFromAll(s, pat, i, 0);
    var w := s[i..i + |pat|];
    assert forall k :: 0 <= k < |pat| ==> w[k] == s[i + k];
  }

  /** Python `s.find(pat, from)`: the first occurrence at or after `from`, or -1 (see `FindFromFound` and `FindFromFirst`). */
  function FindFrom(s: string, pat: string, from: nat): (r: int)
    ensures r == -1 || (from <= r && r + |pat| <= |s|)
    decreases |s| - from
  {
    if from + |pat| > |s| then -1
    else if MatchesFrom(s, pat, from, 0) then from
    else FindFrom(s, pat, from + 1)
  }

  /** What `FindFrom` finds is an occurrence. */
  lemma {:induction false} FindFromFound(s: string, pat: string, from: nat)
    ensures FindFrom(s, pat, from) != -1 ==> OccursAt(s, pat, FindFrom(s, pat, from))
    decreases |s| - from
  {
    if from + |pat| <= |s| {
      MatchesOccurs(s, pat, from);
      if !MatchesFrom(s, pat, from, 0) {
        FindFromFound(s, pat, from + 1);
      }
    }
  }

  /** `FindFrom` finds the first occurrence, and -1 means there is none. */
  lemma {:induction false} FindFromFirst(s: string, pat: string, from: nat)
    ensures FindFrom(s, pat, from) == -1 ==> forall i :: from <= i ==> !OccursAt(s, pat, i)
    ensures FindFrom(s, pat, from) != -1 ==> forall i :: from <= i < FindFrom(s, pat, from) ==> !OccursAt(s, pat, i)
    decreases |s| - from
  {
    if from + |pat| <= |s| {
      MatchesOccurs(s, pat, from);
      if !MatchesFrom(s, pat, from, 0) {
        FindFromFirst(s, pat, from + 1);
      }
    }
  }

  /** An occurrence inside the slice `s[a..b]` is an occurrence in `s`, shifted by `a`. */
  lemma OccursInSlice(s: string, a: nat, b: nat, pat: string, k: int)
    requires a <= b <= |s|
    ensures OccursAt(s[a..b], pat, k) <==> k >= 0 && k + |pat| <= b - a && OccursAt(s, pat, a + k)
  {
    if k >= 0 && k + |pat| <= b - a {
      var x := s[a..b][k..k + |pat|];
      var y := s[a + k..a + k + |pat|];
      assert |x| == |y|;
      forall j | 0 <= j < |x| ensures x[j] == y[j] {
        assert x[j] == s[a..b][k + j] == s[a + k + j];
      }
      assert x == y;
    }
  }

  /** `k` is the first occurrence of `pat` at or after `from`. */
  predicate FirstAt(s: string, pat: string, from: nat, k: int) {
    from <= k && OccursAt(s, pat, k) && forall i :: from <= i < k ==> !OccursAt(s, pat, i)
  }

  /** `FindFrom` answers the first occurrence, whenever it answers one. */
  lemma FindFromFirstAt(s: string, pat: string, from: nat)
    ensures FindFrom(s, pat, from) != -1 ==> FirstAt(s, pat, from, FindFrom(s, pat, from))
  {
    FindFromFound(s, pat, from);
    FindFromFirst(s, pat, from);
  }

  /** The first occurrence at or after `from` is what `FindFrom` answers. */
  lemma FindFromIs(s: string, pat: string, from: nat, k: int)
    requires FirstAt(s, pat, from, k)
    ensures FindFrom(s, pat, from) == k
  {
    FindFromFirstAt(s, pat, from);
    FindFromFirst(s, pat, from);
  }

  /** Python `s.find(pat)`. */
  function Find(s: string, pat: string): (r: int)
    ensures r == -1 <==> !Contains(s, pat)
    ensures r != -1 ==> OccursAt(s, pat, r) && forall i :: 0 <= i < r ==> !OccursAt(s, pat, i)
  {
    FindFromFound(s, pat, 0);
    FindFromFirst(s, pat, 0);
    FindFrom(s, pat, 0)
  }

  /** `Find` answers the first occurrence, wherever that is. */
  lemma FindIsFirst(s: string, pat: string)
    ensures forall k :: FirstAt(s, pat, 0, k) ==> Find(s, pat) == k
  {
    forall k | FirstAt(s, pat, 0, k) ensures Find(s, pat) == k {
      FindIs(s, pat, k);
    }
  }

  /** The first occurrence is what `Find` answers. */
  lemma FindIs(s: string, pat: string, k: int)
    requires FirstAt(s, pat, 0, k)
    ensures Find(s, pat) == k
  {
    FindFromIs(s, pat, 0, k);
  }

  predicate StartsWith(s: string, p: string) { |p| <= |s| && s[..|p|] == p }
  predicate EndsWith(s: string, p: string) { |p| <= |s| && s[|s| - |p|..] == p }

  /** The first index at or after `i` whose character is not an ASCII digit. */
  function DigitRunEnd(s: string, i: nat): (j: nat)
    requires i <= |s|
    ensures i <= j <= |s|
    ensures forall k :: i <= k < j ==> IsDigit(s[k])
    ensures j == |s| || !IsDigit(s[j])
    decreases |s| - i
  {
    if i < |s| && IsDigit(s[i]) then DigitRunEnd(s, i + 1) else i
  }

  /** A digit run from `a` that stops at `k` ends at `k`. */
  lemma {:induction false} DigitRunEndIs(s: string, a: nat, k: nat)
    requires a <= k <= |s| && (forall m :: a <= m < k ==> IsDigit(s[m])) && (k == |s| || !IsDigit(s[k]))
    ensures DigitRunEnd(s, a) == k
    decreases k - a
  {
    if a < k {
      DigitRunEndIs(s, a + 1, k);
    }
  }

  /** `\d{1,2}` from `a`, greedy. */
  function UpToTwoDigits(s: string, a: nat): (r: Option<nat>)
    requires a <= |s|
    ensures r.Some? ==> a < r.value <= a + 2 && r.value <= |s| && forall m :: a <= m < r.value ==> IsDigit(s[m])
  {
    if a < |s| && IsDigit(s[a]) then
      (if a + 1 < |s| && IsDigit(s[a + 1]) then Some(a + 2) else Some(a + 1))
    else None
  }

  /** `\d{n}` at `a`. */
  predicate HasDigitsAt(s: string, a: nat, n: nat) {
    a + n <= |s| && forall m :: a <= m < a + n ==> IsDigit(s[m])
  }

  /** The first index at or after `i` whose character is not whitespace. */
  function SpaceRunEnd(s: string, i: nat): (j: nat)
    requires i <= |s|
    ensures i <= j <= |s|
    ensures forall k :: i <= k < j ==> IsSpace(s[k])
    ensures j == |s| || !IsSpace(s[j])
    decreases |s| - i
  {
    if i < |s| && IsSpace(s[i]) then SpaceRunEnd(s, i + 1) else i
  }

  /** A whitespace run from `a` that stops at `k` ends at `k`. */
  lemma {:induction false} SpaceRunEndIs(s: string, a: nat, k: nat)
    requires a <= k <= |s| && (forall m :: a <= m < k ==> IsSpace(s[m])) && (k == |s| || !IsSpace(s[k]))
    ensures SpaceRunEnd(s, a) == k
    decreases k - a
  {
    if a < k {
      SpaceRunEndIs(s, a + 1, k);
    }
  }

  /** Python `s.count(pat)`: non-overlapping occurrences, scanning left to right. */
  function CountFrom(s: string, pat: string, from: nat): (n: nat)
    requires |pat| > 0
    decreases |s| - from
  {
    var k := FindFrom(s, pat, from);
    if k == -1 then 0 else 1 + CountFrom(s, pat, k + |pat|)
  }

  /** No occurrence starts at or after `from` when the pattern's first character does not appear there. */
  lemma {:induction false} FindFromAbsent(s: string, pat: string, from: nat)
    requires pat != [] && from <= |s|
    requires forall i :: from <= i < |s| ==> s[i] != pat[0]
    ensures FindFrom(s, pat, from) == -1
    decreases |s| - from
  {
    if from + |pat| <= |s| {
      FindFromAbsent(s, pat, from + 1);
    }
  }

  /** The search from `from` stops at `k` when the pattern occurs there and its first character does not appear before. */
  lemma {:induction false} FindFromAt(s: string, pat: string, from: nat, k: nat)
    requires pat != [] && from <= k && OccursAt(s, pat, k)
    requires forall i :: from <= i < k ==> s[i] != pat[0]
    ensures FindFrom(s, pat, from) == k
    decreases k - from
  {
    if from < k {
      FindFromAt(s, pat, from + 1, k);
    } else {
      MatchesOccurs(s, pat, k);
    }
  }

  /** `s.count(pat)` from `from` is 0 when the pattern's first character does not appear there. */
  lemma CountFromAbsent(s: string, pat: string, from: nat)
    requires pat != [] && from <= |s|
    requires forall i :: from <= i < |s| ==> s[i] != pat[0]
    ensures CountFrom(s, pat, from) == 0
  {
    FindFromAbsent(s, pat, from);
  }

  /** `s.count(pat)` from `from` is 1 when the pattern's first character appears there only where the one occurrence at `k` starts. */
  lemma CountFromOnce(s: string, pat: string, from: nat, k: nat)
    requires pat != [] && from <= k && OccursAt(s, pat, k)
    requires forall i :: from <= i < |s| && i != k ==> s[i] != pat[0]
    ensures CountFrom(s, pat, from) == 1
  {
    FindFromAt(s, pat, from, k);
    assert k + |pat| <= |s|;
    FindFromAbsent(s, pat, k + |pat|);
  }

  // ---------------------------------------------------------------- stripping

  /** The end of the whitespace run that ends at `j`: the smallest `k <= j` with `s[k..j]` all whitespace. */
  function SpaceRunStart(s: string, j: nat): (k: nat)
    requires j <= |s|
    ensures k <= j
    ensures forall m :: k <= m < j ==> IsSpace(s[m])
    ensures k == 0 || !IsSpace(s[k - 1])
  {
    if j > 0 && IsSpace(s[j - 1]) then SpaceRunStart(s, j - 1) else j
  }

  /** Python `s.lstrip()`. */
  function TrimStart(s: string): (r: string)
    ensures |r| <= |s|
    ensures r == [] || !IsSpace(r[0])
  {
    s[SpaceRunEnd(s, 0)..]
  }

  /** Python `s.rstrip()`. */
  function TrimEnd(s: string): (r: string)
    ensures |r| <= |s|
    ensures r == [] || !IsSpace(r[|r| - 1])
  {
    s[..SpaceRunStart(s, |s|)]
  }

  predicate IsStripped(s: string) { s == [] || (!IsSpace(s[0]) && !IsSpace(s[|s| - 1])) }

  /** Python `s.strip()`: no whitespace at either end, and nothing changes when there is none. */
  function Strip(s: string): (r: string)
    ensures |r| <= |s|
    ensures IsStripped(r)
    ensures IsStripped(s) ==> r == s
  {
    var t := TrimStart(s);
    assert IsStripped(s) && s != [] ==> SpaceRunEnd(s, 0) == 0;
    var r := TrimEnd(t);
    assert r != [] ==> r[0] == t[0];
    assert IsStripped(t) && t != [] ==> SpaceRunStart(t, |t|) == |t|;
    r
  }

  /** Whitespace followed by text with no whitespace at either end strips to that text. */
  lemma StripAfterSpaces(s: string, a: nat)
    requires a < |s| && (forall m :: 0 <= m < a ==> IsSpace(s[m])) && IsStripped(s[a..])
    ensures Strip(s) == s[a..]
  {
    SpaceRunEndIs(s, 0, a);
    assert TrimStart(s) == s[a..];
  }

  /** What `Strip` keeps is a piece of its argument. */
  lemma StripInside(s: string)
    ensures Contains(s, Strip(s))
  {
    var a := SpaceRunEnd(s, 0);
    var t := s[a..];
    var b := SpaceRunStart(t, |t|);
    assert Strip(s) == s[a..a + b];
    assert OccursAt(s, Strip(s), a);
  }

  /** A string without whitespace is stripped. */
  lemma NoSpaceStripped(s: string)
    requires NoSpace(s)
    ensures IsStripped(s)
  {
    if s != [] {
      assert !IsSpace(s[0]) && !IsSpace(s[|s| - 1]);
    }
  }

  /** No character of `s` is in `cs`. */
  predicate Avoids(s: string, cs: set<char>) {
    forall k :: 0 <= k < |s| ==> s[k] !in cs
  }

  /** `Strip` keeps a piece of its argument, so it adds no character. */
  lemma StripAvoids(s: string, cs: set<char>)
    requires Avoids(s, cs)
    ensures Avoids(Strip(s), cs)
  {
    var t := Strip(s);
    StripInside(s);
    var i :| 0 <= i <= |s| - |t| && OccursAt(s, t, i);
    forall k | 0 <= k < |t| ensures t[k] !in cs {
      assert t[k] == s[i..i + |t|][k] == s[i + k];
    }
  }

  /** Neither does `StripChars`. */
  lemma {:induction false} StripCharsAvoids(s: string, chars: set<char>, cs: set<char>)
    requires Avoids(s, cs)
    ensures Avoids(StripChars(s, chars), cs)
  {
    if |s| > 0 && s[0] in chars {
      var tail := s[1..];
      assert Avoids(tail, cs) by {
        forall k | 0 <= k < |tail| ensures tail[k] !in cs { assert tail[k] == s[k + 1]; }
      }
      StripCharsAvoids(tail, chars, cs);
    } else if |s| > 0 && s[|s| - 1] in chars {
      var init := s[..|s| - 1];
      assert Avoids(init, cs) by {
        forall k | 0 <= k < |init| ensures init[k] !in cs { assert init[k] == s[k]; }
      }
      StripCharsAvoids(init, chars, cs);
    }
  }

  /** Python `s.strip(chars)` for an explicit character set. */
  function StripChars(s: string, chars: set<char>): (r: string)
    ensures |r| <= |s|
    ensures r == [] || (r[0] !in chars && r[|r| - 1] !in chars)
  {
    if |s| > 0 && s[0] in chars then StripChars(s[1..], chars)
    else if |s| > 0 && s[|s| - 1] in chars then StripChars(s[..|s| - 1], chars)
    else s
  }

  /** Python `s.lstrip(chars)`. */
  function TrimStartChars(s: string, chars: set<char>): (r: string)
    ensures |r| <= |s|
    ensures r == [] || r[0] !in chars
  {
    if |s| > 0 && s[0] in chars then TrimStartChars(s[1..], chars) else s
  }

  // ---------------------------------------------------------------- whitespace rewriting

  /** `re.sub(r'\s+', '', s)`: every whitespace character removed. */
  function RemoveSpaces(s: string): (r: string)
    ensures NoSpace(r)
    ensures |r| <= |s|
    ensures forall c :: c in r ==> c in s
  {
    if s == [] then []
    else if IsSpace(s[0]) then RemoveSpaces(s[1..])
    else [s[0]] + RemoveSpaces(s[1..])
  }

  /** Removing whitespace from a string without any changes nothing. */
  lemma {:induction false} RemoveSpacesNoSpace(s: string)
    requires NoSpace(s)
    ensures RemoveSpaces(s) == s
  {
    if s != [] {
      RemoveSpacesNoSpace(s[1..]);
      assert s == [s[0]] + s[1..];
    }
  }

  /** `s.replace(c, "")`. */
  function RemoveChar(s: string, c: char): (r: string)
    ensures c !in r
    ensures |r| <= |s|
    ensures forall x :: x in r ==> x in s
  {
    if s == [] then [] else if s[0] == c then RemoveChar(s[1..], c) else [s[0]] + RemoveChar(s[1..], c)
  }

  /** Removing a character that does not occur changes nothing. */
  lemma {:induction false} RemoveCharAbsent(s: string, c: char)
    requires c !in s
    ensures RemoveChar(s, c) == s
  {
    if s != [] {
      RemoveCharAbsent(s[1..], c);
      assert s == [s[0]] + s[1..];
    }
  }

  /** Every whitespace character is a plain space and no two are adjacent. */
  predicate SingleSpaced(s: string) {
    forall i :: 0 <= i < |s| && IsSpace(s[i]) ==> s[i] == ' ' && (i + 1 == |s| || !IsSpace(s[i + 1]))
  }

  /** `re.sub(r'\s+', ' ', s)`: every run of whitespace becomes one space. */
  function CollapseSpaces(s: string): (r: string)
    ensures SingleSpaced(r)
    ensures r == [] <==> s == []
  {
    CollapseFrom(s, 0)
  }

  /** `CollapseSpaces` on `s[i..]`. */
  function CollapseFrom(s: string, i: nat): (r: string)
    requires i <= |s|
    ensures SingleSpaced(r)
    ensures |r| <= |s| - i
    ensures r == [] <==> i == |s|
    ensures i < |s| ==> (IsSpace(r[0]) <==> IsSpace(s[i]))
    decreases |s| - i
  {
    if i == |s| then []
    else if IsSpace(s[i]) then
      var j := SpaceRunEnd(s, i);
      var rest := CollapseFrom(s, j);
      assert rest == [] || !IsSpace(rest[0]);
      [' '] + rest
    else
      var rest := CollapseFrom(s, i + 1);
      [s[i]] + rest
  }

  /** Collapsing a string that is already single-spaced changes nothing. */
  lemma {:induction false} CollapseSingleSpaced(s: string, i: nat)
    requires i <= |s| && SingleSpaced(s)
    ensures CollapseFrom(s, i) == s[i..]
    decreases |s| - i
  {
    if i < |s| {
      CollapseSingleSpaced(s, i + 1);
      assert s[i..] == [s[i]] + s[i + 1..];
      if IsSpace(s[i]) {
        assert s[i] == ' ' && (i + 1 == |s| || !IsSpace(s[i + 1]));
        assert SpaceRunEnd(s, i + 1) == i + 1;
        assert CollapseFrom(s, i) == [' '] + CollapseFrom(s, i + 1);
      } else {
        assert CollapseFrom(s, i) == [s[i]] + CollapseFrom(s, i + 1);
      }
    }
  }

  /** Collapsing keeps a final character that is not whitespace. */
  lemma {:induction false} CollapseFromLast(s: string, i: nat)
    requires i < |s| && !IsSpace(s[|s| - 1])
    ensures CollapseFrom(s, i) != [] && CollapseFrom(s, i)[|CollapseFrom(s, i)| - 1] == s[|s| - 1]
    decreases |s| - i
  {
    if IsSpace(s[i]) {
      CollapseFromLast(s, SpaceRunEnd(s, i));
    } else if i + 1 < |s| {
      CollapseFromLast(s, i + 1);
    }
  }

  /** Whitespace at the front is dropped by `RemoveSpaces`. */
  lemma {:induction false} RemoveSpacesRun(s: string, i: nat, j: nat)
    requires i <= j <= |s| && forall m :: i <= m < j ==> IsSpace(s[m])
    ensures RemoveSpaces(s[i..]) == RemoveSpaces(s[j..])
    decreases j - i
  {
    if i < j {
      assert s[i..][1..] == s[i + 1..];
      RemoveSpacesRun(s, i + 1, j);
    }
  }

  /** Collapsing changes nothing but whitespace. */
  lemma {:induction false} CollapseRemoveSpaces(s: string, i: nat)
    requires i <= |s|
    ensures RemoveSpaces(CollapseFrom(s, i)) == RemoveSpaces(s[i..])
    decreases |s| - i
  {
    if i < |s| {
      if IsSpace(s[i]) {
        var j := SpaceRunEnd(s, i);
        CollapseRemoveSpaces(s, j);
        RemoveSpacesRun(s, i, j);
        assert ([' '] + CollapseFrom(s, j))[1..] == CollapseFrom(s, j);
      } else {
        CollapseRemoveSpaces(s, i + 1);
        assert ([s[i]] + CollapseFrom(s, i + 1))[1..] == CollapseFrom(s, i + 1);
        assert s[i..][1..] == s[i + 1..];
      }
    }
  }

  // ---------------------------------------------------------------- splitting and joining

  /** `"".join(parts)`. */
  function Concat(parts: seq<string>): string {
    if parts == [] then [] else parts[0] + Concat(parts[1..])
  }

  /** `sep.join(parts)`. */
  function Join(parts: seq<string>, sep: string): (r: string)
    ensures parts == [] ==> r == []
    ensures |parts| == 1 ==> r == parts[0]
  {
    if parts == [] then []
    else if |parts| == 1 then parts[0]
    else parts[0] + sep + Join(parts[1..], sep)
  }

  /** Python `s.split(c)` for a one-character separator: at least one piece, none containing `c`, and joining them with `c` gives `s` back. */
  function SplitOn(s: string, c: char): (r: seq<string>)
    ensures |r| >= 1
    ensures forall i :: 0 <= i < |r| ==> c !in r[i]
    ensures Join(r, [c]) == s
  {
    if s == [] then [[]]
    else
      var rest := SplitOn(s[1..], c);
      if s[0] == c then
        assert s == [c] + s[1..];
        [[]] + rest
      else
        JoinHead(rest, [c], s[0]);
        assert s == [s[0]] + s[1..];
        [[s[0]] + rest[0]] + rest[1..]
  }

  /** The first piece of `s.split(c)` starts `s`, and every piece occurs in `s`. */
  lemma {:induction false} SplitOnPieces(s: string, c: char)
    ensures OccursAt(s, SplitOn(s, c)[0], 0)
    ensures forall i :: 0 <= i < |SplitOn(s, c)| ==> Contains(s, SplitOn(s, c)[i])
    decreases |s|
  {
    var r := SplitOn(s, c);
    if s == [] {
      assert r == [[]];
      ContainsEmpty(s);
    } else {
      var t := s[1..];
      var rest := SplitOn(t, c);
      SplitOnPieces(t, c);
      assert OccursAt(s, t, 1);
      if s[0] == c {
        assert r == [[]] + rest;
        assert OccursAt(s, [], 0);
        forall i | 0 <= i < |r| ensures Contains(s, r[i]) {
          if i == 0 { ContainsEmpty(s); } else { assert r[i] == rest[i - 1]; ContainsTrans(s, t, rest[i - 1]); }
        }
      } else {
        var first := [s[0]] + rest[0];
        assert r == [first] + rest[1..];
        assert t[..|rest[0]|] == rest[0];
        assert s[..|first|] == first;
        assert OccursAt(s, first, 0);
        forall i | 0 <= i < |r| ensures Contains(s, r[i]) {
          if i == 0 { ContainsAt(s, first, 0); } else { assert r[i] == rest[i]; ContainsTrans(s, t, rest[i]); }
        }
      }
    }
  }

  /** A string without the separator splits into itself. */
  lemma {:induction false} SplitOnNoSep(a: string, c: char)
    requires c !in a
    ensures SplitOn(a, c) == [a]
    decreases |a|
  {
    if a != [] {
      SplitOnNoSep(a[1..], c);
      assert a == [a[0]] + a[1..];
    }
  }

  /** A piece without the separator, then the separator, splits off as the first piece. */
  lemma {:induction false} SplitOnAfterPiece(a: string, c: char, b: string)
    requires c !in a
    ensures SplitOn(a + [c] + b, c) == [a] + SplitOn(b, c)
    decreases |a|
  {
    var s := a + [c] + b;
    if a == [] {
      assert s[1..] == b;
    } else {
      assert s[1..] == a[1..] + [c] + b;
      SplitOnAfterPiece(a[1..], c, b);
      assert [a[0]] + a[1..] == a;
    }
  }

  /** Splitting pieces joined with a separator none of them contains gives the pieces back. */
  lemma {:induction false} SplitOnJoin(parts: seq<string>, c: char)
    requires parts != [] && forall i :: 0 <= i < |parts| ==> c !in parts[i]
    ensures SplitOn(Join(parts, [c]), c) == parts
    decreases |parts|
  {
    if |parts| == 1 {
      SplitOnNoSep(parts[0], c);
    } else {
      SplitOnAfterPiece(parts[0], c, Join(parts[1..], [c]));
      SplitOnJoin(parts[1..], c);
      assert [parts[0]] + parts[1..] == parts;
    }
  }

  /** With two or more pieces, the joined string starts with the first piece and a separator. */
  lemma JoinStartsWithFirst(parts: seq<string>, sep: string)
    requires |parts| >= 2
    ensures StartsWith(Join(parts, sep), parts[0] + sep)
  {
    var r := Join(parts, sep);
    assert r == (parts[0] + sep) + Join(parts[1..], sep);
    assert r[..|parts[0] + sep|] == parts[0] + sep;
  }

  /** Prefixing the first piece prefixes the joined string. */
  lemma JoinHead(parts: seq<string>, sep: string, x: char)
    requires parts != []
    ensures Join([[x] + parts[0]] + parts[1..], sep) == [x] + Join(parts, sep)
  {
    var q := [[x] + parts[0]] + parts[1..];
    assert q[1..] == parts[1..];
  }

  /** Python `s.split()` with no argument: the maximal runs of non-whitespace of `s[i..]`. */
  function SplitSpaces(s: string, i: nat): (r: seq<string>)
    requires i <= |s|
    ensures forall k :: 0 <= k < |r| ==> r[k] != [] && NoSpace(r[k])
    decreases |s| - i
  {
    var a := SpaceRunEnd(s, i);
    if a == |s| then []
    else
      var b := WordEnd(s, a);
      var word := s[a..b];
      assert NoSpace(word) by {
        forall k | 0 <= k < |word| ensures !IsSpace(word[k]) { assert word[k] == s[a + k]; }
      }
      [word] + SplitSpaces(s, b)
  }

  /** The first index at or after `i` whose character is whitespace. */
  function WordEnd(s: string, i: nat): (j: nat)
    requires i <= |s|
    ensures i <= j <= |s|
    ensures forall k :: i <= k < j ==> !IsSpace(s[k])
    ensures j == |s| || IsSpace(s[j])
    decreases |s| - i
  {
    if i < |s| && !IsSpace(s[i]) then WordEnd(s, i + 1) else i
  }

  /** A non-empty string without whitespace is one word. */
  lemma SplitSpacesOfWord(s: string)
    requires s != [] && NoSpace(s)
    ensures SplitSpaces(s, 0) == [s]
  {
    assert SpaceRunEnd(s, 0) == 0;
    assert WordEnd(s, 0) == |s| by { WordEndNoSpace(s, 0); }
    assert s[0..|s|] == s;
  }

  lemma {:induction false} WordEndNoSpace(s: string, i: nat)
    requires i <= |s| && NoSpace(s)
    ensures WordEnd(s, i) == |s|
    decreases |s| - i
  {
    if i < |s| {
      WordEndNoSpace(s, i + 1);
    }
  }

  /** A whitespace character before the next word changes nothing for `split()`. */
  lemma SplitSpacesSkip(s: string, i: nat)
    requires i < |s| && IsSpace(s[i])
    ensures SplitSpaces(s, i) == SplitSpaces(s, i + 1)
  {
    assert SpaceRunEnd(s, i) == SpaceRunEnd(s, i + 1);
  }

  /** Non-empty pieces without whitespace: what `split()` returns. */
  predicate AreWords(words: seq<string>) {
    forall k :: 0 <= k < |words| ==> words[k] != [] && NoSpace(words[k])
  }

  /** `split()` reads the words back from the tail `s[i..]` when that tail is the words joined by single spaces. */
  lemma {:induction false} SplitSpacesJoinAt(s: string, i: nat, words: seq<string>)
    requires i <= |s| && s[i..] == Join(words, " ")
    requires AreWords(words)
    ensures SplitSpaces(s, i) == words
    decreases |words|, 1
  {
    if words == [] {
      assert |s[i..]| == 0;
      assert SpaceRunEnd(s, i) == |s|;
    } else if |words| == 1 {
      FirstWord(s, i, words[0], []);
      assert SpaceRunEnd(s, |s|) == |s|;
    } else {
      SplitSpacesJoinStep(s, i, words);
    }
  }

  /** The step of `SplitSpacesJoinAt` for two or more words. */
  lemma {:induction false} SplitSpacesJoinStep(s: string, i: nat, words: seq<string>)
    requires i <= |s| && s[i..] == Join(words, " ") && |words| >= 2
    requires AreWords(words)
    ensures SplitSpaces(s, i) == words
    decreases |words|, 0
  {
    var w := words[0];
    var rest := words[1..];
    var tail := " " + Join(rest, " ");
    assert s[i..] == w + tail;
    var b := SecondWord(s, i, w, rest);
    assert AreWords(rest) by { assert forall k :: 0 <= k < |rest| ==> rest[k] == words[k + 1]; }
    SplitSpacesJoinAt(s, b, rest);
    assert words == [w] + rest;
  }

  /** With `s[i..] == w + " " + rest'`, `split()` finds `w` and then goes on at the index after the space. */
  lemma SecondWord(s: string, i: nat, w: string, rest: seq<string>) returns (b: nat)
    requires i <= |s| && s[i..] == w + " " + Join(rest, " ") && w != [] && NoSpace(w)
    ensures b <= |s| && s[b..] == Join(rest, " ")
    ensures SplitSpaces(s, i) == [w] + SplitSpaces(s, b)
  {
    var tail := " " + Join(rest, " ");
    assert s[i..] == w + tail;
    FirstWord(s, i, w, tail);
    var e := i + |w|;
    SpaceAfterWord(s[i..], w, Join(rest, " "));
    assert s[e] == s[i..][|w|];
    assert s[e + 1..] == s[i..][|w| + 1..];
    SplitSpacesSkip(s, e);
    b := e + 1;
  }

  /** The character after `w` in `w + " " + r` is the space, and `r` follows it. */
  lemma SpaceAfterWord(t: string, w: string, r: string)
    requires t == w + " " + r
    ensures t[|w|] == ' ' && t[|w| + 1..] == r
  {
  }

  /** The first word `split()` finds in `s[i..] == w + tail` is `w`, when `tail` is empty or starts with whitespace. */
  lemma FirstWord(s: string, i: nat, w: string, tail: string)
    requires i <= |s| && s[i..] == w + tail && w != [] && NoSpace(w)
    requires tail == [] || IsSpace(tail[0])
    ensures SplitSpaces(s, i) == [w] + SplitSpaces(s, i + |w|)
  {
    WordAt(s, i, w, tail);
    assert SpaceRunEnd(s, i) == i;
  }

  /** A word at `i` followed by nothing or by whitespace is the word `split()` finds there. */
  lemma WordAt(s: string, i: nat, w: string, tail: string)
    requires i <= |s| && s[i..] == w + tail && w != [] && NoSpace(w)
    requires tail == [] || IsSpace(tail[0])
    ensures WordEnd(s, i) == i + |w| && s[i..i + |w|] == w && !IsSpace(s[i])
  {
    forall k | i <= k < i + |w| ensures !IsSpace(s[k]) {
      assert s[k] == (w + tail)[k - i];
    }
    if tail != [] {
      assert s[i + |w|] == (w + tail)[|w|];
    }
    assert s[i..i + |w|] == (w + tail)[..|w|];
  }

  /** Splitting words joined by single spaces gives the words back: `" ".join(ws).split() == ws`. */
  lemma SplitSpacesJoin(words: seq<string>)
    requires AreWords(words)
    ensures SplitSpaces(Join(words, " "), 0) == words
  {
    var s := Join(words, " ");
    assert s[0..] == s;
    SplitSpacesJoinAt(s, 0, words);
  }

  /** A line boundary of `str.splitlines`. */
  predicate IsLineBreak(c: char) {
    c == '\n' || c == '\r' || c == '\U{000B}' || c == '\U{000C}' || ('\U{001C}' <= c <= '\U{001E}')
    || c == '\U{0085}' || c == '\U{2028}' || c == '\U{2029}'
  }

  /** The lines of `s[start..]`, the current one having run without a break up to `i`; "\r\n" is one boundary. */
  function SplitLinesFrom(s: string, start: nat, i: nat): (r: seq<string>)
    requires start <= i <= |s|
    requires forall j :: start <= j < i ==> !IsLineBreak(s[j])
    ensures forall k, j :: 0 <= k < |r| && 0 <= j < |r[k]| ==> !IsLineBreak(r[k][j])
    ensures r == [] <==> start == |s|
    decreases |s| - i
  {
    if i == |s| then (if start < |s| then [s[start..]] else [])
    else if IsLineBreak(s[i]) then
      var next := if s[i] == '\r' && i + 1 < |s| && s[i + 1] == '\n' then i + 2 else i + 1;
      [s[start..i]] + SplitLinesFrom(s, next, next)
    else SplitLinesFrom(s, start, i + 1)
  }

  /** `s.splitlines()`: the lines without their boundaries, and no empty last line after a final boundary. */
  function SplitLines(s: string): (r: seq<string>)
    ensures forall k, j :: 0 <= k < |r| && 0 <= j < |r[k]| ==> !IsLineBreak(r[k][j])
    ensures s == [] <==> r == []
  {
    SplitLinesFrom(s, 0, 0)
  }

  // ---------------------------------------------------------------- numbers

  function DigitChar(d: nat): char
    requires d < 10
  {
    ('0' as int + d) as char
  }

  /** Python `str(n)` for a natural number. */
  function NatToString(n: nat): (r: string)
    ensures r != [] && forall i :: 0 <= i < |r| ==> IsDigit(r[i])
    decreases n
  {
    if n < 10 then [DigitChar(n)] else NatToString(n / 10) + [DigitChar(n % 10)]
  }

  function DigitValue(c: char): nat
    requires IsDigit(c)
  {
    c as int - '0' as int
  }

  /** `int(s)` for a string of ASCII digits. */
  function DigitsValue(s: string): nat
    requires forall i :: 0 <= i < |s| ==> IsDigit(s[i])
    decreases |s|
  {
    if s == [] then 0 else 10 * DigitsValue(s[..|s| - 1]) + DigitValue(s[|s| - 1])
  }

  /** Adjacent slices put together make one slice. */
  lemma SliceConcat(s: string, a: nat, b: nat, c: nat)
    requires a <= b <= c <= |s|
    ensures s[a..b] + s[b..c] == s[a..c]
  {
  }

  // ---------------------------------------------------------------- containment facts

  lemma OccursAtChar(s: string, c: char, i: int)
    ensures OccursAt(s, [c], i) <==> 0 <= i < |s| && s[i] == c
  {
    if 0 <= i < |s| { assert s[i..i + 1] == [s[i]]; }
  }

  lemma ContainsChar(s: string, c: char)
    ensures Contains(s, [c]) <==> c in s
  {
    if c in s {
      var i :| 0 <= i < |s| && s[i] == c;
      OccursAtChar(s, c, i);
    }
    if Contains(s, [c]) {
      var i :| 0 <= i <= |s| - 1 && OccursAt(s, [c], i);
      OccursAtChar(s, c, i);
    }
  }

  lemma ContainsEmpty(s: string)
    ensures Contains(s, [])
  {
    assert OccursAt(s, [], 0);
  }

  lemma ContainsAt(s: string, pat: string, i: int)
    requires OccursAt(s, pat, i)
    ensures Contains(s, pat)
  {
  }

  lemma ContainsSelf(s: string)
    ensures Contains(s, s)
  {
    assert OccursAt(s, s, 0);
  }

  /** A pattern whose first character never appears in `s` is not contained in it. */
  lemma NotContainsFirstChar(s: string, pat: string)
    requires pat != [] && pat[0] !in s
    ensures !Contains(s, pat)
  {
    forall i | 0 <= i <= |s| - |pat| ensures !OccursAt(s, pat, i) {
      assert s[i..i + |pat|][0] == s[i];
      assert s[i] in s;
    }
  }

  /** A pattern with a character that never appears in `s` is not contained in it. */
  lemma NotContainsChar(s: string, pat: string, k: nat)
    requires k < |pat| && pat[k] !in s
    ensures !Contains(s, pat)
  {
    forall i | 0 <= i <= |s| - |pat| ensures !OccursAt(s, pat, i) {
      assert s[i..i + |pat|][k] == s[i + k];
    }
  }

  /** Containment is transitive. */
  lemma ContainsTrans(a: string, b: string, c: string)
    requires Contains(a, b) && Contains(b, c)
    ensures Contains(a, c)
  {
    var i :| 0 <= i <= |a| - |b| && OccursAt(a, b, i);
    var j :| 0 <= j <= |b| - |c| && OccursAt(b, c, j);
    assert c == b[j..j + |c|];
    assert b == a[i..i + |b|];
    forall k | 0 <= k < |c| ensures c[k] == a[i + j + k] {
      assert c[k] == b[j + k];
      assert b[j + k] == a[i + j + k];
    }
    assert a[i + j..i + j + |c|] == c;
    assert OccursAt(a, c, i + j);
  }

  // ---------------------------------------------------------------- repr

  /**
   * The characters Python's `repr` of a string writes as an escape: the C0
   * controls, DEL through NO-BREAK SPACE, the soft hyphen, the Unicode space
   * separators and format controls of the Basic Multilingual Plane, and the
   * private-use area.
   */
  predicate ReprEscaped(c: char) {
    c < ' ' || ('\U{7F}' <= c <= '\U{A0}') || c == '\U{AD}' || c == '\U{1680}'
    || ('\U{2000}' <= c <= '\U{200F}') || ('\U{2028}' <= c <= '\U{202F}')
    || ('\U{205F}' <= c <= '\U{206F}') || c == '\U{3000}' || c == '\U{FEFF}'
    || ('\U{E000}' <= c <= '\U{F8FF}')
  }

  function HexDigit(d: nat): (c: char)
    requires d < 16
    ensures IsHexDigit(c)
  {
    if d < 10 then DigitChar(d) else ('a' as int + d - 10) as char
  }

  predicate IsHexDigit(c: char) {
    ('0' <= c <= '9') || ('a' <= c <= 'f') || ('A' <= c <= 'F')
  }

  function HexDigitValue(c: char): (d: nat)
    requires IsHexDigit(c)
    ensures d < 16
  {
    if '0' <= c <= '9' then c as int - '0' as int
    else if 'a' <= c <= 'f' then c as int - 'a' as int + 10
    else c as int - 'A' as int + 10
  }

  function Pow16(w: nat): (p: nat)
    ensures p > 0
  {
    if w == 0 then 1 else 16 * Pow16(w - 1)
  }

  /** The last `w` hexadecimal digits of `n`, lower case, most significant first. */
  function Hex(n: nat, w: nat): (r: string)
    ensures |r| == w && forall i :: 0 <= i < w ==> IsHexDigit(r[i])
  {
    if w == 0 then [] else Hex(n / 16, w - 1) + [HexDigit(n % 16)]
  }

  /** The number a run of hexadecimal digits spells. */
  function HexValue(t: string): (v: nat)
    requires forall i :: 0 <= i < |t| ==> IsHexDigit(t[i])
    ensures v < Pow16(|t|)
  {
    if t == [] then 0 else 16 * HexValue(t[..|t| - 1]) + HexDigitValue(t[|t| - 1])
  }

  lemma {:induction false} HexRoundTrip(n: nat, w: nat)
    requires n < Pow16(w)
    ensures HexValue(Hex(n, w)) == n
  {
    if w > 0 {
      var t := Hex(n, w);
      assert t[..|t| - 1] == Hex(n / 16, w - 1);
      HexRoundTrip(n / 16, w - 1);
      assert HexDigitValue(HexDigit(n % 16)) == n % 16;
    }
  }

  /** The quote `repr` puts around `s`: double quotes only when `s` holds a single quote and no double quote. */
  function ReprQuote(s: string): (q: char)
    ensures q == '"' <==> '\'' in s && '"' !in s
    ensures q == '\'' || q == '"'
  {
    if '\'' in s && '"' !in s then '"' else '\''
  }

  /** How `repr` writes one character of a string quoted with `q`. */
  function ReprChar(c: char, q: char): (r: string)
    ensures r != [] && (r[0] == '\\' <==> c == '\\' || c == q || ReprEscaped(c))
  {
    if c == '\\' || c == q then ['\\', c]
    else if c == '\t' then "\\t"
    else if c == '\n' then "\\n"
    else if c == '\r' then "\\r"
    else if ReprEscaped(c) && c as int < 0x100 then "\\x" + Hex(c as int, 2)
    else if ReprEscaped(c) then "\\u" + Hex(c as int, 4)
    else [c]
  }

  function ReprBody(s: string, q: char): string {
    if s == [] then [] else ReprChar(s[0], q) + ReprBody(s[1..], q)
  }

  /** Python `repr(s)` of a string, as `{s!r}` writes it. */
  function Repr(s: string): (r: string)
    ensures |r| >= 2 && r[0] == r[|r| - 1] == ReprQuote(s)
  {
    [ReprQuote(s)] + ReprBody(s, ReprQuote(s)) + [ReprQuote(s)]
  }

  /**
   * Reading back a Python string literal's body: the escapes `repr` writes
   * give back their character; any other backslash stands for itself.
   */
  function Unescape(t: string): string
    decreases |t|
  {
    if t == [] then []
    else if t[0] != '\\' || |t| == 1 then [t[0]] + Unescape(t[1..])
    else if t[1] == '\\' || t[1] == '\'' || t[1] == '"' then [t[1]] + Unescape(t[2..])
    else if t[1] == 't' then "\t" + Unescape(t[2..])
    else if t[1] == 'n' then "\n" + Unescape(t[2..])
    else if t[1] == 'r' then "\r" + Unescape(t[2..])
    else if t[1] == 'x' && |t| >= 4 && IsHexDigit(t[2]) && IsHexDigit(t[3]) then
      [HexValue(t[2..4]) as char] + Unescape(t[4..])
    else if t[1] == 'u' && |t| >= 6 && (forall i :: 2 <= i < 6 ==> IsHexDigit(t[i]))
            && !(0xD800 <= HexValue(t[2..6]) < 0xE000) then
      [HexValue(t[2..6]) as char] + Unescape(t[6..])
    else [t[0]] + Unescape(t[1..])
  }

  lemma UnescapeReprChar(c: char, q: char, rest: string)
    requires q == '\'' || q == '"'
    ensures Unescape(ReprChar(c, q) + rest) == [c] + Unescape(rest)
  {
    var t := ReprChar(c, q) + rest;
    if c == '\\' || c == q || c == '\t' || c == '\n' || c == '\r' {
      assert t[2..] == rest;
    } else if ReprEscaped(c) && c as int < 0x100 {
      UnescapeHex(c, "\\x" + Hex(c as int, 2), rest);
    } else if ReprEscaped(c) {
      UnescapeHex(c, "\\u" + Hex(c as int, 4), rest);
    } else {
      assert t[1..] == rest;
    }
  }

  /** A `\\x` or `\\u` escape of `c` reads back as `c`. */
  lemma UnescapeHex(c: char, e: string, rest: string)
    requires (c as int < 0x100 && e == "\\x" + Hex(c as int, 2)) || (c as int >= 0x100 && ReprEscaped(c) && e == "\\u" + Hex(c as int, 4))
    ensures Unescape(e + rest) == [c] + Unescape(rest)
  {
    var t := e + rest;
    var w := |e| - 2;
    HexRoundTrip(c as int, w);
    assert t[2..2 + w] == Hex(c as int, w);
    assert t[2 + w..] == rest;
  }

  lemma {:induction false} UnescapeReprBody(s: string, q: char)
    requires q == '\'' || q == '"'
    ensures Unescape(ReprBody(s, q)) == s
  {
    if s != [] {
      UnescapeReprChar(s[0], q, ReprBody(s[1..], q));
      UnescapeReprBody(s[1..], q);
    }
  }

  /** Reading the literal `repr` writes gives back the string. */
  lemma ReprRoundTrip(s: string)
    ensures Unescape(Repr(s)[1..|Repr(s)| - 1]) == s
  {
    var q := ReprQuote(s);
    assert Repr(s)[1..|Repr(s)| - 1] == ReprBody(s, q);
    UnescapeReprBody(s, q);
  }

  lemma {:induction false} ReprBodyPlain(s: string, q: char)
    requires forall i :: 0 <= i < |s| ==> s[i] != '\\' && s[i] != q && !ReprEscaped(s[i])
    ensures ReprBody(s, q) == s
  {
    if s != [] {
      ReprBodyPlain(s[1..], q);
    }
  }

  /** A string with no quote, backslash or escaped character is shown in single quotes as it is. */
  lemma ReprPlain(s: string)
    requires forall i :: 0 <= i < |s| ==> s[i] != '\\' && s[i] != '\'' && !ReprEscaped(s[i])
    ensures Repr(s) == "'" + s + "'"
  {
    ReprBodyPlain(s, '\'');
  }

  // ---------------------------------------------------------------- tags

  /** The first index at or after `i` holding `c`, or |s|. */
  function CharFrom(s: string, c: char, i: nat): (j: nat)
    requires i <= |s|
    ensures i <= j <= |s|
    ensures forall k :: i <= k < j ==> s[k] != c
    ensures j < |s| ==> s[j] == c
    decreases |s| - i
  {
    if i == |s| || s[i] == c then i else CharFrom(s, c, i + 1)
  }

  /**
   * `re.sub(r'<[^>]+>', '', s[i:])`: a '<' starts a tag when a '>' follows
   * later with at least one character between; the tag runs to the first such
   * '>'. A '<' that starts no tag is kept.
   */
  function RemoveTagsFrom(s: string, i: nat): (r: string)
    requires i <= |s|
    ensures |r| <= |s| - i
    decreases |s| - i
  {
    if i == |s| then []
    else if s[i] == '<' && CharFrom(s, '>', i + 1) < |s| && CharFrom(s, '>', i + 1) > i + 1 then
      RemoveTagsFrom(s, CharFrom(s, '>', i + 1) + 1)
    else [s[i]] + RemoveTagsFrom(s, i + 1)
  }

  function RemoveTags(s: string): (r: string)
    ensures |r| <= |s|
  {
    RemoveTagsFrom(s, 0)
  }

  /** Text without '<' has no tag to remove. */
  lemma {:induction false} RemoveTagsPlain(s: string, i: nat)
    requires i <= |s|
    requires forall k :: i <= k < |s| ==> s[k] != '<'
    ensures RemoveTagsFrom(s, i) == s[i..]
    decreases |s| - i
  {
    if i < |s| {
      RemoveTagsPlain(s, i + 1);
      assert s[i..] == [s[i]] + s[i + 1..];
    }
  }

  /** No tag is left: every '<' is directly followed by '>' or has no '>' anywhere after it. */
  predicate NoTag(r: string) {
    forall i :: 0 <= i < |r| && r[i] == '<' ==> (i + 1 < |r| && r[i + 1] == '>') || NoGtAfter(r, i + 1)
  }

  predicate NoGtAfter(r: string, i: nat) {
    forall j :: i <= j < |r| ==> r[j] != '>'
  }

  /** The removal leaves no tag behind: a kept '<' has no '>' after it, or has one right after it. */
  lemma {:induction false} RemoveTagsLeavesNoTag(s: string, i: nat)
    requires i <= |s|
    ensures NoTag(RemoveTagsFrom(s, i))
    decreases |s| - i
  {
    if i < |s| {
      var j := CharFrom(s, '>', i + 1);
      if s[i] == '<' && j < |s| && j > i + 1 {
        RemoveTagsLeavesNoTag(s, j + 1);
      } else {
        var r := RemoveTagsFrom(s, i);
        var rest := RemoveTagsFrom(s, i + 1);
        RemoveTagsLeavesNoTag(s, i + 1);
        assert r == [s[i]] + rest;
        if s[i] == '<' && j == |s| {
          NoGtKept(s, i + 1);
        }
        forall a | 0 <= a < |r| && r[a] == '<'
          ensures (a + 1 < |r| && r[a + 1] == '>') || NoGtAfter(r, a + 1)
        {
          if a == 0 {
            if j < |s| {
              assert j == i + 1 && rest[0] == '>' && r[1] == '>';
            } else {
              forall b | 1 <= b < |r| ensures r[b] != '>' { assert r[b] == rest[b - 1]; }
            }
          } else {
            assert rest[a - 1] == '<';
            if !(a < |rest| && rest[a] == '>') {
              assert NoGtAfter(rest, a);
              forall b | a + 1 <= b < |r| ensures r[b] != '>' { assert r[b] == rest[b - 1]; }
            }
          }
        }
      }
    }
  }

  /** With no '>' in `s[i..]`, none survives the removal. */
  lemma {:induction false} NoGtKept(s: string, i: nat)
    requires i <= |s|
    requires forall k :: i <= k < |s| ==> s[k] != '>'
    ensures '>' !in RemoveTagsFrom(s, i)
    decreases |s| - i
  {
    if i < |s| {
      NoGtKept(s, i + 1);
      if s[i] == '<' {
        assert CharFrom(s, '>', i + 1) == |s|;
      }
    }
  }

  /** Stripping keeps a tag-free string tag-free. */
  lemma StripKeepsNoTag(s: string)
    ensures NoTag(s) ==> NoTag(Strip(s))
  {
    if NoTag(s) {
      var t := TrimStart(s);
      NoTagSuffix(s, SpaceRunEnd(s, 0));
      NoTagPrefix(t, SpaceRunStart(t, |t|));
    }
  }

  lemma NoTagSuffix(s: string, k: nat)
    requires k <= |s| && NoTag(s)
    ensures NoTag(s[k..])
  {
    var r := s[k..];
    forall i | 0 <= i < |r| && r[i] == '<'
      ensures (i + 1 < |r| && r[i + 1] == '>') || NoGtAfter(r, i + 1)
    {
      assert s[k + i] == '<';
      if !(i + 1 < |r| && r[i + 1] == '>') {
        assert NoGtAfter(s, k + i + 1);
      }
    }
  }

  lemma NoTagPrefix(s: string, k: nat)
    requires k <= |s| && NoTag(s)
    ensures NoTag(s[..k])
  {
    var r := s[..k];
    forall i | 0 <= i < |r| && r[i] == '<'
      ensures (i + 1 < |r| && r[i + 1] == '>') || NoGtAfter(r, i + 1)
    {
      assert s[i] == '<';
    }
  }
}

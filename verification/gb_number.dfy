/**
 * The number part of a national-standard code: "GB 2763-2021" gives "2763",
 * "GB/T 5009.12-2017" gives "5009.12".
 */
module GbNumber {
  import opened Wrappers
  import opened Text

  /** `s` starts with `p` when ASCII case is ignored (`p` is written in upper case). */
  predicate StartsWithIgnoreCase(s: string, p: string) {
    |p| <= |s| && forall i :: 0 <= i < |p| ==> UpperChar(s[i]) == p[i]
  }

  /**
   * Where `re.sub(r'^(?:GB/T|GB|GBT)\s*', '', t, flags=re.IGNORECASE)` resumes:
   * after the first alternative that matches at the start and the whitespace
   * after it, or 0. "GB" matches wherever "GBT" would, so "GBT" is never used.
   */
  function PrefixEnd(t: string): (k: nat)
    ensures k <= |t|
  {
    if StartsWithIgnoreCase(t, "GB/T") then SpaceRunEnd(t, 4)
    else if StartsWithIgnoreCase(t, "GB") then SpaceRunEnd(t, 2)
    else 0
  }

  /** A match of `-\d{4}` at `i`: a hyphen and four digits. */
  predicate YearMarkAt(x: string, i: int) {
    0 <= i && i + 5 <= |x| && x[i] == '-' && IsDigit(x[i + 1]) && IsDigit(x[i + 2]) && IsDigit(x[i + 3]) && IsDigit(x[i + 4])
  }

  /** The first year mark at or after `i`, or |x|: where the first piece of `re.split(r'-\d{4}', x)` ends. */
  function FirstYearMark(x: string, i: nat): (j: nat)
    requires i <= |x|
    ensures i <= j <= |x|
    ensures forall k :: i <= k < j ==> !YearMarkAt(x, k)
    ensures j < |x| ==> YearMarkAt(x, j)
    decreases |x| - i
  {
    if i == |x| || YearMarkAt(x, i) then i else FirstYearMark(x, i + 1)
  }

  /** `extract_gb_number`: strip, drop the GB prefix, cut at the first year, strip again. */
  function ExtractGbNumber(text: string): (r: string)
    ensures text == [] ==> r == []
    ensures IsStripped(r)
    ensures forall i :: !YearMarkAt(r, i)
  {
    if text == [] then []
    else
      var t := Strip(text);
      var x := t[PrefixEnd(t)..];
      var y := x[..FirstYearMark(x, 0)];
      NoYearMarkInPiece(x, y);
      Strip(y)
  }

  /** A stripped piece of the text before the first year mark holds no year mark. */
  lemma NoYearMarkInPiece(x: string, y: string)
    requires y == x[..FirstYearMark(x, 0)]
    ensures forall i :: !YearMarkAt(Strip(y), i)
  {
    var r := Strip(y);
    StripInside(y);
    var off :| 0 <= off <= |y| - |r| && OccursAt(y, r, off);
    assert r == x[off..off + |r|];
    forall i ensures !YearMarkAt(r, i) {
      YearMarkIn(x, r, off, i);
    }
  }

  /** A year mark in a piece of `x` is a year mark of `x`. */
  lemma YearMarkIn(x: string, w: string, off: nat, i: int)
    requires off + |w| <= |x| && w == x[off..off + |w|]
    ensures YearMarkAt(w, i) ==> YearMarkAt(x, off + i)
  {
    if 0 <= i && i + 5 <= |w| {
      assert w[i] == x[off + i] && w[i + 1] == x[off + i + 1] && w[i + 2] == x[off + i + 2];
      assert w[i + 3] == x[off + i + 3] && w[i + 4] == x[off + i + 4];
    }
  }

  /**
   * A code written as a GB prefix, whitespace, a number and a year gives the
   * number back, for any number that is stripped and holds no year mark (and,
   * right after a bare "GB", does not start with '/').
   */
  lemma ExtractFromCode(prefix: string, gap: string, number: string, year: string)
    requires prefix == "GB" || prefix == "GB/T"
    requires forall i :: 0 <= i < |gap| ==> IsSpace(gap[i])
    requires number != [] && IsStripped(number) && forall i :: !YearMarkAt(number, i)
    requires prefix == "GB" && gap == [] ==> number[0] != '/'
    requires |year| == 4 && AllDigits(year)
    ensures ExtractGbNumber(prefix + gap + number + "-" + year) == number
  {
    var x := number + "-" + year;
    assert FirstYearMark(x, 0) == |number| by {
      YearCut(number, year);
    }
    assert x[..|number|] == number;
    assert x[|x| - 1] == year[3];
    CodeParts(prefix, gap, x, |number|);
    Regroup(prefix + gap, number + "-", year);
    Regroup(prefix + gap, number, "-");
  }

  /** `ExtractGbNumber` on a prefix, a gap and a rest whose first year mark is at `f`. */
  lemma CodeParts(prefix: string, gap: string, x: string, f: nat)
    requires prefix == "GB" || prefix == "GB/T"
    requires forall i :: 0 <= i < |gap| ==> IsSpace(gap[i])
    requires x != [] && !IsSpace(x[0]) && !IsSpace(x[|x| - 1])
    requires prefix == "GB" && gap == [] ==> x[0] != '/'
    requires f <= |x| && FirstYearMark(x, 0) == f && IsStripped(x[..f])
    ensures ExtractGbNumber(prefix + gap + x) == x[..f]
  {
    var text := prefix + gap + x;
    assert Strip(text) == text by {
      CodeStripped(prefix, gap, x);
    }
    assert PrefixEnd(text) == |prefix| + |gap| by {
      CodePrefixEnd(prefix, gap, x);
    }
    assert text[|prefix| + |gap|..] == x;
  }

  lemma CodeStripped(prefix: string, gap: string, x: string)
    requires prefix == "GB" || prefix == "GB/T"
    requires |x| > 0 && !IsSpace(x[|x| - 1])
    ensures Strip(prefix + gap + x) == prefix + gap + x
  {
    var text := prefix + gap + x;
    assert text[0] == 'G';
    assert text[|text| - 1] == x[|x| - 1];
  }

  lemma CodePrefixEnd(prefix: string, gap: string, x: string)
    requires prefix == "GB" || prefix == "GB/T"
    requires forall i :: 0 <= i < |gap| ==> IsSpace(gap[i])
    requires x != [] && !IsSpace(x[0])
    requires prefix == "GB" && gap == [] ==> x[0] != '/'
    ensures PrefixEnd(prefix + gap + x) == |prefix| + |gap|
  {
    var text := prefix + gap + x;
    var p := |prefix| + |gap|;
    assert text[..|prefix|] == prefix;
    forall i | |prefix| <= i < p ensures IsSpace(text[i]) {
      assert text[i] == gap[i - |prefix|];
    }
    assert text[p] == x[0];
    SpaceRunFrom(text, |prefix|, p);
    if prefix == "GB" {
      assert UpperChar(text[2]) != '/';
    }
  }

  /** In a number followed by a year, the first year mark is the year's. */
  lemma YearCut(number: string, year: string)
    requires forall i :: !YearMarkAt(number, i)
    requires |year| == 4 && AllDigits(year)
    ensures FirstYearMark(number + "-" + year, 0) == |number|
  {
    var x := number + "-" + year;
    forall k | 0 <= k < |number| ensures !YearMarkAt(x, k) {
      if k + 5 <= |number| {
        assert !YearMarkAt(number, k);
        YearMarkIn(x, number, 0, k);
      } else {
        assert x[|number|] == '-' && !IsDigit(x[|number|]);
      }
    }
    assert YearMarkAt(x, |number|);
  }

  lemma {:induction false} SpaceRunFrom(s: string, i: nat, j: nat)
    requires i <= j < |s| && !IsSpace(s[j])
    requires forall k :: i <= k < j ==> IsSpace(s[k])
    ensures SpaceRunEnd(s, i) == j
    decreases j - i
  {
    if i < j {
      SpaceRunFrom(s, i + 1, j);
    }
  }
}

/**
 * Inspection-item names: normalisation, splitting of merged multi-substance
 * names, and the fuzzy comparison used to pair a report's items with the
 * required ones.
 */
module ItemNameMatcher {
  import opened Wrappers
  import opened Text

  /** An opening parenthesis, ASCII or full-width, which starts an explanation. */
  predicate IsOpenParen(c: char) { c == '(' || c == '（' }

  /** The first index at or after `i` holding an opening parenthesis, or |s| when there is none. */
  function ParenCut(s: string, i: nat): (k: nat)
    requires i <= |s|
    ensures i <= k <= |s|
    ensures forall j :: i <= j < k ==> !IsOpenParen(s[j])
    ensures k < |s| ==> IsOpenParen(s[k])
    decreases |s| - i
  {
    if i == |s| || IsOpenParen(s[i]) then i else ParenCut(s, i + 1)
  }

  function Min(a: nat, b: nat): nat { if a <= b then a else b }

  /** The cut is the smaller of the two `find` results, each standing for |s| when it reports -1. */
  lemma ParenCutIsMinFind(s: string)
    ensures var a, b := Find(s, "("), Find(s, "（");
      ParenCut(s, 0) == Min(if a == -1 then |s| else a, if b == -1 then |s| else b)
  {
    var k := ParenCut(s, 0);
    var a, b := Find(s, "("), Find(s, "（");
    if a != -1 {
      OccursAtChar(s, '(', a);
    }
    if b != -1 {
      OccursAtChar(s, '（', b);
    }
    if k < |s| {
      OccursAtChar(s, s[k], k);
      ContainsAt(s, [s[k]], k);
    }
  }

  /**
   * The main name: the text before the first parenthesis (ASCII or full-width),
   * with all whitespace removed. (The final `strip()` of the original changes
   * nothing once the whitespace is gone; see `NormalizeStripped`.)
   */
  function NormalizeItemName(name: string): (r: string)
    ensures name == [] ==> r == []
    ensures NoSpace(r)
    ensures forall i :: 0 <= i < |r| ==> !IsOpenParen(r[i])
    ensures |r| <= |name|
  {
    if name == [] then []
    else
      var main := name[..ParenCut(name, 0)];
      var r := RemoveSpaces(main);
      assert forall i :: 0 <= i < |r| ==> !IsOpenParen(r[i]) by {
        forall i | 0 <= i < |r| ensures !IsOpenParen(r[i]) {
          assert r[i] in r;
          var j :| 0 <= j < |main| && main[j] == r[i];
        }
      }
      r
  }

  /** Stripping a normalised name changes nothing. */
  lemma NormalizeStripped(name: string)
    ensures Strip(NormalizeItemName(name)) == NormalizeItemName(name)
  {
    NoSpaceStripped(NormalizeItemName(name));
  }

  /** Normalising twice changes nothing. */
  lemma NormalizeIdempotent(name: string)
    ensures NormalizeItemName(NormalizeItemName(name)) == NormalizeItemName(name)
  {
    var r := NormalizeItemName(name);
    if r != [] {
      assert ParenCut(r, 0) == |r|;
      assert r[..|r|] == r;
      RemoveSpacesNoSpace(r);
    }
  }

  /** A parenthesised explanation is cut off: "克百威(克百威及3-羟基克百威之和)" becomes "克百威". */
  lemma NormalizeCutsExplanation()
    ensures NormalizeItemName("克百威(克百威及3-羟基克百威之和)") == "克百威"
  {
    var s := "克百威(克百威及3-羟基克百威之和)";
    assert ParenCut(s, 0) == 3;
    assert s[..3] == "克百威";
    NormalizeSpaceFreeHead(s, 3);
  }

  /** When the text before the first parenthesis holds no whitespace, it is the normal form. */
  lemma NormalizeSpaceFreeHead(s: string, k: nat)
    requires s != [] && k <= |s| && ParenCut(s, 0) == k && NoSpace(s[..k])
    ensures NormalizeItemName(s) == s[..k]
  {
    RemoveSpacesNoSpace(s[..k]);
  }

  // ---------------------------------------------------------------- splitting merged names

  const Separators: seq<char> := ['和', '、', '/', '，', ',', ' ']
  const CommonSuffixes: seq<string> := ["菌素", "灵", "磷", "威", "酯", "醇", "胺", "酮"]

  /** Suffixes the heuristic can cut at: non-empty, and not ending in whitespace. */
  predicate ValidSuffixes(suffixes: seq<string>) {
    forall k :: 0 <= k < |suffixes| ==> |suffixes[k]| > 0 && !IsSpace(suffixes[k][|suffixes[k]| - 1])
  }

  lemma CommonSuffixesValid()
    ensures ValidSuffixes(CommonSuffixes)
  {
  }

  /** `[p.strip() for p in parts if p.strip()]`. */
  function NonBlankStripped(parts: seq<string>): (r: seq<string>)
    ensures |r| <= |parts|
    ensures forall i :: 0 <= i < |r| ==> r[i] != []
  {
    if parts == [] then []
    else
      var p := Strip(parts[0]);
      var rest := NonBlankStripped(parts[1..]);
      if p == [] then rest else [p] + rest
  }

  /** Each stripped non-blank part is a piece of some part, hence of `t` when every part is. */
  lemma {:induction false} NonBlankStrippedPieces(t: string, parts: seq<string>)
    requires forall j :: 0 <= j < |parts| ==> Contains(t, parts[j])
    ensures forall i :: 0 <= i < |NonBlankStripped(parts)| ==> Contains(t, NonBlankStripped(parts)[i])
  {
    if parts != [] {
      NonBlankStrippedPieces(t, parts[1..]);
      StripInside(parts[0]);
      ContainsTrans(t, parts[0], Strip(parts[0]));
    }
  }

  /** Splitting `t` at `sep` gives more than one non-blank part. */
  predicate SeparatorSplits(t: string, sep: char) {
    sep in t && |NonBlankStripped(SplitOn(t, sep))| > 1
  }

  /** The index of the first separator, at or after `i` in list order, that splits `t`; |seps| when none does. */
  function FirstSplittingSeparator(t: string, seps: seq<char>, i: nat): (k: nat)
    requires i <= |seps|
    ensures i <= k <= |seps|
    ensures forall j :: i <= j < k ==> !SeparatorSplits(t, seps[j])
    ensures k < |seps| ==> SeparatorSplits(t, seps[k])
    decreases |seps| - i
  {
    if i == |seps| || SeparatorSplits(t, seps[i]) then i else FirstSplittingSeparator(t, seps, i + 1)
  }

  /** The parts of `t` cut at the first separator, in list order, that splits it; nothing when none does. */
  function SplitBySeparators(t: string, seps: seq<char>): (r: Option<seq<string>>)
    ensures r.None? <==> forall k :: 0 <= k < |seps| ==> !SeparatorSplits(t, seps[k])
    ensures r.Some? ==> |r.value| > 1 && forall i :: 0 <= i < |r.value| ==> r.value[i] != []
  {
    var k := FirstSplittingSeparator(t, seps, 0);
    if k == |seps| then None else Some(NonBlankStripped(SplitOn(t, seps[k])))
  }

  /** The parts cut at a separator are pieces of `t`. */
  lemma SeparatorPartsInside(t: string, seps: seq<char>)
    ensures SplitBySeparators(t, seps).Some? ==>
      forall i :: 0 <= i < |SplitBySeparators(t, seps).value| ==> Contains(t, SplitBySeparators(t, seps).value[i])
  {
    var k := FirstSplittingSeparator(t, seps, 0);
    if k < |seps| {
      SplitOnPieces(t, seps[k]);
      NonBlankStrippedPieces(t, SplitOn(t, seps[k]));
    }
  }

  /**
   * The pieces the suffix loop cuts from `t[from..]`: each runs up to and
   * including the next occurrence of `suffix`; the tail after the last
   * occurrence is dropped.
   */
  function SuffixPieces(t: string, suffix: string, from: nat): (r: seq<string>)
    requires |suffix| > 0 && from <= |t|
    decreases |t| - from
  {
    var pos := FindFrom(t, suffix, from);
    if pos == -1 then []
    else [t[from..pos + |suffix|]] + SuffixPieces(t, suffix, pos + |suffix|)
  }

  /** There are as many pieces as `t.count(suffix)` counts from `from`. */
  lemma {:induction false} SuffixPiecesCount(t: string, suffix: string, from: nat)
    requires |suffix| > 0 && from <= |t|
    ensures |SuffixPieces(t, suffix, from)| == CountFrom(t, suffix, from)
    decreases |t| - from
  {
    var pos := FindFrom(t, suffix, from);
    if pos == -1 {
      assert SuffixPieces(t, suffix, from) == [] && CountFrom(t, suffix, from) == 0;
    } else {
      var next := pos + |suffix|;
      SuffixPiecesCount(t, suffix, next);
      assert SuffixPieces(t, suffix, from) == [t[from..next]] + SuffixPieces(t, suffix, next);
      assert CountFrom(t, suffix, from) == 1 + CountFrom(t, suffix, next);
    }
  }

  /** Every piece ends with the suffix. */
  lemma {:induction false} SuffixPiecesEndWith(t: string, suffix: string, from: nat)
    requires |suffix| > 0 && from <= |t|
    ensures forall i :: 0 <= i < |SuffixPieces(t, suffix, from)| ==> EndsWith(SuffixPieces(t, suffix, from)[i], suffix)
    decreases |t| - from
  {
    var pos := FindFrom(t, suffix, from);
    if pos != -1 {
      var next := pos + |suffix|;
      var piece := t[from..next];
      var rest := SuffixPieces(t, suffix, next);
      FindFromFound(t, suffix, from);
      SuffixPiecesEndWith(t, suffix, next);
      assert piece[|piece| - |suffix|..] == t[pos..next];
      var r := [piece] + rest;
      forall i | 0 <= i < |r| ensures EndsWith(r[i], suffix) {
        if i > 0 { assert r[i] == rest[i - 1]; }
      }
    }
  }

  /** Where the suffix loop stops: just after the last occurrence of `suffix` at or after `from`, or `from` when there is none. */
  function SuffixPiecesEnd(t: string, suffix: string, from: nat): (e: nat)
    requires |suffix| > 0 && from <= |t|
    ensures from <= e <= |t|
    decreases |t| - from
  {
    var pos := FindFrom(t, suffix, from);
    if pos == -1 then from else SuffixPiecesEnd(t, suffix, pos + |suffix|)
  }

  /**
   * The pieces put together are `t[from..]` up to where the loop stops, and
   * the suffix does not occur in what is left after it: only a suffix-free
   * tail is dropped.
   */
  lemma {:induction false} SuffixPiecesCover(t: string, suffix: string, from: nat)
    requires |suffix| > 0 && from <= |t|
    ensures Concat(SuffixPieces(t, suffix, from)) == t[from..SuffixPiecesEnd(t, suffix, from)]
    ensures FindFrom(t, suffix, SuffixPiecesEnd(t, suffix, from)) == -1
    decreases |t| - from
  {
    var pos := FindFrom(t, suffix, from);
    if pos == -1 {
      assert SuffixPieces(t, suffix, from) == [];
    } else {
      var next := pos + |suffix|;
      var rest := SuffixPieces(t, suffix, next);
      assert SuffixPieces(t, suffix, from) == [t[from..next]] + rest;
      assert SuffixPiecesEnd(t, suffix, from) == SuffixPiecesEnd(t, suffix, next);
      SuffixPiecesCover(t, suffix, next);
      ConcatCons(t[from..next], rest);
      SliceConcat(t, from, next, SuffixPiecesEnd(t, suffix, next));
    }
  }

  lemma ConcatCons(x: string, xs: seq<string>)
    ensures Concat([x] + xs) == x + Concat(xs)
  {
    assert ([x] + xs)[1..] == xs;
  }

  /** The suffix segmentation loop: `parts` collects the pieces while `lastPos` advances past each suffix. */
  method SegmentBySuffix(text: string, suffix: string) returns (parts: seq<string>)
    requires |suffix| > 0
    ensures parts == SuffixPieces(text, suffix, 0)
  {
    parts := [];
    var lastPos := 0;
    while true
      invariant lastPos <= |text|
      invariant parts + SuffixPieces(text, suffix, lastPos) == SuffixPieces(text, suffix, 0)
      decreases |text| - lastPos
    {
      var pos := FindFrom(text, suffix, lastPos);
      if pos == -1 {
        AppendNothing(parts);
        break;
      }
      var piece := text[lastPos..pos + |suffix|];
      AppendOne(parts, piece, SuffixPieces(text, suffix, pos + |suffix|));
      parts := parts + [piece];
      lastPos := pos + |suffix|;
    }
  }

  lemma AppendNothing(xs: seq<string>)
    ensures xs + [] == xs
  {
  }

  lemma AppendOne(xs: seq<string>, x: string, ys: seq<string>)
    ensures xs + [x] + ys == xs + ([x] + ys)
  {
  }

  /** `sum(1 for suffix in suffixes if suffix in t)`. */
  function SuffixKinds(t: string, suffixes: seq<string>): (n: nat)
    ensures n <= |suffixes|
  {
    if suffixes == [] then 0
    else (if Contains(t, suffixes[0]) then 1 else 0) + SuffixKinds(t, suffixes[1..])
  }

  /** `t.count(suffix) >= 2`, and the loop cuts `t` into more than one piece. */
  predicate SuffixSplits(t: string, suffix: string)
    requires |suffix| > 0
  {
    CountFrom(t, suffix, 0) >= 2 && |SuffixPieces(t, suffix, 0)| > 1
  }

  /** The index of the first suffix, at or after `i` in list order, that splits `t`; |suffixes| when none does. */
  function FirstSplittingSuffix(t: string, suffixes: seq<string>, i: nat): (k: nat)
    requires i <= |suffixes| && forall j :: 0 <= j < |suffixes| ==> |suffixes[j]| > 0
    ensures i <= k <= |suffixes|
    ensures forall j :: i <= j < k ==> !SuffixSplits(t, suffixes[j])
    ensures k < |suffixes| ==> SuffixSplits(t, suffixes[k])
    decreases |suffixes| - i
  {
    if i == |suffixes| || SuffixSplits(t, suffixes[i]) then i else FirstSplittingSuffix(t, suffixes, i + 1)
  }

  /** The suffix heuristic: the pieces cut at the first suffix, in list order, that occurs at least twice. */
  function SplitBySuffixes(t: string, suffixes: seq<string>): (r: Option<seq<string>>)
    requires forall k :: 0 <= k < |suffixes| ==> |suffixes[k]| > 0
    ensures r.Some? ==> forall i :: 0 <= i < |r.value| ==> r.value[i] != []
  {
    var k := FirstSplittingSuffix(t, suffixes, 0);
    if k == |suffixes| then None else Some(NonBlankStripped(SuffixPieces(t, suffixes[k], 0)))
  }

  /** The suffix heuristic answers exactly when some suffix occurs at least twice, and then with several parts. */
  lemma SplitBySuffixesParts(t: string, suffixes: seq<string>)
    requires ValidSuffixes(suffixes)
    ensures SplitBySuffixes(t, suffixes).None? <==> forall k :: 0 <= k < |suffixes| ==> CountFrom(t, suffixes[k], 0) < 2
    ensures SplitBySuffixes(t, suffixes).Some? ==> |SplitBySuffixes(t, suffixes).value| > 1
  {
    forall k | 0 <= k < |suffixes| ensures SuffixSplits(t, suffixes[k]) <==> CountFrom(t, suffixes[k], 0) >= 2 {
      SuffixPiecesCount(t, suffixes[k], 0);
    }
    var k := FirstSplittingSuffix(t, suffixes, 0);
    if k < |suffixes| {
      var s := suffixes[k];
      SuffixPiecesEndWith(t, s, 0);
      NonBlankSuffixPieces(SuffixPieces(t, s, 0), s);
    }
  }

  /** Pieces ending in a non-blank suffix keep their number through `NonBlankStripped`. */
  lemma {:induction false} NonBlankSuffixPieces(pieces: seq<string>, suffix: string)
    requires suffix != [] && !IsSpace(suffix[|suffix| - 1])
    requires forall i :: 0 <= i < |pieces| ==> EndsWith(pieces[i], suffix)
    ensures |NonBlankStripped(pieces)| == |pieces|
  {
    if pieces != [] {
      var p := pieces[0];
      assert p[|p| - 1] == suffix[|suffix| - 1];
      NonBlankSuffixPieces(pieces[1..], suffix);
    }
  }

  /** Every suffix piece is a piece of `t`. */
  lemma {:induction false} SuffixPiecesContained(t: string, suffix: string, from: nat)
    requires |suffix| > 0 && from <= |t|
    ensures forall i :: 0 <= i < |SuffixPieces(t, suffix, from)| ==> Contains(t, SuffixPieces(t, suffix, from)[i])
    decreases |t| - from
  {
    var pos := FindFrom(t, suffix, from);
    if pos != -1 {
      var next := pos + |suffix|;
      SuffixPiecesContained(t, suffix, next);
      assert OccursAt(t, t[from..next], from);
    }
  }

  /** The parts the suffix heuristic answers with are pieces of `t`. */
  lemma SuffixPartsInside(t: string, suffixes: seq<string>)
    requires forall k :: 0 <= k < |suffixes| ==> |suffixes[k]| > 0
    ensures SplitBySuffixes(t, suffixes).Some? ==>
      forall i :: 0 <= i < |SplitBySuffixes(t, suffixes).value| ==> Contains(t, SplitBySuffixes(t, suffixes).value[i])
  {
    var k := FirstSplittingSuffix(t, suffixes, 0);
    if k < |suffixes| {
      SuffixPiecesContained(t, suffixes[k], 0);
      NonBlankStrippedPieces(t, SuffixPieces(t, suffixes[k], 0));
    }
  }

  /**
   * The candidate substance names in a (possibly merged) item name: the
   * normalised name itself when it is short, else its parts at the first
   * separator that splits it, else the pieces of the suffix heuristic, else the
   * normalised name.
   */
  function ExtractItemNames(text: string): (r: seq<string>)
    ensures r == [] <==> text == []
    ensures NormalizeItemName(text) != [] ==> forall i :: 0 <= i < |r| ==> r[i] != []
    ensures text != [] && |NormalizeItemName(text)| <= 6 ==> r == [NormalizeItemName(text)]
  {
    if text == [] then []
    else
      var t := NormalizeItemName(text);
      if |t| <= 6 then [t]
      else match SplitBySeparators(t, Separators)
        case Some(parts) => parts
        case None =>
          CommonSuffixesValid();
          if SuffixKinds(t, CommonSuffixes) >= 2 then
            match SplitBySuffixes(t, CommonSuffixes)
            case Some(parts) => SplitBySuffixesParts(t, CommonSuffixes); parts
            case None => [t]
          else [t]
  }

  /** Every extracted name is a piece of the normalised text. */
  lemma ExtractItemNamesPieces(text: string)
    ensures forall i :: 0 <= i < |ExtractItemNames(text)| ==> Contains(NormalizeItemName(text), ExtractItemNames(text)[i])
  {
    var t := NormalizeItemName(text);
    ContainsSelf(t);
    SeparatorPartsInside(t, Separators);
    CommonSuffixesValid();
    SuffixPartsInside(t, CommonSuffixes);
  }

  // ---------------------------------------------------------------- fuzzy matching

  /** Equal, or one a substring of the other. */
  predicate Related(x: string, y: string) {
    x == y || Contains(x, y) || Contains(y, x)
  }

  /** Some extracted sub-name of `a` is related to some extracted sub-name of `b`, after normalising both again. */
  predicate SubNamesRelated(a: string, b: string) {
    var xs := ExtractItemNames(a);
    var ys := ExtractItemNames(b);
    exists i, j | 0 <= i < |xs| && 0 <= j < |ys| :: Related(NormalizeItemName(xs[i]), NormalizeItemName(ys[j]))
  }

  /** Whether a report's item name denotes the required item name. */
  predicate FuzzyMatchItemName(reportName: string, requiredName: string) {
    var nr := NormalizeItemName(reportName);
    var nq := NormalizeItemName(requiredName);
    nr == nq || Contains(nr, nq) || Contains(nq, nr) || SubNamesRelated(nr, nq)
  }

  lemma FuzzyMatchReflexive(name: string)
    ensures FuzzyMatchItemName(name, name)
  {
  }

  /** The fuzzy match does not depend on which name is the report's. */
  lemma FuzzyMatchSymmetric(a: string, b: string)
    ensures FuzzyMatchItemName(a, b) <==> FuzzyMatchItemName(b, a)
  {
    var na := NormalizeItemName(a);
    var nb := NormalizeItemName(b);
    if SubNamesRelated(na, nb) {
      SubNamesRelatedSymmetric(na, nb);
    }
    if SubNamesRelated(nb, na) {
      SubNamesRelatedSymmetric(nb, na);
    }
  }

  lemma SubNamesRelatedSymmetric(a: string, b: string)
    requires SubNamesRelated(a, b)
    ensures SubNamesRelated(b, a)
  {
    var xs, ys := ExtractItemNames(a), ExtractItemNames(b);
    var i, j :| 0 <= i < |xs| && 0 <= j < |ys| && Related(NormalizeItemName(xs[i]), NormalizeItemName(ys[j]));
    assert Related(NormalizeItemName(ys[j]), NormalizeItemName(xs[i]));
  }

  /** A name that normalises to "" (for instance "(...)") matches every name. */
  lemma EmptyNormalizedMatchesAll(a: string, b: string)
    requires NormalizeItemName(a) == []
    ensures FuzzyMatchItemName(a, b) && FuzzyMatchItemName(b, a)
  {
    ContainsEmpty(NormalizeItemName(b));
  }

  /** Containment after normalisation is enough to match. */
  lemma ContainedNameMatches(a: string, b: string)
    requires Contains(NormalizeItemName(a), NormalizeItemName(b))
    ensures FuzzyMatchItemName(a, b) && FuzzyMatchItemName(b, a)
  {
  }

  /** "阿维菌素哒螨灵" is its own normal form. */
  lemma MergedNameNormal()
    ensures NormalizeItemName("阿维菌素哒螨灵") == "阿维菌素哒螨灵"
  {
    var t := "阿维菌素哒螨灵";
    assert ParenCut(t, 0) == |t|;
    assert t[..|t|] == t;
    assert NoSpace(t);
    RemoveSpacesNoSpace(t);
  }

  /** A long name that neither a separator nor a suffix splits is one candidate name. */
  lemma ExtractWhole(text: string)
    requires |NormalizeItemName(text)| > 6
    requires SplitBySeparators(NormalizeItemName(text), Separators).None?
    requires SplitBySuffixes(NormalizeItemName(text), CommonSuffixes).None?
    ensures ExtractItemNames(text) == [NormalizeItemName(text)]
  {
  }

  /**
   * The merged name "阿维菌素哒螨灵" stays one candidate name: it holds no
   * separator, and although two listed suffixes ("菌素" and "灵") occur in
   * it, neither occurs twice, so the suffix heuristic does not cut it.
   */
  lemma MergedPesticideNameStaysWhole()
    ensures ExtractItemNames("阿维菌素哒螨灵") == ["阿维菌素哒螨灵"]
  {
    var t := "阿维菌素哒螨灵";
    MergedNameNormal();
    NoSeparatorInMergedName();
    NoSuffixRepeats();
    ExtractWhole(t);
  }

  lemma NoSeparatorInMergedName()
    ensures SplitBySeparators("阿维菌素哒螨灵", Separators).None?
  {
    var t := "阿维菌素哒螨灵";
    assert forall k :: 0 <= k < |Separators| ==> Separators[k] !in t;
  }

  /** No listed suffix occurs twice in "阿维菌素哒螨灵". */
  lemma NoSuffixRepeats()
    ensures SplitBySuffixes("阿维菌素哒螨灵", CommonSuffixes) == None
  {
    var t := "阿维菌素哒螨灵";
    CommonSuffixesValid();
    forall k | 0 <= k < |CommonSuffixes| ensures CountFrom(t, CommonSuffixes[k], 0) < 2 {
      SuffixCountInMergedName(k);
    }
    SplitBySuffixesParts(t, CommonSuffixes);
  }

  lemma SuffixCountInMergedName(k: nat)
    requires k < |CommonSuffixes|
    ensures CountFrom("阿维菌素哒螨灵", CommonSuffixes[k], 0) < 2
  {
    var t := "阿维菌素哒螨灵";
    var s := CommonSuffixes[k];
    if k == 0 {
      assert OccursAt(t, s, 2);
      CountFromOnce(t, s, 0, 2);
    } else if k == 1 {
      assert OccursAt(t, s, 6);
      CountFromOnce(t, s, 0, 6);
    } else {
      CountFromAbsent(t, s, 0);
    }
  }

  /** A merged name matches each substance it contains: "阿维菌素哒螨灵" matches "阿维菌素" ... */
  lemma MergedNameMatchesFirst()
    ensures FuzzyMatchItemName("阿维菌素哒螨灵", "阿维菌素")
  {
    var t, a := "阿维菌素哒螨灵", "阿维菌素";
    MergedNameNormal();
    NormalOfLiteral(a);
    assert OccursAt(t, a, 0);
  }

  /** ... and "哒螨灵". */
  lemma MergedNameMatchesSecond()
    ensures FuzzyMatchItemName("阿维菌素哒螨灵", "哒螨灵")
  {
    var t, b := "阿维菌素哒螨灵", "哒螨灵";
    MergedNameNormal();
    NormalOfLiteral(b);
    assert OccursAt(t, b, 4);
  }

  /** A name with a parenthesised explanation matches its main name. */
  lemma ExplainedNameMatches()
    ensures FuzzyMatchItemName("甲拌磷（甲拌磷及其氧类似物）", "甲拌磷")
  {
    var p := "甲拌磷（甲拌磷及其氧类似物）";
    assert ParenCut(p, 0) == 3;
    assert p[..3] == "甲拌磷";
    NormalOfLiteral("甲拌磷");
  }

  /** A merged name does not match a substance it does not contain. */
  lemma MergedNameRejectsOther()
    ensures !FuzzyMatchItemName("阿维菌素哒螨灵", "氟虫腈")
  {
    MergedPesticideNameStaysWhole();
    MergedNameNormal();
    ShortNameWhole();
    MergedNameUnrelated();
    WholeNamesUnrelated("阿维菌素哒螨灵", "氟虫腈");
  }

  /** A short name without spaces or parentheses is its own only candidate. */
  lemma ShortNameWhole()
    ensures NormalizeItemName("氟虫腈") == "氟虫腈"
    ensures ExtractItemNames("氟虫腈") == ["氟虫腈"]
  {
    NormalOfLiteral("氟虫腈");
  }

  /** Two names that are each their own only candidate, and are unrelated, have no related sub-names. */
  lemma WholeNamesUnrelated(a: string, b: string)
    requires ExtractItemNames(a) == [a] && ExtractItemNames(b) == [b]
    requires NormalizeItemName(a) == a && NormalizeItemName(b) == b
    requires !Related(a, b)
    ensures !SubNamesRelated(a, b)
  {
    SingleSubNames(a, b);
  }

  /** Two names that each extract to one candidate are sub-name related exactly when those candidates are. */
  lemma SingleSubNames(a: string, b: string)
    requires |ExtractItemNames(a)| == 1 && |ExtractItemNames(b)| == 1
    ensures SubNamesRelated(a, b) <==>
      Related(NormalizeItemName(ExtractItemNames(a)[0]), NormalizeItemName(ExtractItemNames(b)[0]))
  {
    var xs, ys := ExtractItemNames(a), ExtractItemNames(b);
    if SubNamesRelated(a, b) {
      var i, j :| 0 <= i < |xs| && 0 <= j < |ys| && Related(NormalizeItemName(xs[i]), NormalizeItemName(ys[j]));
      assert i == 0 && j == 0;
    }
  }

  lemma MergedNameUnrelated()
    ensures !Related("阿维菌素哒螨灵", "氟虫腈")
  {
    var t, o := "阿维菌素哒螨灵", "氟虫腈";
    assert '氟' !in t;
    NotContainsFirstChar(t, o);
  }

  /** A name without whitespace or parentheses is already normal. */
  lemma NormalOfLiteral(s: string)
    requires NoSpace(s) && forall i :: 0 <= i < |s| ==> !IsOpenParen(s[i])
    ensures NormalizeItemName(s) == s
  {
    if s != [] {
      assert ParenCut(s, 0) == |s|;
      assert s[..|s|] == s;
      RemoveSpacesNoSpace(s);
    }
  }
}

/**
 * The section locator of the exact transformer: a section of the cleaned text runs
 * from the end of a start keyword to the first following end keyword (or the end
 * of the text), trimmed.
 */
module Sections {
  import opened Text
  import opened Regex

  /** Where `re.search('E1|E2|...|$', u, re.IGNORECASE)` matches: the first end keyword, else where `$` matches. */
  function EndOf(u: String, ends: seq<String>): (e: nat)
    ensures e <= |u|
  {
    TailSearch(WordsOrEnd(Py, ends), u, 0)
  }

  /** No end keyword occurs before the end of a section. */
  lemma {:induction false} EndOfFirst(u: String, ends: seq<String>, j: nat, k: nat)
    requires j < EndOf(u, ends) && k < |ends|
    ensures !OccursAt(u, j, ends[k], true)
  {
    TailSearchFirst(WordsOrEnd(Py, ends), u, 0, j);
  }

  /** A section stops at an end keyword, at the end, or before a final newline. */
  lemma {:induction false} EndOfStops(u: String, ends: seq<String>)
    ensures var e := EndOf(u, ends); e == |u| || AnyOccursAt(u, e, ends, true) || (e + 1 == |u| && u[e] == '\n')
  {
    TailSearchStops(WordsOrEnd(Py, ends), u, 0);
  }

  /** The trimmed text from `s` up to the first end keyword after it: `text[s:s + end_match.start()].strip()`. */
  function SectionAfter(t: String, s: nat, ends: seq<String>): String
    requires s <= |t|
  {
    Strip(Py, t[s..s + EndOf(t[s..], ends)])
  }

  /** `_extract_section(text, start, ends)`: the end search runs in `text[start_pos:]`. */
  function ExtractSection(t: String, start: String, ends: seq<String>): String
  {
    SectionFrom(t, |start|, Find(t, start, 0, true), ends)
  }

  /**
   * The section after a start match of length `n` found at `f`, or nothing when no
   * match was found (a found match always fits in the text, so the bound is never the reason).
   */
  function SectionFrom(t: String, n: nat, f: Option<nat>, ends: seq<String>): String
  {
    if f.Some? && f.value + n <= |t| then SectionAfter(t, f.value + n, ends) else []
  }

  /** Without an occurrence of the start keyword (up to case) the section is empty. */
  lemma {:induction false} ExtractSectionMissing(t: String, start: String, ends: seq<String>)
    requires !Contains(t, start, true)
    ensures ExtractSection(t, start, ends) == []
  {
    FindMissing(t, start, 0, true);
  }

  /**
   * With `p` the first occurrence of the start keyword (up to case), the section is the
   * trimmed text from the end of that occurrence to where the end search stops.
   */
  lemma {:induction false} ExtractSectionAt(t: String, start: String, ends: seq<String>, p: nat)
    requires OccursAt(t, p, start, true)
    requires forall j :: 0 <= j < p ==> !OccursAt(t, j, start, true)
    ensures p + |start| <= |t|
    ensures ExtractSection(t, start, ends)
      == Strip(Py, t[p + |start|..p + |start| + EndOf(t[p + |start|..], ends)])
  {
    FindAt(t, start, 0, p, true);
  }

  /** An occurrence inside trimmed `t[s..s+e]` is an occurrence in `t` that ends before `s + e`. */
  lemma {:induction false} OccursInTrimmed(t: String, s: nat, e: nat, j: nat, w: String)
    requires s + e <= |t|
    requires OccursAt(Strip(Py, t[s..s + e]), j, w, true)
    ensures OccursAt(t, s + StripStart(Py, t[s..s + e]) + j, w, true)
    ensures s + StripStart(Py, t[s..s + e]) + j + |w| <= s + e
  {
    var x := t[s..s + e];
    var a := StripStart(Py, x);
    var b := StripEnd(Py, x, a, |x|);
    OccursInSlice(x, a, b, j, w, true);
    OccursInSlice(t, s, s + e, a + j, w, true);
  }

  /** No end keyword occurs in an extracted section. */
  lemma {:induction false} SectionExcludesEnds(t: String, start: String, ends: seq<String>, k: nat, j: nat)
    requires k < |ends| && |ends[k]| > 0
    ensures !OccursAt(ExtractSection(t, start, ends), j, ends[k], true)
  {
    FromExcludesEnds(t, |start|, Find(t, start, 0, true), ends, k, j);
  }

  lemma {:induction false} FromExcludesEnds(t: String, n: nat, f: Option<nat>, ends: seq<String>, k: nat, j: nat)
    requires k < |ends| && |ends[k]| > 0
    ensures !OccursAt(SectionFrom(t, n, f, ends), j, ends[k], true)
  {
    if f.Some? && f.value + n <= |t| {
      TrimmedExcludesEnds(t, f.value + n, ends, k, j);
    }
  }

  /** The trimmed text from `s` to the first end keyword holds no end keyword. */
  lemma {:induction false} TrimmedExcludesEnds(t: String, s: nat, ends: seq<String>, k: nat, j: nat)
    requires s <= |t| && k < |ends| && |ends[k]| > 0
    ensures !OccursAt(SectionAfter(t, s, ends), j, ends[k], true)
  {
    var u := t[s..];
    var e := EndOf(u, ends);
    if OccursAt(Strip(Py, t[s..s + e]), j, ends[k], true) {
      OccursInTrimmed(t, s, e, j, ends[k]);
      var p := StripStart(Py, t[s..s + e]) + j;
      ShiftOccurrence(t, s, p, ends[k]);
      EndOfFirst(u, ends, p, k);
    }
  }

  /** An occurrence at `s + p` in `t` is one at `p` in `t[s..]`. */
  lemma {:induction false} ShiftOccurrence(t: String, s: nat, p: nat, w: String)
    requires s <= |t| && OccursAt(t, s + p, w, true)
    ensures OccursAt(t[s..], p, w, true)
  {
    var u := t[s..];
    forall m | 0 <= m < |w| ensures SameChar(u[p + m], w[m], true) {
      assert u[p + m] == t[s + p + m];
    }
  }

  /** How far finditer moves on after a match: past it, or one position after an empty match. */
  function Step(w: String): nat
  {
    if |w| > 0 then |w| else 1
  }

  /**
   * `re.finditer` of a literal start keyword from `i`: each match is the first
   * occurrence at or after where the previous one ended.
   */
  function Occurrences(t: String, w: String, i: nat): seq<nat>
    decreases |t| + 1 - i
  {
    match Find(t, w, i, true)
    case None => []
    case Some(j) => [j] + Occurrences(t, w, j + Step(w))
  }

  /** Each match is an occurrence of the keyword at or after `i`. */
  lemma {:induction false} OccurrencesAreMatches(t: String, w: String, i: nat, k: nat)
    requires k < |Occurrences(t, w, i)|
    decreases |t| + 1 - i
    ensures i <= Occurrences(t, w, i)[k] && OccursAt(t, Occurrences(t, w, i)[k], w, true)
  {
    var j := Find(t, w, i, true).value;
    var next := j + Step(w);
    var occ := Occurrences(t, w, i);
    var rest := Occurrences(t, w, next);
    assert occ == [j] + rest;
    if k > 0 {
      assert occ[k] == rest[k - 1];
      OccurrencesAreMatches(t, w, next, k - 1);
    }
  }

  /** Each match starts after the previous one ends. */
  lemma {:induction false} OccurrencesOrdered(t: String, w: String, i: nat, k: nat)
    requires k + 1 < |Occurrences(t, w, i)|
    decreases |t| + 1 - i
    ensures Occurrences(t, w, i)[k] + Step(w) <= Occurrences(t, w, i)[k + 1]
  {
    var j := Find(t, w, i, true).value;
    var next := j + Step(w);
    var occ := Occurrences(t, w, i);
    var rest := Occurrences(t, w, next);
    assert occ == [j] + rest;
    if k > 0 {
      assert occ[k] == rest[k - 1] && occ[k + 1] == rest[k];
      OccurrencesOrdered(t, w, next, k - 1);
    } else {
      OccurrencesAreMatches(t, w, next, 0);
    }
  }

  /** The slice after the `k`-th match, up to the next one, lies inside the text. */
  lemma {:induction false} OccurrencesBounds(t: String, w: String, k: nat)
    requires k < |Occurrences(t, w, 0)|
    ensures var occ := Occurrences(t, w, 0); occ[k] + |w| <= NextStart(t, occ, k) <= |t|
  {
    var occ := Occurrences(t, w, 0);
    OccurrencesAreMatches(t, w, 0, k);
    if k + 1 < |occ| {
      OccurrencesOrdered(t, w, 0, k);
      OccurrencesAreMatches(t, w, 0, k + 1);
    }
  }

  /** Where the text after the `k`-th match stops being searched: the next match, or the end of the text. */
  function NextStart(t: String, occ: seq<nat>, k: nat): nat
    requires k < |occ|
  {
    if k + 1 < |occ| then occ[k + 1] else |t|
  }

  /** finditer skips no occurrence: none starts between the end of one match and the next match. */
  lemma {:induction false} OccurrencesGap(t: String, w: String, i: nat, k: nat, j: nat)
    requires var occ := Occurrences(t, w, i);
      k < |occ| && occ[k] + Step(w) <= j < NextStart(t, occ, k)
    decreases |t| + 1 - i, 1
    ensures !OccursAt(t, j, w, true)
  {
    var f := Find(t, w, i, true);
    if f.Some? {
      GapAfter(t, w, i, k, j, f.value);
    }
  }

  /** The gap lemma once the first match, at `j0`, is known. */
  lemma {:induction false} GapAfter(t: String, w: String, i: nat, k: nat, j: nat, j0: nat)
    requires Find(t, w, i, true) == Some(j0)
    requires var occ := Occurrences(t, w, i);
      k < |occ| && occ[k] + Step(w) <= j < NextStart(t, occ, k)
    decreases |t| + 1 - i, 0
    ensures !OccursAt(t, j, w, true)
  {
    var occ := Occurrences(t, w, i);
    var next := j0 + Step(w);
    var rest := Occurrences(t, w, next);
    assert occ == [j0] + rest;
    if k > 0 {
      NextStartOfTail(t, occ, j0, rest, k);
      OccurrencesGap(t, w, next, k - 1, j);
    } else {
      FindFirst(t, w, next, true, j);
    }
  }

  /** Dropping the first match shifts the indexes of the others down by one. */
  lemma {:induction false} NextStartOfTail(t: String, occ: seq<nat>, j0: nat, rest: seq<nat>, k: nat)
    requires 0 < k < |occ| && occ == [j0] + rest
    ensures occ[k] == rest[k - 1] && NextStart(t, occ, k) == NextStart(t, rest, k - 1)
  {
  }

  /** And none starts before the first match. */
  lemma {:induction false} OccurrencesFirst(t: String, w: String, i: nat, j: nat)
    requires i <= j
    requires var occ := Occurrences(t, w, i); |occ| == 0 || j < occ[0]
    ensures !OccursAt(t, j, w, true)
  {
    FindFirst(t, w, i, true, j);
  }

  /**
   * The trimmed text from `s` to the first end keyword in `t[s..n]`:
   * `text[s:s + end_match.start()].strip()` with the search in `text[s:n]`.
   */
  function SliceSection(t: String, s: nat, n: nat, ends: seq<String>): String
  {
    if s <= n <= |t| then Strip(Py, t[s..s + EndOf(t[s..n], ends)]) else []
  }

  /**
   * The trimmed section after the `k`-th start match, before empty ones are dropped:
   * the search for an end keyword runs in the slice up to the next start match.
   */
  function SectionText(t: String, w: String, ends: seq<String>, occ: seq<nat>, k: nat): String
    requires k < |occ|
  {
    SliceSection(t, occ[k] + |w|, NextStart(t, occ, k), ends)
  }

  /** The trimmed section after every start match, in match order. */
  function SectionTexts(t: String, w: String, ends: seq<String>, occ: seq<nat>): (texts: seq<String>)
    ensures |texts| == |occ|
  {
    seq(|occ|, k requires 0 <= k < |occ| => SectionText(t, w, ends, occ, k))
  }

  /** The non-empty texts of `xs`, in order: `if section_text: sections.append(section_text)`. */
  function NonEmpty(xs: seq<String>): seq<String>
  {
    if xs == [] then []
    else NonEmpty(xs[..|xs| - 1]) + (if xs[|xs| - 1] != [] then [xs[|xs| - 1]] else [])
  }

  /** The positions in `xs` of the texts NonEmpty keeps. */
  function KeptIndexes(xs: seq<String>): seq<nat>
  {
    if xs == [] then []
    else KeptIndexes(xs[..|xs| - 1]) + (if xs[|xs| - 1] != [] then [|xs| - 1] else [])
  }

  /** NonEmpty keeps exactly the non-empty texts, each once, in their order. */
  lemma {:induction false} NonEmptyKeeps(xs: seq<String>)
    ensures var idx := KeptIndexes(xs); var kept := NonEmpty(xs);
      |idx| == |kept| <= |xs|
      && (forall m :: 0 <= m < |idx| ==> idx[m] < |xs| && kept[m] != [] && kept[m] == xs[idx[m]])
      && (forall m :: 0 <= m < |idx| - 1 ==> idx[m] < idx[m + 1])
      && (forall k :: 0 <= k < |xs| && xs[k] != [] ==> k in idx)
  {
    if xs != [] {
      var init := xs[..|xs| - 1];
      NonEmptyKeeps(init);
      forall m | 0 <= m < |KeptIndexes(init)| ensures xs[KeptIndexes(init)[m]] == init[KeptIndexes(init)[m]] {
      }
    }
  }

  /** `_extract_multiple_sections(text, start, ends)`, as a function of the text. */
  function MultipleSections(t: String, start: String, ends: seq<String>): seq<String>
  {
    var occ := Occurrences(t, start, 0);
    NonEmpty(SectionTexts(t, start, ends, occ))
  }

  /** Every match is followed by its keyword inside the text, before the next match. */
  predicate Spaced(t: String, w: String, occ: seq<nat>)
  {
    forall k :: 0 <= k < |occ| ==> occ[k] + |w| <= NextStart(t, occ, k) <= |t|
  }

  lemma {:induction false} OccurrencesSpaced(t: String, w: String)
    ensures Spaced(t, w, Occurrences(t, w, 0))
  {
    forall k | 0 <= k < |Occurrences(t, w, 0)|
      ensures Occurrences(t, w, 0)[k] + |w| <= NextStart(t, Occurrences(t, w, 0), k) <= |t|
    {
      OccurrencesBounds(t, w, k);
    }
  }

  /** `_extract_multiple_sections(text, start, ends)`: finditer, then the loop over its matches. */
  method ExtractMultipleSections(t: String, start: String, ends: seq<String>) returns (sections: seq<String>)
    ensures sections == MultipleSections(t, start, ends)
  {
    var occ := Occurrences(t, start, 0);
    OccurrencesSpaced(t, start);
    sections := CollectSections(t, start, ends, occ);
  }

  /** The loop of `_extract_multiple_sections` over the start matches `occ`. */
  method CollectSections(t: String, start: String, ends: seq<String>, occ: seq<nat>) returns (sections: seq<String>)
    requires Spaced(t, start, occ)
    ensures sections == NonEmpty(SectionTexts(t, start, ends, occ))
  {
    ghost var texts := SectionTexts(t, start, ends, occ);
    sections := [];
    var i := 0;
    while i < |occ|
      invariant i <= |occ|
      invariant sections == NonEmpty(texts[..i])
    {
      var startPos := occ[i] + |start|;
      var nextStart := NextStart(t, occ, i);
      var endMatch := EndOf(t[startPos..nextStart], ends);
      var sectionText := Strip(Py, t[startPos..startPos + endMatch]);
      SectionTextsAt(t, start, ends, occ, i, startPos, nextStart, endMatch);
      NonEmptyPrefix(texts, i);
      if sectionText != [] {
        sections := sections + [sectionText];
      }
      i := i + 1;
    }
    assert texts[..|occ|] == texts;
  }

  /** One more text seen: NonEmpty keeps it when it is not empty. */
  lemma {:induction false} NonEmptyPrefix(xs: seq<String>, i: nat)
    requires i < |xs|
    ensures NonEmpty(xs[..i + 1]) == NonEmpty(xs[..i]) + (if xs[i] != [] then [xs[i]] else [])
  {
    assert xs[..i + 1][..i] == xs[..i];
  }

  /** The section text of the `k`-th match, from where its keyword ends to the end match `e` in `t[s..n]`. */
  lemma {:induction false} SectionTextsAt(t: String, w: String, ends: seq<String>, occ: seq<nat>, k: nat, s: nat, n: nat, e: nat)
    requires k < |occ| && s == occ[k] + |w| && n == NextStart(t, occ, k) && s <= n <= |t|
    requires e == EndOf(t[s..n], ends)
    ensures SectionTexts(t, w, ends, occ)[k] == Strip(Py, t[s..s + e])
  {
  }

  /** No section `_extract_multiple_sections` yields is empty. */
  lemma {:induction false} MultipleSectionsNonEmpty(t: String, start: String, ends: seq<String>)
    ensures forall m :: 0 <= m < |MultipleSections(t, start, ends)| ==> MultipleSections(t, start, ends)[m] != []
  {
    NonEmptyKeeps(SectionTexts(t, start, ends, Occurrences(t, start, 0)));
  }

  /**
   * The sections are the non-empty trimmed sections of distinct start matches, in
   * text order, at most one per match.
   */
  lemma {:induction false} MultipleSectionsInOrder(t: String, start: String, ends: seq<String>)
    ensures var occ := Occurrences(t, start, 0); var texts := SectionTexts(t, start, ends, occ);
      var sections := MultipleSections(t, start, ends); var idx := KeptIndexes(texts);
      |sections| <= |occ| && |idx| == |sections|
      && (forall m :: 0 <= m < |sections| ==> idx[m] < |occ| && sections[m] != [] && sections[m] == SectionText(t, start, ends, occ, idx[m]))
      && (forall m :: 0 <= m < |idx| - 1 ==> occ[idx[m]] < occ[idx[m + 1]])
      && (forall k :: 0 <= k < |occ| && SectionText(t, start, ends, occ, k) != [] ==> k in idx)
  {
    var occ := Occurrences(t, start, 0);
    KeptSections(t, start, ends, occ);
    OccurrencesIncreasing(t, start, occ);
    KeptIncreasing(occ, KeptIndexes(SectionTexts(t, start, ends, occ)));
  }

  /** Which sections of the matches `occ` are kept, and that they are kept in order. */
  lemma {:induction false} KeptSections(t: String, w: String, ends: seq<String>, occ: seq<nat>)
    ensures var texts := SectionTexts(t, w, ends, occ); var sections := NonEmpty(texts); var idx := KeptIndexes(texts);
      |sections| <= |occ| && |idx| == |sections|
      && (forall m :: 0 <= m < |sections| ==> idx[m] < |occ| && sections[m] != [] && sections[m] == SectionText(t, w, ends, occ, idx[m]))
      && (forall k :: 0 <= k < |occ| && SectionText(t, w, ends, occ, k) != [] ==> k in idx)
    ensures var idx := KeptIndexes(SectionTexts(t, w, ends, occ));
      (forall m :: 0 <= m < |idx| ==> idx[m] < |occ|) && (forall m :: 0 <= m < |idx| - 1 ==> idx[m] < idx[m + 1])
  {
    var texts := SectionTexts(t, w, ends, occ);
    NonEmptyKeeps(texts);
    forall k | 0 <= k < |occ| && SectionText(t, w, ends, occ, k) != [] ensures k in KeptIndexes(texts) {
      assert texts[k] == SectionText(t, w, ends, occ, k);
    }
  }

  /** Increasing positions picked at increasing indexes are increasing. */
  lemma {:induction false} KeptIncreasing(occ: seq<nat>, idx: seq<nat>)
    requires forall a, b :: 0 <= a < b < |occ| ==> occ[a] < occ[b]
    requires forall m :: 0 <= m < |idx| ==> idx[m] < |occ|
    requires forall m :: 0 <= m < |idx| - 1 ==> idx[m] < idx[m + 1]
    ensures forall m :: 0 <= m < |idx| - 1 ==> occ[idx[m]] < occ[idx[m + 1]]
  {
  }

  /** The matches are strictly increasing. */
  lemma {:induction false} OccurrencesIncreasing(t: String, w: String, occ: seq<nat>)
    requires occ == Occurrences(t, w, 0)
    ensures forall a, b :: 0 <= a < b < |occ| ==> occ[a] < occ[b]
  {
    forall a, b | 0 <= a < b < |occ| ensures occ[a] < occ[b] {
      OccurrencesIncrease(t, w, a, b);
    }
  }

  lemma {:induction false} OccurrencesIncrease(t: String, w: String, a: nat, b: nat)
    requires a < b < |Occurrences(t, w, 0)|
    decreases b - a
    ensures Occurrences(t, w, 0)[a] < Occurrences(t, w, 0)[b]
  {
    OccurrencesOrdered(t, w, 0, a);
    if a + 1 < b {
      OccurrencesIncrease(t, w, a + 1, b);
    }
  }

  lemma {:induction false} SectionTextIsSlice(t: String, w: String, ends: seq<String>, occ: seq<nat>, k: nat)
    requires k < |occ|
    ensures SectionText(t, w, ends, occ, k) == SliceSection(t, occ[k] + |w|, NextStart(t, occ, k), ends)
  {
  }

  /** The keyword starts nowhere in `t[lo..hi]`. */
  predicate Absent(t: String, lo: nat, hi: nat, w: String)
  {
    forall q :: lo <= q < hi ==> !OccursAt(t, q, w, true)
  }

  /** The section after a start match holds neither the start keyword nor an end keyword. */
  lemma {:induction false} SectionTextExcludes(t: String, w: String, ends: seq<String>, k: nat, j: nat, x: String)
    requires |w| > 0 && k < |Occurrences(t, w, 0)|
    requires x == w || (x in ends && |x| > 0)
    ensures !OccursAt(SectionText(t, w, ends, Occurrences(t, w, 0), k), j, x, true)
  {
    var occ := Occurrences(t, w, 0);
    if x == w {
      SectionTextExcludesStart(t, w, ends, occ, k, j);
    } else {
      var i :| 0 <= i < |ends| && ends[i] == x;
      SectionTextExcludesEnd(t, w, ends, occ, k, i, j);
    }
  }

  /** The section after the `k`-th match holds no start keyword. */
  lemma {:induction false} SectionTextExcludesStart(t: String, w: String, ends: seq<String>, occ: seq<nat>, k: nat, j: nat)
    requires |w| > 0 && occ == Occurrences(t, w, 0) && k < |occ|
    ensures !OccursAt(SectionText(t, w, ends, occ, k), j, w, true)
  {
    var s := occ[k] + |w|;
    var n := NextStart(t, occ, k);
    OccurrencesBounds(t, w, k);
    GapAbsent(t, w, occ, k, s, n);
    SliceExcludesStart(t, s, n, ends, w, j);
    SectionTextIsSlice(t, w, ends, occ, k);
    NotOccursInSame(SectionText(t, w, ends, occ, k), SliceSection(t, s, n, ends), j, w, true);
  }

  /** The start keyword starts nowhere between the end of a match and the next match. */
  lemma {:induction false} GapAbsent(t: String, w: String, occ: seq<nat>, k: nat, s: nat, n: nat)
    requires |w| > 0 && occ == Occurrences(t, w, 0) && k < |occ|
    requires s == occ[k] + |w| && n == NextStart(t, occ, k)
    ensures Absent(t, s, n, w)
  {
    forall q | s <= q < n ensures !OccursAt(t, q, w, true) {
      OccurrencesGap(t, w, 0, k, q);
    }
  }

  /** The section after the `k`-th match holds no end keyword. */
  lemma {:induction false} SectionTextExcludesEnd(t: String, w: String, ends: seq<String>, occ: seq<nat>, k: nat, i: nat, j: nat)
    requires k < |occ| && i < |ends| && |ends[i]| > 0
    ensures !OccursAt(SectionText(t, w, ends, occ, k), j, ends[i], true)
  {
    var s := occ[k] + |w|;
    var n := NextStart(t, occ, k);
    SectionTextIsSlice(t, w, ends, occ, k);
    SliceExcludesEnds(t, s, n, ends, i, j);
    NotOccursInSame(SectionText(t, w, ends, occ, k), SliceSection(t, s, n, ends), j, ends[i], true);
  }

  /** A section cut from a stretch where the start keyword does not start holds no start keyword. */
  lemma {:induction false} SliceExcludesStart(t: String, s: nat, n: nat, ends: seq<String>, w: String, j: nat)
    requires |w| > 0 && s <= n <= |t| && Absent(t, s, n, w)
    ensures !OccursAt(SliceSection(t, s, n, ends), j, w, true)
  {
    var e := EndOf(t[s..n], ends);
    TrimmedExcludes(t, s, s + e, w, j);
  }

  /** Searching for the end keywords in `t[s..n]` rather than `t[s..]` still leaves none in the section. */
  lemma {:induction false} SliceExcludesEnds(t: String, s: nat, n: nat, ends: seq<String>, i: nat, j: nat)
    requires i < |ends| && |ends[i]| > 0
    ensures !OccursAt(SliceSection(t, s, n, ends), j, ends[i], true)
  {
    if s <= n <= |t| {
      var prefix := t[..n];
      var u := t[s..n];
      assert prefix[s..] == u;
      var e := EndOf(u, ends);
      var x := s + e;
      assert prefix[s..x] == t[s..x];
      TrimmedExcludesEnds(prefix, s, ends, i, j);
      assert SectionAfter(prefix, s, ends) == SliceSection(t, s, n, ends);
      NotOccursInSame(SliceSection(t, s, n, ends), SectionAfter(prefix, s, ends), j, ends[i], true);
    }
  }

  /** Trimming a stretch of text where a keyword does not start leaves no occurrence of it. */
  lemma {:induction false} TrimmedExcludes(t: String, s: nat, e: nat, w: String, j: nat)
    requires |w| > 0 && s <= e <= |t|
    requires forall q :: s <= q < e ==> !OccursAt(t, q, w, true)
    ensures !OccursAt(Strip(Py, t[s..e]), j, w, true)
  {
    if OccursAt(Strip(Py, t[s..e]), j, w, true) {
      OccursInTrimmed(t, s, e - s, j, w);
    }
  }

  /** So no collected section holds the start keyword or an end keyword. */
  lemma {:induction false} MultipleSectionsExclude(t: String, start: String, ends: seq<String>, m: nat, j: nat, x: String)
    requires |start| > 0 && m < |MultipleSections(t, start, ends)|
    requires x == start || (x in ends && |x| > 0)
    ensures !OccursAt(MultipleSections(t, start, ends)[m], j, x, true)
  {
    MultipleSectionsInOrder(t, start, ends);
    var occ := Occurrences(t, start, 0);
    var idx := KeptIndexes(SectionTexts(t, start, ends, occ));
    SectionTextExcludes(t, start, ends, idx[m], j, x);
  }

  /** A section of a text that lacks a character lacks it too. */
  lemma {:induction false} SectionLacks(t: String, start: String, ends: seq<String>, c: char)
    requires Lacks(t, c)
    ensures Lacks(ExtractSection(t, start, ends), c)
  {
    FromLacks(t, |start|, Find(t, start, 0, true), ends, c);
  }

  lemma {:induction false} FromLacks(t: String, n: nat, f: Option<nat>, ends: seq<String>, c: char)
    requires Lacks(t, c)
    ensures Lacks(SectionFrom(t, n, f, ends), c)
  {
    if f.Some? && f.value + n <= |t| {
      var s := f.value + n;
      StripSliceLacks(Py, t, s, s + EndOf(t[s..], ends), c);
    }
  }

  /** The trimmed section after a start match of a text that lacks a character lacks it. */
  lemma {:induction false} SectionTextLacks(t: String, w: String, ends: seq<String>, occ: seq<nat>, k: nat, c: char)
    requires Lacks(t, c) && k < |occ|
    ensures Lacks(SectionText(t, w, ends, occ, k), c)
  {
    SliceLacks(t, occ[k] + |w|, NextStart(t, occ, k), ends, c);
  }

  lemma {:induction false} SliceLacks(t: String, s: nat, n: nat, ends: seq<String>, c: char)
    requires Lacks(t, c)
    ensures Lacks(SliceSection(t, s, n, ends), c)
  {
    if s <= n <= |t| {
      StripSliceLacks(Py, t, s, s + EndOf(t[s..n], ends), c);
    }
  }

  /** Every section `_extract_multiple_sections` yields from a text that lacks a character lacks it. */
  lemma {:induction false} MultipleSectionsLack(t: String, start: String, ends: seq<String>, m: nat, c: char)
    requires Lacks(t, c) && m < |MultipleSections(t, start, ends)|
    ensures Lacks(MultipleSections(t, start, ends)[m], c)
  {
    var occ := Occurrences(t, start, 0);
    var texts := SectionTexts(t, start, ends, occ);
    NonEmptyKeeps(texts);
    var k := KeptIndexes(texts)[m];
    assert MultipleSections(t, start, ends)[m] == texts[k];
    SectionTextLacks(t, start, ends, occ, k, c);
  }
}

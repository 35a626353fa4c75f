/**
 * The building blocks of the regular expressions used by the transformers, each
 * written as the scan that a backtracking matcher performs: a search tries start
 * positions from left to right, an alternation tries its alternatives in order, a
 * greedy `\s*` first takes the longest run and then gives characters back one at a
 * time, and a lazy group grows one character at a time until what follows it matches.
 */
module Regex {
  import opened Text

  /** What `.` matches: anything (DOTALL, `[^]`), anything but `\n` (Python), anything but a line terminator (JavaScript). */
  datatype Dot = AnyChar | NotNewline | NotLineTerminator

  predicate DotMatches(dot: Dot, c: char)
  {
    match dot
    case AnyChar => true
    case NotNewline => c != '\n'
    case NotLineTerminator => !IsJsLineTerminator(c)
  }

  /** The `.` of a pattern compiled without DOTALL (Python) or without the s flag (JavaScript). */
  function LineDot(d: Dialect): Dot
  {
    if d == Py then NotNewline else NotLineTerminator
  }

  /** `$` without MULTILINE: the end of the text; Python's also matches just before a final newline. */
  predicate DollarAt(d: Dialect, t: String, e: nat)
  {
    e == |t| || (d == Py && e + 1 == |t| && t[e] == '\n')
  }

  /** What must follow a lazy group for the match to end there. */
  datatype Tail =
    | NewlineOrEnd(d: Dialect)                    // (?:\n|$)
    | BlankLineOrEnd                              // (?:\n\n|$) and (?=\n\n|$), Python
    | PeriodOrEnd                                 // (?:\.|$), Python
    | WordsOrEnd(d: Dialect, words: seq<String>)  // (?:A|B|$) or (?=A|B|$), case-insensitive

  predicate TailAt(tail: Tail, t: String, e: nat)
  {
    match tail
    case NewlineOrEnd(d) => (e < |t| && t[e] == '\n') || DollarAt(d, t, e)
    case BlankLineOrEnd => (e + 1 < |t| && t[e] == '\n' && t[e + 1] == '\n') || DollarAt(Py, t, e)
    case PeriodOrEnd => (e < |t| && t[e] == '.') || DollarAt(Py, t, e)
    case WordsOrEnd(d, words) => AnyOccursAt(t, e, words, true) || DollarAt(d, t, e)
  }

  /**
   * A lazy group that has matched everything before `e`: it stops at the first
   * position where the tail matches and otherwise takes one more character, if `.`
   * accepts it. The result is where the group ends.
   */
  function LazyFrom(dot: Dot, tail: Tail, t: String, e: nat): (r: Option<nat>)
    requires e <= |t|
    decreases |t| - e
    ensures r.Some? ==> e <= r.value <= |t| && TailAt(tail, t, r.value)
  {
    if TailAt(tail, t, e) then Some(e)
    else if e < |t| && DotMatches(dot, t[e]) then LazyFrom(dot, tail, t, e + 1)
    else None
  }

  /** The group takes no more than it must: every character it holds is accepted by `.` and the tail matches nowhere inside it. */
  lemma {:induction false} LazyFromFirst(dot: Dot, tail: Tail, t: String, e: nat, j: nat)
    requires e <= j <= |t| && LazyFrom(dot, tail, t, e).Some? && j < LazyFrom(dot, tail, t, e).value
    decreases |t| - e
    ensures DotMatches(dot, t[j]) && !TailAt(tail, t, j)
  {
    if e < j {
      LazyFromFirst(dot, tail, t, e + 1, j);
    }
  }

  /**
   * `re.search` of a pattern that is a tail alone (`E1|E2|$`): the first position at
   * or after `i` where the tail matches. `$` matches at the end, so there always is one.
   */
  function TailSearch(tail: Tail, t: String, i: nat): (e: nat)
    requires i <= |t|
    decreases |t| - i
    ensures i <= e <= |t|
  {
    if TailAt(tail, t, i) || i == |t| then i else TailSearch(tail, t, i + 1)
  }

  /** The search stops where the tail matches ... */
  lemma {:induction false} TailSearchStops(tail: Tail, t: String, i: nat)
    requires i <= |t|
    decreases |t| - i
    ensures TailAt(tail, t, TailSearch(tail, t, i))
  {
    if !TailAt(tail, t, i) && i < |t| {
      TailSearchStops(tail, t, i + 1);
    }
  }

  /** ... and nowhere before. */
  lemma {:induction false} TailSearchFirst(tail: Tail, t: String, i: nat, j: nat)
    requires i <= j <= |t| && j < TailSearch(tail, t, i)
    decreases j - i
    ensures !TailAt(tail, t, j)
  {
    if i < j {
      TailSearchFirst(tail, t, i + 1, j);
    }
  }

  /** `(.+?)` followed by the tail, starting at `g`: at least one character. */
  function LazyPlus(dot: Dot, tail: Tail, t: String, g: nat): (r: Option<nat>)
    requires g <= |t|
    ensures r.Some? ==> g < r.value <= |t| && TailAt(tail, t, r.value)
  {
    if g < |t| && DotMatches(dot, t[g]) then LazyFrom(dot, tail, t, g + 1) else None
  }

  /**
   * `\s*(.+?)tail` once `\s*` holds the white space from `q` up to `w`: if the group
   * cannot match at `w`, `\s*` gives back its last character and the group is tried
   * one position earlier. The result is the group's start and end.
   */
  function SpacesBack(dot: Dot, tail: Tail, t: String, q: nat, w: nat): (r: Option<(nat, nat)>)
    requires q <= w <= |t|
    decreases w
    ensures r.Some? ==> q <= r.value.0 < r.value.1 <= |t|
  {
    match LazyPlus(dot, tail, t, w)
    case Some(e) => Some((w, e))
    case None => if w == q then None else SpacesBack(dot, tail, t, q, w - 1)
  }

  /** `\s*(.+?)tail` at `q`: greedy `\s*` starts with the whole run of white space. */
  function SpacesThenLazy(d: Dialect, dot: Dot, tail: Tail, t: String, q: nat): (r: Option<(nat, nat)>)
    requires q <= |t|
    ensures r.Some? ==> q <= r.value.0 < r.value.1 <= |t|
  {
    SpacesBack(dot, tail, t, q, RunEnd(t, q, Space(d)))
  }

  /**
   * `(?:L1|L2|...)\s*(.+?)tail` at `p`, trying the alternatives `labels[k..]` in
   * order (each label carries its trailing colon); the group's bounds if one succeeds.
   */
  function LabelAlternatives(d: Dialect, dot: Dot, tail: Tail, t: String, p: nat, labels: seq<String>, k: nat): (r: Option<(nat, nat)>)
    decreases |labels| - k
    ensures r.Some? ==> p < r.value.0 < r.value.1 <= |t|
  {
    if k >= |labels| then None
    else if OccursAt(t, p, labels[k], true) && |labels[k]| > 0 then
      match SpacesThenLazy(d, dot, tail, t, p + |labels[k]|)
      case Some(g) => Some(g)
      case None => LabelAlternatives(d, dot, tail, t, p, labels, k + 1)
    else LabelAlternatives(d, dot, tail, t, p, labels, k + 1)
  }

  /** The leftmost match, at or after `p`, of a label pattern (`re.search`, `String.prototype.match`). */
  function LabelSearch(d: Dialect, dot: Dot, tail: Tail, t: String, labels: seq<String>, p: nat): (r: Option<(nat, nat)>)
    decreases |t| - p
    ensures r.Some? ==> p < r.value.0 < r.value.1 <= |t|
  {
    if p > |t| then None
    else match LabelAlternatives(d, dot, tail, t, p, labels, 0)
      case Some(g) => Some(g)
      case None => LabelSearch(d, dot, tail, t, labels, p + 1)
  }

  /** The group of `(?:L1|...)\s*(.+?)(?:\n|$)`, stripped (`group(1).strip()`, `match[1].trim()`), when it matches. */
  function LabelValue(d: Dialect, t: String, labels: seq<String>): (r: Option<String>)
    ensures r.Some? ==> r.value == [] || (!IsSpace(d, r.value[0]) && !IsSpace(d, r.value[|r.value| - 1]))
  {
    match LabelSearch(d, LineDot(d), NewlineOrEnd(d), t, labels, 0)
    case Some(g) => Some(Strip(d, t[g.0..g.1]))
    case None => None
  }

  /**
   * `X([\d,]+)` for a one-character literal `X`, searched from `p`: the leftmost `X`
   * followed by a digit or comma; the group is the whole run (greedy, nothing after it).
   */
  function SignedNumber(t: String, sign: char, p: nat): (r: Option<String>)
    decreases |t| - p
    ensures r.Some? ==> |r.value| > 0 && AllIn(r.value, DigitOrComma)
  {
    if p >= |t| then None
    else if t[p] == sign && RunEnd(t, p + 1, DigitOrComma) > p + 1 then
      Some(t[p + 1..RunEnd(t, p + 1, DigitOrComma)])
    else SignedNumber(t, sign, p + 1)
  }

  /** No `X` at or after `p` is followed by a digit or comma: the search of SignedNumber fails. */
  lemma {:induction false} SignedNumberNone(t: String, sign: char, p: nat)
    requires forall j :: p <= j < |t| - 1 ==> !(t[j] == sign && InClass(t[j + 1], DigitOrComma))
    decreases |t| - p
    ensures SignedNumber(t, sign, p).None?
  {
    if p < |t| {
      SignedNumberNone(t, sign, p + 1);
    }
  }

  /** An `X` followed by a digit or comma at `q` is found by a search from any `p` up to `q`. */
  lemma {:induction false} SignedNumberFinds(t: String, sign: char, p: nat, q: nat)
    requires p <= q && q + 1 < |t| && t[q] == sign && InClass(t[q + 1], DigitOrComma)
    decreases q - p
    ensures SignedNumber(t, sign, p).Some?
  {
    if p < q && !(t[p] == sign && RunEnd(t, p + 1, DigitOrComma) > p + 1) {
      SignedNumberFinds(t, sign, p + 1, q);
    }
  }

  /** A text whose every position is accepted by `.` and matches no tail before its end. */
  predicate RunsToEnd(dot: Dot, tail: Tail, t: String, q: nat)
    requires q <= |t|
  {
    forall j :: q <= j < |t| ==> DotMatches(dot, t[j]) && !TailAt(tail, t, j)
  }

  lemma {:induction false} LazyFromToEnd(dot: Dot, tail: Tail, t: String, e: nat, q: nat)
    requires q <= e <= |t| && RunsToEnd(dot, tail, t, q)
    decreases |t| - e
    ensures LazyFrom(dot, tail, t, e) == Some(|t|)
  {
    if e < |t| {
      LazyFromToEnd(dot, tail, t, e + 1, q);
    } else {
      match tail
      case NewlineOrEnd(d) => assert DollarAt(d, t, e);
      case BlankLineOrEnd => assert DollarAt(Py, t, e);
      case PeriodOrEnd => assert DollarAt(Py, t, e);
      case WordsOrEnd(d, words) => assert DollarAt(d, t, e);
    }
  }

  /**
   * When nothing before the end of the text can stop the group, `\s*(.+?)tail`
   * matches exactly when something follows `q`, and its group runs to the end of the
   * text and strips to the stripped rest of the text.
   */
  lemma {:induction false} SpacesThenLazyToEnd(d: Dialect, dot: Dot, tail: Tail, t: String, q: nat)
    requires q <= |t| && RunsToEnd(dot, tail, t, q)
    ensures q == |t| ==> SpacesThenLazy(d, dot, tail, t, q) == None
    ensures q < |t| ==>
      exists a :: SpacesThenLazy(d, dot, tail, t, q) == Some((a, |t|)) && a < |t| && Strip(d, t[a..|t|]) == Strip(d, t[q..])
  {
    var w := RunEnd(t, q, Space(d));
    if w < |t| {
      InsideRun(d, dot, tail, t, q);
    } else if q < |t| {
      AllSpaceRun(d, dot, tail, t, q);
    } else {
      assert LazyPlus(dot, tail, t, q) == None;
    }
  }

  /** Something other than white space follows: the group starts where the run of white space ends. */
  lemma {:induction false} InsideRun(d: Dialect, dot: Dot, tail: Tail, t: String, q: nat)
    requires q <= |t| && RunsToEnd(dot, tail, t, q) && RunEnd(t, q, Space(d)) < |t|
    ensures SpacesThenLazy(d, dot, tail, t, q) == Some((RunEnd(t, q, Space(d)), |t|))
    ensures Strip(d, t[RunEnd(t, q, Space(d))..|t|]) == Strip(d, t[q..])
  {
    var w := RunEnd(t, q, Space(d));
    var w1 := w + 1;
    LazyFromToEnd(dot, tail, t, w1, q);
    assert LazyPlus(dot, tail, t, w) == Some(|t|);
    assert forall j :: q <= j < w ==> InClass(t[j], Space(d));
    DropRunStrip(d, t, q, w, w - q);
  }

  lemma {:induction false} DropRunStrip(d: Dialect, t: String, q: nat, w: nat, n: nat)
    requires q <= w <= |t| && n == w - q && forall j :: q <= j < w ==> IsSpace(d, t[j])
    ensures Strip(d, t[w..|t|]) == Strip(d, t[q..])
  {
    var u := t[q..];
    SuffixSpaces(d, t, q, w, u, n);
    StripDropSpaces(d, u, n);
    DropOfSuffix(t, q, w, u, n);
  }

  lemma {:induction false} SuffixSpaces(d: Dialect, t: String, q: nat, w: nat, u: String, n: nat)
    requires q <= w <= |t| && n == w - q && u == t[q..] && forall j :: q <= j < w ==> IsSpace(d, t[j])
    ensures n <= |u| && forall i :: 0 <= i < n ==> IsSpace(d, u[i])
  {
    forall i | 0 <= i < n ensures IsSpace(d, u[i]) {
      var j := q + i;
      assert u[i] == t[j];
    }
  }

  lemma {:induction false} DropOfSuffix(t: String, q: nat, w: nat, u: String, n: nat)
    requires q <= w <= |t| && n == w - q && u == t[q..]
    ensures u[n..] == t[w..|t|]
  {
  }

  /** Only white space follows: `\s*` gives its last character back to the group. */
  lemma {:induction false} AllSpaceRun(d: Dialect, dot: Dot, tail: Tail, t: String, q: nat)
    requires q < |t| && RunsToEnd(dot, tail, t, q) && RunEnd(t, q, Space(d)) == |t|
    ensures SpacesThenLazy(d, dot, tail, t, q) == Some((|t| - 1, |t|))
    ensures Strip(d, t[|t| - 1..|t|]) == Strip(d, t[q..])
  {
    var w := |t|;
    LazyFromToEnd(dot, tail, t, w, q);
    assert LazyPlus(dot, tail, t, w - 1) == Some(|t|);
    assert SpacesBack(dot, tail, t, q, w) == SpacesBack(dot, tail, t, q, w - 1);
    StripAllSpace(d, t[w - 1..w]);
    StripAllSpace(d, t[q..]);
  }

  /** In Python text without a newline neither `(?:\n|$)` after `.` nor `(?:\n\n|$)` after DOTALL `.` can stop before the end. */
  lemma {:induction false} NoNewlineRunsToEnd(t: String, q: nat)
    requires q <= |t| && forall i :: 0 <= i < |t| ==> t[i] != '\n'
    ensures RunsToEnd(NotNewline, NewlineOrEnd(Py), t, q)
    ensures RunsToEnd(AnyChar, BlankLineOrEnd, t, q)
  {
  }

  /**
   * A single-label pattern whose group can only stop at the end of the text matches
   * at the first occurrence of the label, provided something follows it, and its
   * group strips to the stripped rest of the text.
   */
  lemma {:induction false} SingleLabelToEnd(d: Dialect, dot: Dot, tail: Tail, t: String, marker: String, p: nat)
    requires |marker| > 0 && RunsToEnd(dot, tail, t, 0)
    decreases |t| - p
    ensures Find(t, marker, p, true).None? ==> LabelSearch(d, dot, tail, t, [marker], p).None?
    ensures Find(t, marker, p, true).Some? ==>
      LabelAtEnd(d, t, marker, Find(t, marker, p, true).value, LabelSearch(d, dot, tail, t, [marker], p))
  {
    if p <= |t| {
      if OccursAt(t, p, marker, true) {
        LabelFoundHere(d, dot, tail, t, marker, p);
      } else {
        SingleLabelNotHere(d, dot, tail, t, marker, p);
        SingleLabelToEnd(d, dot, tail, t, marker, p + 1);
      }
    }
  }

  /** Where the label does not occur, both the label search and Find move on to the next position. */
  lemma {:induction false} SingleLabelNotHere(d: Dialect, dot: Dot, tail: Tail, t: String, marker: String, p: nat)
    requires |marker| > 0 && p <= |t| && !OccursAt(t, p, marker, true)
    ensures LabelSearch(d, dot, tail, t, [marker], p) == LabelSearch(d, dot, tail, t, [marker], p + 1)
    ensures Find(t, marker, p, true) == Find(t, marker, p + 1, true)
  {
    assert LabelAlternatives(d, dot, tail, t, p, [marker], 1) == None;
    LabelSearchStep(d, dot, tail, t, [marker], p);
  }

  /** What SingleLabelToEnd promises about a label pattern's result `r` when the label first occurs at `j`. */
  predicate LabelAtEnd(d: Dialect, t: String, marker: String, j: nat, r: Option<(nat, nat)>)
  {
    (r.Some? <==> j + |marker| < |t|)
    && (r.Some? ==> r.value.0 <= r.value.1 == |t| && j + |marker| <= |t| && Strip(d, t[r.value.0..r.value.1]) == Strip(d, t[j + |marker|..]))
  }

  lemma {:induction false} LabelFoundHere(d: Dialect, dot: Dot, tail: Tail, t: String, marker: String, p: nat)
    requires |marker| > 0 && RunsToEnd(dot, tail, t, 0) && OccursAt(t, p, marker, true)
    ensures LabelAtEnd(d, t, marker, p, LabelSearch(d, dot, tail, t, [marker], p))
  {
    if p + |marker| < |t| {
      LabelFoundBeforeEnd(d, dot, tail, t, marker, p);
    } else {
      LabelFoundAtEnd(d, dot, tail, t, marker, p);
    }
  }

  lemma {:induction false} LabelFoundBeforeEnd(d: Dialect, dot: Dot, tail: Tail, t: String, marker: String, p: nat)
    requires |marker| > 0 && RunsToEnd(dot, tail, t, 0) && OccursAt(t, p, marker, true) && p + |marker| < |t|
    ensures LabelAtEnd(d, t, marker, p, LabelSearch(d, dot, tail, t, [marker], p))
  {
    var q := p + |marker|;
    SpacesThenLazyToEnd(d, dot, tail, t, q);
    var g :| SpacesThenLazy(d, dot, tail, t, q) == Some((g, |t|)) && g < |t| && Strip(d, t[g..|t|]) == Strip(d, t[q..]);
    LabelSearchHere(d, dot, tail, t, marker, p, (g, |t|));
  }

  /** A single-label pattern whose label occurs at `p` and whose rest matches there matches at `p`. */
  lemma {:induction false} LabelSearchHere(d: Dialect, dot: Dot, tail: Tail, t: String, marker: String, p: nat, g: (nat, nat))
    requires |marker| > 0 && OccursAt(t, p, marker, true)
    requires SpacesThenLazy(d, dot, tail, t, p + |marker|) == Some(g)
    ensures LabelSearch(d, dot, tail, t, [marker], p) == Some(g)
  {
    assert LabelAlternatives(d, dot, tail, t, p, [marker], 0) == Some(g);
  }

  lemma {:induction false} LabelFoundAtEnd(d: Dialect, dot: Dot, tail: Tail, t: String, marker: String, p: nat)
    requires |marker| > 0 && RunsToEnd(dot, tail, t, 0) && OccursAt(t, p, marker, true) && p + |marker| == |t|
    ensures LabelSearch(d, dot, tail, t, [marker], p).None?
  {
    SpacesThenLazyToEnd(d, dot, tail, t, |t|);
    assert LabelAlternatives(d, dot, tail, t, p, [marker], 1) == None;
    assert LabelAlternatives(d, dot, tail, t, p, [marker], 0) == None;
    NoLabelAfterEnd(d, dot, tail, t, marker, p + 1);
  }

  /** No occurrence of the label starts after `p - 1` when one already ends at the end of the text. */
  lemma {:induction false} NoLabelAfterEnd(d: Dialect, dot: Dot, tail: Tail, t: String, marker: String, p: nat)
    requires |marker| > 0 && p + |marker| > |t|
    decreases |t| - p
    ensures Find(t, marker, p, true).None? && LabelSearch(d, dot, tail, t, [marker], p).None?
  {
    if p <= |t| {
      assert !OccursAt(t, p, marker, true);
      assert LabelAlternatives(d, dot, tail, t, p, [marker], 1) == None;
      NoLabelAfterEnd(d, dot, tail, t, marker, p + 1);
    }
  }

  /**
   * `re.search` over a pattern whose match at each start is `matches`: the starts from
   * `p` below `n` are tried in order and the first that matches wins.
   */
  function Leftmost(n: nat, p: nat, matches: nat -> bool): (r: Option<nat>)
    decreases n - p
    ensures r.Some? ==> p <= r.value < n && matches(r.value)
  {
    if p >= n then None
    else if matches(p) then Some(p)
    else Leftmost(n, p + 1, matches)
  }

  /** No start between `p` and the one Leftmost returns matches. */
  lemma {:induction false} LeftmostFirst(n: nat, p: nat, matches: nat -> bool, q: nat)
    requires p <= q < n && (Leftmost(n, p, matches).None? || q < Leftmost(n, p, matches).value)
    decreases n - p
    ensures !matches(q)
  {
    if !matches(p) && p < q {
      LeftmostFirst(n, p + 1, matches, q);
    }
  }

  /** Leftmost finds a start whenever one between `p` and `n` matches. */
  lemma {:induction false} LeftmostFinds(n: nat, p: nat, matches: nat -> bool, q: nat)
    requires p <= q < n && matches(q)
    decreases n - p
    ensures Leftmost(n, p, matches).Some? && Leftmost(n, p, matches).value <= q
  {
    if !matches(p) {
      LeftmostFinds(n, p + 1, matches, q);
    }
  }

  /**
   * What a match of `(?:L1|L2|...)\s*(.+?)tail` is, independently of how it is
   * searched for: the label `labels[k]` occurs at `p`, white space follows it up to
   * the group `t[g0..g1]`, every character of the group is accepted by `.`, and the
   * tail matches where the group ends.
   */
  predicate IsLabelMatch(d: Dialect, dot: Dot, tail: Tail, t: String, labels: seq<String>, p: nat, k: nat, g0: nat, g1: nat)
  {
    k < |labels| && |labels[k]| > 0 && OccursAt(t, p, labels[k], true)
    && p + |labels[k]| <= g0 < g1 <= |t|
    && (forall j :: p + |labels[k]| <= j < g0 ==> IsSpace(d, t[j]))
    && (forall j :: g0 <= j < g1 ==> DotMatches(dot, t[j]))
    && TailAt(tail, t, g1)
  }

  /** The group LazyPlus grows holds only characters `.` accepts, and the tail matches nowhere inside it. */
  lemma {:induction false} LazyPlusSound(dot: Dot, tail: Tail, t: String, g: nat)
    requires g <= |t| && LazyPlus(dot, tail, t, g).Some?
    ensures forall j :: g <= j < LazyPlus(dot, tail, t, g).value ==> DotMatches(dot, t[j])
    ensures forall j :: g < j < LazyPlus(dot, tail, t, g).value ==> !TailAt(tail, t, j)
  {
    var e := LazyPlus(dot, tail, t, g).value;
    forall j | g < j < e ensures DotMatches(dot, t[j]) && !TailAt(tail, t, j) {
      LazyFromFirst(dot, tail, t, g + 1, j);
    }
  }

  /** SpacesBack hands the group a start between `q` and `w` from which LazyPlus succeeds. */
  lemma {:induction false} SpacesBackSound(dot: Dot, tail: Tail, t: String, q: nat, w: nat)
    requires q <= w <= |t| && SpacesBack(dot, tail, t, q, w).Some?
    decreases w
    ensures var g := SpacesBack(dot, tail, t, q, w).value;
      g.0 <= w && LazyPlus(dot, tail, t, g.0) == Some(g.1)
  {
    if LazyPlus(dot, tail, t, w).None? {
      SpacesBackSound(dot, tail, t, q, w - 1);
    }
  }

  /** A label alternative that succeeds is one whose label occurs at `p` and whose rest matches after it. */
  lemma {:induction false} LabelAlternativesSound(d: Dialect, dot: Dot, tail: Tail, t: String, p: nat, labels: seq<String>, k: nat)
    requires LabelAlternatives(d, dot, tail, t, p, labels, k).Some?
    decreases |labels| - k
    ensures exists m :: (k <= m < |labels| && |labels[m]| > 0 && OccursAt(t, p, labels[m], true)
      && SpacesThenLazy(d, dot, tail, t, p + |labels[m]|) == LabelAlternatives(d, dot, tail, t, p, labels, k))
  {
    if !(OccursAt(t, p, labels[k], true) && |labels[k]| > 0 && SpacesThenLazy(d, dot, tail, t, p + |labels[k]|).Some?) {
      LabelAlternativesSound(d, dot, tail, t, p, labels, k + 1);
    }
  }

  /** The search succeeds at some start from `p` on with its first alternative pass. */
  lemma {:induction false} LabelSearchSound(d: Dialect, dot: Dot, tail: Tail, t: String, labels: seq<String>, p: nat)
    requires LabelSearch(d, dot, tail, t, labels, p).Some?
    decreases |t| - p
    ensures exists s :: p <= s <= |t| && LabelAlternatives(d, dot, tail, t, s, labels, 0) == LabelSearch(d, dot, tail, t, labels, p)
  {
    if LabelAlternatives(d, dot, tail, t, p, labels, 0).None? {
      LabelSearchSound(d, dot, tail, t, labels, p + 1);
    }
  }

  /** Where `\s*(.+?)tail` at `q` puts its group: a match in the sense of IsLabelMatch, with a minimal group. */
  lemma {:induction false} SpacesThenLazySound(d: Dialect, dot: Dot, tail: Tail, t: String, labels: seq<String>, p: nat, k: nat)
    requires k < |labels| && |labels[k]| > 0 && OccursAt(t, p, labels[k], true)
    requires SpacesThenLazy(d, dot, tail, t, p + |labels[k]|).Some?
    ensures var g := SpacesThenLazy(d, dot, tail, t, p + |labels[k]|).value;
      IsLabelMatch(d, dot, tail, t, labels, p, k, g.0, g.1) && forall j :: g.0 < j < g.1 ==> !TailAt(tail, t, j)
  {
    var q := p + |labels[k]|;
    var w := RunEnd(t, q, Space(d));
    SpacesBackSound(dot, tail, t, q, w);
    var g := SpacesThenLazy(d, dot, tail, t, q).value;
    LazyPlusSound(dot, tail, t, g.0);
  }

  /**
   * Whatever the label search returns is the group of a match: some label occurs at
   * some `p`, and the group is there, stopped at the first place the tail matches.
   */
  lemma {:induction false} LabelSearchMatch(d: Dialect, dot: Dot, tail: Tail, t: String, labels: seq<String>)
    requires LabelSearch(d, dot, tail, t, labels, 0).Some?
    ensures var g := LabelSearch(d, dot, tail, t, labels, 0).value;
      (exists p: nat, k: nat :: IsLabelMatch(d, dot, tail, t, labels, p, k, g.0, g.1))
      && forall j :: g.0 < j < g.1 ==> !TailAt(tail, t, j)
  {
    var g := LabelSearch(d, dot, tail, t, labels, 0).value;
    LabelSearchSound(d, dot, tail, t, labels, 0);
    var s :| 0 <= s <= |t| && LabelAlternatives(d, dot, tail, t, s, labels, 0) == Some(g);
    LabelAlternativesSound(d, dot, tail, t, s, labels, 0);
    var m :| 0 <= m < |labels| && |labels[m]| > 0 && OccursAt(t, s, labels[m], true)
      && SpacesThenLazy(d, dot, tail, t, s + |labels[m]|) == Some(g);
    SpacesThenLazySound(d, dot, tail, t, labels, s, m);
  }

  /** A lazy group whose characters `.` accepts up to a place where the tail matches ends there or earlier. */
  lemma {:induction false} LazyFromReaches(dot: Dot, tail: Tail, t: String, e: nat, g1: nat)
    requires e <= g1 <= |t| && TailAt(tail, t, g1)
    requires forall j :: e <= j < g1 ==> DotMatches(dot, t[j])
    decreases g1 - e
    ensures LazyFrom(dot, tail, t, e).Some? && LazyFrom(dot, tail, t, e).value <= g1
  {
    if !TailAt(tail, t, e) {
      LazyFromReaches(dot, tail, t, e + 1, g1);
    }
  }

  /** SpacesBack succeeds when some start between `q` and `w` lets LazyPlus succeed. */
  lemma {:induction false} SpacesBackReaches(dot: Dot, tail: Tail, t: String, q: nat, w: nat, g0: nat)
    requires q <= g0 <= w <= |t| && LazyPlus(dot, tail, t, g0).Some?
    decreases w
    ensures SpacesBack(dot, tail, t, q, w).Some?
  {
    if LazyPlus(dot, tail, t, w).None? {
      SpacesBackReaches(dot, tail, t, q, w - 1, g0);
    }
  }

  /** A run of a class from `q` to `g0` is inside the longest run from `q`. */
  lemma {:induction false} RunEndCovers(t: String, q: nat, g0: nat, c: Class)
    requires q <= g0 <= |t| && forall j :: q <= j < g0 ==> InClass(t[j], c)
    decreases g0 - q
    ensures g0 <= RunEnd(t, q, c)
  {
    if q < g0 {
      RunEndCovers(t, q + 1, g0, c);
    }
  }

  lemma {:induction false} LabelAlternativesReaches(d: Dialect, dot: Dot, tail: Tail, t: String, p: nat, labels: seq<String>, i: nat, k: nat)
    requires i <= k < |labels| && |labels[k]| > 0 && OccursAt(t, p, labels[k], true)
    requires SpacesThenLazy(d, dot, tail, t, p + |labels[k]|).Some?
    decreases k - i
    ensures LabelAlternatives(d, dot, tail, t, p, labels, i).Some?
  {
    if i < k {
      LabelAlternativesReaches(d, dot, tail, t, p, labels, i + 1, k);
      LabelAlternativesBack(d, dot, tail, t, p, labels, i);
    } else {
      LabelAlternativeHere(d, dot, tail, t, p, labels, k);
    }
  }

  lemma {:induction false} LabelAlternativeHere(d: Dialect, dot: Dot, tail: Tail, t: String, p: nat, labels: seq<String>, k: nat)
    requires k < |labels| && |labels[k]| > 0 && OccursAt(t, p, labels[k], true)
    requires SpacesThenLazy(d, dot, tail, t, p + |labels[k]|).Some?
    ensures LabelAlternatives(d, dot, tail, t, p, labels, k).Some?
  {
  }

  /** An alternative that matches after the `i`-th one makes the alternation from `i` match too. */
  lemma {:induction false} LabelAlternativesBack(d: Dialect, dot: Dot, tail: Tail, t: String, p: nat, labels: seq<String>, i: nat)
    requires i < |labels| && LabelAlternatives(d, dot, tail, t, p, labels, i + 1).Some?
    ensures LabelAlternatives(d, dot, tail, t, p, labels, i).Some?
  {
  }

  lemma {:induction false} LabelSearchReaches(d: Dialect, dot: Dot, tail: Tail, t: String, labels: seq<String>, i: nat, p: nat)
    requires i <= p <= |t| && LabelAlternatives(d, dot, tail, t, p, labels, 0).Some?
    decreases p - i
    ensures LabelSearch(d, dot, tail, t, labels, i).Some?
  {
    var a := LabelAlternatives(d, dot, tail, t, i, labels, 0);
    if a.Some? {
      LabelSearchMatches(d, dot, tail, t, labels, i);
    } else {
      assert i < p;
      LabelSearchSkip(d, dot, tail, t, labels, i);
      LabelSearchReaches(d, dot, tail, t, labels, i + 1, p);
    }
  }

  /** Where a label matches, the search succeeds. */
  lemma {:induction false} LabelSearchMatches(d: Dialect, dot: Dot, tail: Tail, t: String, labels: seq<String>, i: nat)
    requires i <= |t| && LabelAlternatives(d, dot, tail, t, i, labels, 0).Some?
    ensures LabelSearch(d, dot, tail, t, labels, i).Some?
  {
    LabelSearchStep(d, dot, tail, t, labels, i);
  }

  /** Where no label matches, the search goes on from the next position. */
  lemma {:induction false} LabelSearchSkip(d: Dialect, dot: Dot, tail: Tail, t: String, labels: seq<String>, i: nat)
    requires i <= |t| && LabelAlternatives(d, dot, tail, t, i, labels, 0).None?
    ensures LabelSearch(d, dot, tail, t, labels, i) == LabelSearch(d, dot, tail, t, labels, i + 1)
  {
    LabelSearchStep(d, dot, tail, t, labels, i);
  }

  /** One step of the search: a match at `i`, or the search from the next position. */
  lemma {:induction false} LabelSearchStep(d: Dialect, dot: Dot, tail: Tail, t: String, labels: seq<String>, i: nat)
    requires i <= |t|
    ensures LabelSearch(d, dot, tail, t, labels, i) ==
      if LabelAlternatives(d, dot, tail, t, i, labels, 0).Some? then LabelAlternatives(d, dot, tail, t, i, labels, 0)
      else LabelSearch(d, dot, tail, t, labels, i + 1)
  {
  }

  /** Any match in the sense of IsLabelMatch is enough for the label search to succeed. */
  lemma {:induction false} LabelMatchFound(d: Dialect, dot: Dot, tail: Tail, t: String, labels: seq<String>, p: nat, k: nat, g0: nat, g1: nat)
    requires IsLabelMatch(d, dot, tail, t, labels, p, k, g0, g1)
    ensures LabelSearch(d, dot, tail, t, labels, 0).Some?
  {
    var q := p + |labels[k]|;
    LazyFromReaches(dot, tail, t, g0 + 1, g1);
    assert LazyPlus(dot, tail, t, g0).Some?;
    RunEndCovers(t, q, g0, Space(d));
    SpacesBackReaches(dot, tail, t, q, RunEnd(t, q, Space(d)), g0);
    LabelAlternativesReaches(d, dot, tail, t, p, labels, 0, k);
    LabelSearchReaches(d, dot, tail, t, labels, 0, p);
  }

  /**
   * `re.search(r'(?:L1|...):\s*(.+?)(?:\n|$)', t, re.IGNORECASE)` (and the
   * JavaScript `match` with the i flag) succeeds exactly when the text holds a
   * match of the pattern, and the value is then the stripped group of one.
   */
  lemma {:induction false} LabelValueMatches(d: Dialect, t: String, labels: seq<String>)
    ensures LabelValue(d, t, labels).Some? <==>
      exists p: nat, k: nat, g0: nat, g1: nat :: IsLabelMatch(d, LineDot(d), NewlineOrEnd(d), t, labels, p, k, g0, g1)
    ensures LabelValue(d, t, labels).Some? ==>
      exists p: nat, k: nat, g0: nat, g1: nat :: (IsLabelMatch(d, LineDot(d), NewlineOrEnd(d), t, labels, p, k, g0, g1)
        && LabelValue(d, t, labels).value == Strip(d, t[g0..g1]))
  {
    if LabelValue(d, t, labels).Some? {
      LabelSearchMatch(d, LineDot(d), NewlineOrEnd(d), t, labels);
    }
    if exists p: nat, k: nat, g0: nat, g1: nat :: IsLabelMatch(d, LineDot(d), NewlineOrEnd(d), t, labels, p, k, g0, g1) {
      var p: nat, k: nat, g0: nat, g1: nat :| IsLabelMatch(d, LineDot(d), NewlineOrEnd(d), t, labels, p, k, g0, g1);
      LabelMatchFound(d, LineDot(d), NewlineOrEnd(d), t, labels, p, k, g0, g1);
    }
  }

  /** The starts at which a pattern whose match at `j` ends at `at(j)` matches. */
  function Matching(at: nat -> Option<nat>): nat -> bool
  {
    (j: nat) => at(j).Some?
  }

  /** Where the next search starts after the match `m`: its end, or one further when it is empty. */
  function Next(m: (nat, nat)): nat
  {
    if m.1 > m.0 then m.1 else m.0 + 1
  }

  /**
   * `re.finditer` (and a JavaScript `exec` loop with the g flag) over starts from `p`
   * below `n`, for a pattern whose match at `j` ends at `at(j)`: the leftmost match,
   * then the matches from where it ends. Each element is a match's start and end.
   */
  function AllMatches(n: nat, p: nat, at: nat -> Option<nat>): seq<(nat, nat)>
    decreases n - p
  {
    match Leftmost(n, p, Matching(at))
    case None => []
    case Some(s) => [(s, at(s).value)] + AllMatches(n, Next((s, at(s).value)), at)
  }

  /** Where the search for the `k`-th match starts. */
  function SearchStart(ms: seq<(nat, nat)>, p: nat, k: nat): nat
    requires k <= |ms|
  {
    if k == 0 then p else Next(ms[k - 1])
  }

  /**
   * The `k`-th element is a match that starts at or after the previous one's end,
   * and nothing between the previous end and its start matches.
   */
  lemma {:induction false} AllMatchesAt(n: nat, p: nat, at: nat -> Option<nat>, k: nat)
    requires k < |AllMatches(n, p, at)|
    decreases n - p
    ensures var ms := AllMatches(n, p, at);
      SearchStart(ms, p, k) <= ms[k].0 < n && at(ms[k].0) == Some(ms[k].1)
      && forall j :: SearchStart(ms, p, k) <= j < ms[k].0 ==> at(j).None?
  {
    var ms := AllMatches(n, p, at);
    var s := Leftmost(n, p, Matching(at)).value;
    forall j | p <= j < s ensures at(j).None? {
      LeftmostFirst(n, p, Matching(at), j);
      assert !Matching(at)(j);
    }
    if k > 0 {
      var rest := AllMatches(n, Next((s, at(s).value)), at);
      assert ms == [(s, at(s).value)] + rest;
      AllMatchesAt(n, Next((s, at(s).value)), at, k - 1);
      assert ms[k] == rest[k - 1];
      if k > 1 {
        assert ms[k - 1] == rest[k - 2];
      }
    }
  }

  /** Nothing matches after the search for the last match fails. */
  lemma {:induction false} AllMatchesEnd(n: nat, p: nat, at: nat -> Option<nat>, j: nat)
    requires SearchStart(AllMatches(n, p, at), p, |AllMatches(n, p, at)|) <= j < n
    decreases n - p
    ensures at(j).None?
  {
    match Leftmost(n, p, Matching(at))
    case None =>
      LeftmostFirst(n, p, Matching(at), j);
      assert !Matching(at)(j);
    case Some(s) =>
      var rest := AllMatches(n, Next((s, at(s).value)), at);
      assert AllMatches(n, p, at) == [(s, at(s).value)] + rest;
      if rest != [] {
        assert AllMatches(n, p, at)[|AllMatches(n, p, at)| - 1] == rest[|rest| - 1];
      }
      AllMatchesEnd(n, Next((s, at(s).value)), at, j);
  }
}

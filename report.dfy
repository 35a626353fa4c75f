/**
 * The document-summary searches that the Excel transformer and the browser library
 * share, pattern for pattern: the metadata labels, the transfer question, the funding
 * amounts, the table headings and the description marker. Each takes the dialect
 * whose `\s`, `.`, `$` and strip it follows.
 */
module Report {
  import opened Text
  import opened Regex

  /** The metadata both programs collect; an absent entry is a key the dict or object does not have. */
  datatype Metadata = Metadata(
    documentTitle: Option<String>,
    serialNumber: Option<String>,
    appropriationTitle: Option<String>,
    includesTransfer: Option<String>,
    componentSerial: Option<String>)

  /** The label alternatives of the four label patterns, each with its colon. */
  const TitleLabels: seq<String> := ["Subject:", "Title:"]
  const SerialLabels: seq<String> := ["DoD Serial Number:", "Serial Number:"]
  const AppropriationLabels: seq<String> := ["Appropriation Title:"]
  const ComponentLabels: seq<String> := ["Component Serial Number:"]

  const TransferQuestion: String := "Includes Transfer?"

  /** `(Yes|No)` at `w`, case-insensitive, alternatives in order: where the group ends. */
  function YesNoAt(t: String, w: nat): (e: Option<nat>)
    ensures e.Some? ==> w < e.value <= |t|
  {
    if OccursAt(t, w, "Yes", true) then Some(w + 3)
    else if OccursAt(t, w, "No", true) then Some(w + 2)
    else None
  }

  /** `\s*(Yes|No)` once `\s*` holds the white space from `q` up to `w`, giving back one character at a time. */
  function YesNoBack(t: String, q: nat, w: nat): (r: Option<(nat, nat)>)
    requires q <= w
    decreases w
    ensures r.Some? ==> q <= r.value.0 <= w && YesNoAt(t, r.value.0) == Some(r.value.1)
  {
    match YesNoAt(t, w)
    case Some(e) => Some((w, e))
    case None => if w == q then None else YesNoBack(t, q, w - 1)
  }

  /** `(?:Includes Transfer\?)\s*(Yes|No)` at `p`: the group's bounds. */
  function TransferAt(d: Dialect, t: String, p: nat): (r: Option<(nat, nat)>)
    ensures r.Some? ==> p + |TransferQuestion| <= r.value.0 && YesNoAt(t, r.value.0) == Some(r.value.1)
  {
    if OccursAt(t, p, TransferQuestion, true) then
      var q := p + |TransferQuestion|;
      YesNoBack(t, q, RunEnd(t, q, Space(d)))
    else None
  }

  function TransferFound(d: Dialect, t: String): nat -> bool
  {
    (p: nat) => TransferAt(d, t, p).Some?
  }

  /** The stripped group of the leftmost match of the transfer pattern. */
  function TransferValue(d: Dialect, t: String): Option<String>
  {
    match Leftmost(|t| + 1, 0, TransferFound(d, t))
    case None => None
    case Some(p) =>
      var g := TransferAt(d, t, p).value;
      Some(Strip(d, t[g.0..g.1]))
  }

  /** An answer is `Yes` or `No` up to case, and stripping leaves it alone. */
  lemma {:induction false} AnswerAt(d: Dialect, t: String, w: nat)
    requires YesNoAt(t, w).Some?
    ensures var s := t[w..YesNoAt(t, w).value];
      Strip(d, s) == s
      && ((|s| == 3 && OccursAt(s, 0, "Yes", true)) || (|s| == 2 && OccursAt(s, 0, "No", true)))
  {
    var e := YesNoAt(t, w).value;
    var s := t[w..e];
    assert s[0] == t[w] && s[|s| - 1] == t[e - 1];
    if e == w + 3 {
      assert SameChar(t[w + 0], "Yes"[0], true) && SameChar(t[w + 2], "Yes"[2], true);
      LetterIsNotSpace(d, t[w]);
      LetterIsNotSpace(d, t[w + 2]);
      assert forall k :: 0 <= k < 3 ==> s[k] == t[w + k];
    } else {
      assert SameChar(t[w + 0], "No"[0], true) && SameChar(t[w + 1], "No"[1], true);
      LetterIsNotSpace(d, t[w]);
      LetterIsNotSpace(d, t[w + 1]);
      assert forall k :: 0 <= k < 2 ==> s[k] == t[w + k];
    }
    StripUnchanged(d, s);
  }

  lemma {:induction false} LetterIsNotSpace(d: Dialect, c: char)
    requires 'A' <= Upper(c) <= 'Z'
    ensures !IsSpace(d, c)
  {
  }

  /** The transfer answer is `Yes` or `No` as the text writes it, in any case. */
  lemma {:induction false} TransferValueIsAnswer(d: Dialect, t: String)
    ensures var v := TransferValue(d, t);
      v.Some? ==> (|v.value| == 3 && OccursAt(v.value, 0, "Yes", true)) || (|v.value| == 2 && OccursAt(v.value, 0, "No", true))
  {
    var r := Leftmost(|t| + 1, 0, TransferFound(d, t));
    if r.Some? {
      var g := TransferAt(d, t, r.value).value;
      AnswerAt(d, t, g.0);
    }
  }

  /** The transfer pattern matches wherever the question is followed by white space and an answer. */
  lemma {:induction false} TransferFoundHere(d: Dialect, t: String, p: nat, w: nat)
    requires OccursAt(t, p, TransferQuestion, true) && p + |TransferQuestion| <= w <= |t|
    requires forall j :: p + |TransferQuestion| <= j < w ==> IsSpace(d, t[j])
    requires YesNoAt(t, w).Some?
    ensures TransferValue(d, t).Some?
  {
    TransferAtHere(d, t, p, w);
    TransferFoundAt(d, t, p);
  }

  lemma {:induction false} TransferFoundAt(d: Dialect, t: String, p: nat)
    requires p <= |t| && TransferAt(d, t, p).Some?
    ensures TransferValue(d, t).Some?
  {
    assert TransferFound(d, t)(p);
    LeftmostFinds(|t| + 1, 0, TransferFound(d, t), p);
  }

  lemma {:induction false} TransferAtHere(d: Dialect, t: String, p: nat, w: nat)
    requires OccursAt(t, p, TransferQuestion, true) && p + |TransferQuestion| <= w <= |t|
    requires forall j :: p + |TransferQuestion| <= j < w ==> IsSpace(d, t[j])
    requires YesNoAt(t, w).Some?
    ensures TransferAt(d, t, p).Some?
  {
    var q := p + |TransferQuestion|;
    RunEndCovers(t, q, w, Space(d));
    YesNoBackReaches(t, q, RunEnd(t, q, Space(d)), w);
  }

  lemma {:induction false} YesNoBackReaches(t: String, q: nat, w: nat, a: nat)
    requires q <= a <= w && YesNoAt(t, a).Some?
    decreases w
    ensures YesNoBack(t, q, w).Some?
  {
    if YesNoAt(t, w).None? {
      YesNoBackReaches(t, q, w - 1, a);
    }
  }

  /** The five metadata searches. */
  function MetadataOf(d: Dialect, t: String): Metadata
  {
    Metadata(
      LabelValue(d, t, TitleLabels), LabelValue(d, t, SerialLabels), LabelValue(d, t, AppropriationLabels),
      TransferValue(d, t), LabelValue(d, t, ComponentLabels))
  }

  /**
   * `_extract_metadata` and `extractMetadata`: start from no entries and add each
   * one whose pattern matches.
   */
  method ExtractMetadata(d: Dialect, t: String) returns (m: Metadata)
    ensures m == MetadataOf(d, t)
  {
    m := Metadata(None, None, None, None, None);
    var title := LabelValue(d, t, TitleLabels);
    if title.Some? {
      m := m.(documentTitle := title);
    }
    var serial := LabelValue(d, t, SerialLabels);
    if serial.Some? {
      m := m.(serialNumber := serial);
    }
    var appropriation := LabelValue(d, t, AppropriationLabels);
    if appropriation.Some? {
      m := m.(appropriationTitle := appropriation);
    }
    var transfer := TransferValue(d, t);
    if transfer.Some? {
      m := m.(includesTransfer := transfer);
    }
    var component := LabelValue(d, t, ComponentLabels);
    if component.Some? {
      m := m.(componentSerial := component);
    }
  }

  /**
   * A label entry is there exactly when the text holds a match of its pattern, and it
   * is the stripped group of one; the transfer entry is an answer.
   */
  lemma {:induction false} MetadataEntries(d: Dialect, t: String)
    ensures var m := MetadataOf(d, t);
      (m.documentTitle.Some? <==> exists p: nat, k: nat, g0: nat, g1: nat :: IsLabelMatch(d, LineDot(d), NewlineOrEnd(d), t, TitleLabels, p, k, g0, g1))
      && (m.serialNumber.Some? <==> exists p: nat, k: nat, g0: nat, g1: nat :: IsLabelMatch(d, LineDot(d), NewlineOrEnd(d), t, SerialLabels, p, k, g0, g1))
      && (m.appropriationTitle.Some? <==> exists p: nat, k: nat, g0: nat, g1: nat :: IsLabelMatch(d, LineDot(d), NewlineOrEnd(d), t, AppropriationLabels, p, k, g0, g1))
      && (m.componentSerial.Some? <==> exists p: nat, k: nat, g0: nat, g1: nat :: IsLabelMatch(d, LineDot(d), NewlineOrEnd(d), t, ComponentLabels, p, k, g0, g1))
    ensures var v := MetadataOf(d, t).includesTransfer;
      v.Some? ==> (|v.value| == 3 && OccursAt(v.value, 0, "Yes", true)) || (|v.value| == 2 && OccursAt(v.value, 0, "No", true))
  {
    LabelValueMatches(d, t, TitleLabels);
    LabelValueMatches(d, t, SerialLabels);
    LabelValueMatches(d, t, AppropriationLabels);
    LabelValueMatches(d, t, ComponentLabels);
    TransferValueIsAnswer(d, t);
  }

  // The funding pattern `(?:transfers?|funding)\s*\$?([\d,]+)`, case-insensitive.

  /**
   * `\s*\$?([\d,]+)` once `\s*` holds the white space from `q` up to `w`: the optional
   * `$` is tried taken, then left out, and then `\s*` gives back a character. The group
   * is the whole run of digits and commas.
   */
  function AmountBack(t: String, q: nat, w: nat): (r: Option<(nat, nat)>)
    requires q <= w <= |t|
    decreases w
    ensures r.Some? ==> q <= r.value.0 < r.value.1 <= |t| && r.value.1 == RunEnd(t, r.value.0, DigitOrComma)
  {
    if w < |t| && t[w] == '$' && RunEnd(t, w + 1, DigitOrComma) > w + 1 then Some((w + 1, RunEnd(t, w + 1, DigitOrComma)))
    else if RunEnd(t, w, DigitOrComma) > w then Some((w, RunEnd(t, w, DigitOrComma)))
    else if w == q then None
    else AmountBack(t, q, w - 1)
  }

  function AmountAfter(d: Dialect, t: String, q: nat): (r: Option<(nat, nat)>)
    requires q <= |t|
    ensures r.Some? ==> q <= r.value.0 < r.value.1 <= |t| && r.value.1 == RunEnd(t, r.value.0, DigitOrComma)
  {
    AmountBack(t, q, RunEnd(t, q, Space(d)))
  }

  /** The funding pattern at `p`, its alternatives `transfers`, `transfer`, `funding` in order: the group's bounds. */
  function FundingAt(d: Dialect, t: String, p: nat): (r: Option<(nat, nat)>)
    ensures r.Some? ==> p < r.value.0 < r.value.1 <= |t| && r.value.1 == RunEnd(t, r.value.0, DigitOrComma)
  {
    if OccursAt(t, p, "transfers", true) && AmountAfter(d, t, p + 9).Some? then AmountAfter(d, t, p + 9)
    else if OccursAt(t, p, "transfer", true) && AmountAfter(d, t, p + 8).Some? then AmountAfter(d, t, p + 8)
    else if OccursAt(t, p, "funding", true) then AmountAfter(d, t, p + 7)
    else None
  }

  /** The funding group is a whole run of digits and commas: nothing of the class follows it. */
  lemma {:induction false} FundingGroup(d: Dialect, t: String, p: nat)
    requires FundingAt(d, t, p).Some?
    ensures var g := FundingAt(d, t, p).value;
      AllIn(t[g.0..g.1], DigitOrComma) && (g.1 == |t| || !InClass(t[g.1], DigitOrComma))
  {
    var g := FundingAt(d, t, p).value;
    forall j | 0 <= j < g.1 - g.0 ensures InClass(t[g.0..g.1][j], DigitOrComma) {
      assert t[g.0..g.1][j] == t[g.0 + j];
    }
  }

  function FundingEnd(d: Dialect, t: String, p: nat): Option<nat>
  {
    if FundingAt(d, t, p).Some? then Some(FundingAt(d, t, p).value.1) else None
  }

  function FundingEnds(d: Dialect, t: String): nat -> Option<nat>
  {
    (p: nat) => FundingEnd(d, t, p)
  }

  /** Every match of the funding pattern, in text order: start and end. */
  function FundingMatches(d: Dialect, t: String): seq<(nat, nat)>
  {
    AllMatches(|t|, 0, FundingEnds(d, t))
  }

  /**
   * The funding matches are real matches, in text order and not overlapping, and
   * none is missed: nothing between one match's end and the next start matches, nor
   * anything after the last.
   */
  lemma {:induction false} FundingMatchesAt(d: Dialect, t: String, k: nat)
    requires k < |FundingMatches(d, t)|
    ensures var ms := FundingMatches(d, t);
      ms[k].0 < ms[k].1 <= |t| && FundingAt(d, t, ms[k].0).Some? && FundingAt(d, t, ms[k].0).value.1 == ms[k].1
      && (k > 0 ==> ms[k - 1].1 <= ms[k].0)
      && forall j :: (if k == 0 then 0 else ms[k - 1].1) <= j < ms[k].0 ==> FundingAt(d, t, j).None?
  {
    FundingMatchIs(d, t, k);
    if k > 0 {
      FundingMatchIs(d, t, k - 1);
    }
    FundingGap(d, t, k);
  }

  lemma {:induction false} FundingMatchIs(d: Dialect, t: String, k: nat)
    requires k < |FundingMatches(d, t)|
    ensures var ms := FundingMatches(d, t);
      SearchStart(ms, 0, k) <= ms[k].0 && FundingAt(d, t, ms[k].0).Some? && FundingAt(d, t, ms[k].0).value.1 == ms[k].1
  {
    var ms := FundingMatches(d, t);
    AllMatchesAt(|t|, 0, FundingEnds(d, t), k);
    assert FundingEnds(d, t)(ms[k].0) == Some(ms[k].1);
  }

  lemma {:induction false} FundingGap(d: Dialect, t: String, k: nat)
    requires k < |FundingMatches(d, t)|
    ensures var ms := FundingMatches(d, t);
      forall j :: SearchStart(ms, 0, k) <= j < ms[k].0 ==> FundingAt(d, t, j).None?
  {
    var ms := FundingMatches(d, t);
    AllMatchesAt(|t|, 0, FundingEnds(d, t), k);
    forall j | SearchStart(ms, 0, k) <= j < ms[k].0 ensures FundingAt(d, t, j).None? {
      assert FundingEnds(d, t)(j).None?;
    }
  }

  // The table pattern `(Program Base|Congressional Action|Reprogramming Action|Revised Program)`, case-insensitive.

  const TableWords: seq<String> := ["Program Base", "Congressional Action", "Reprogramming Action", "Revised Program"]

  /** The first alternative from `k` on that occurs at `p`: where the match ends. */
  function WordAt(t: String, p: nat, k: nat): (e: Option<nat>)
    decreases |TableWords| - k
    ensures e.Some? ==> p < e.value <= |t|
  {
    if k >= |TableWords| then None
    else if OccursAt(t, p, TableWords[k], true) then Some(p + |TableWords[k]|)
    else WordAt(t, p, k + 1)
  }

  /** The table match at `p` is one of the headings, up to case. */
  lemma {:induction false} WordAtIsHeading(t: String, p: nat, k: nat)
    requires WordAt(t, p, k).Some?
    decreases |TableWords| - k
    ensures exists m :: k <= m < |TableWords| && OccursAt(t, p, TableWords[m], true) && WordAt(t, p, k).value == p + |TableWords[m]|
  {
    if !OccursAt(t, p, TableWords[k], true) {
      WordAtIsHeading(t, p, k + 1);
    }
  }

  function WordEnds(t: String): nat -> Option<nat>
  {
    (p: nat) => WordAt(t, p, 0)
  }

  /** Every match of the table pattern, in text order. */
  function WordMatches(t: String): seq<(nat, nat)>
  {
    AllMatches(|t|, 0, WordEnds(t))
  }

  /**
   * Every table match is one of the four headings, up to case, and the matches come
   * in text order without overlapping.
   */
  lemma {:induction false} WordMatchesAt(t: String, k: nat)
    requires k < |WordMatches(t)|
    ensures var ms := WordMatches(t);
      ms[k].0 < ms[k].1 <= |t| && (k > 0 ==> ms[k - 1].1 <= ms[k].0)
      && exists m :: 0 <= m < |TableWords| && OccursAt(t, ms[k].0, TableWords[m], true) && ms[k].1 == ms[k].0 + |TableWords[m]|
  {
    var ms := WordMatches(t);
    AllMatchesAt(|t|, 0, WordEnds(t), k);
    assert WordEnds(t)(ms[k].0) == Some(ms[k].1);
    if k > 0 {
      AllMatchesAt(|t|, 0, WordEnds(t), k - 1);
      assert WordEnds(t)(ms[k - 1].0) == Some(ms[k - 1].1);
    }
    WordAtIsHeading(t, ms[k].0, 0);
  }

  /** Every span of the list is a non-empty piece of the text. */
  predicate NonEmptySpans(t: String, ms: seq<(nat, nat)>)
  {
    forall k :: 0 <= k < |ms| ==> ms[k].0 < ms[k].1 <= |t|
  }

  lemma {:induction false} FundingSpans(d: Dialect, t: String)
    ensures NonEmptySpans(t, FundingMatches(d, t))
  {
    forall k | 0 <= k < |FundingMatches(d, t)| ensures FundingMatches(d, t)[k].0 < FundingMatches(d, t)[k].1 <= |t| {
      FundingMatchIs(d, t, k);
    }
  }

  lemma {:induction false} WordSpans(t: String)
    ensures NonEmptySpans(t, WordMatches(t))
  {
    forall k | 0 <= k < |WordMatches(t)| ensures WordMatches(t)[k].0 < WordMatches(t)[k].1 <= |t| {
      WordMatchesAt(t, k);
    }
  }

  // The description pattern: a marker, then a lazy group of any characters up to a tail.

  const DescriptionMarkers: seq<String> := ["This reprogramming action provides funding for", "This action provides", "The action provides"]

  /** `(?:M1|M2|M3)(.+?)tail` with DOTALL at `p`, markers in order: the group's bounds. */
  function MarkerAlternatives(tail: Tail, t: String, p: nat, k: nat): (r: Option<(nat, nat)>)
    decreases |DescriptionMarkers| - k
    ensures r.Some? ==> p < r.value.0 <= |t| && LazyPlus(AnyChar, tail, t, r.value.0) == Some(r.value.1)
  {
    if k >= |DescriptionMarkers| then None
    else if OccursAt(t, p, DescriptionMarkers[k], true) && LazyPlus(AnyChar, tail, t, p + |DescriptionMarkers[k]|).Some? then
      Some((p + |DescriptionMarkers[k]|, LazyPlus(AnyChar, tail, t, p + |DescriptionMarkers[k]|).value))
    else MarkerAlternatives(tail, t, p, k + 1)
  }

  lemma {:induction false} MarkerAlternativesSound(tail: Tail, t: String, p: nat, k: nat)
    requires MarkerAlternatives(tail, t, p, k).Some?
    decreases |DescriptionMarkers| - k
    ensures exists m :: (k <= m < |DescriptionMarkers| && OccursAt(t, p, DescriptionMarkers[m], true)
      && MarkerAlternatives(tail, t, p, k).value.0 == p + |DescriptionMarkers[m]|)
  {
    if !(OccursAt(t, p, DescriptionMarkers[k], true) && LazyPlus(AnyChar, tail, t, p + |DescriptionMarkers[k]|).Some?) {
      MarkerAlternativesSound(tail, t, p, k + 1);
    }
  }

  function MarkerFound(tail: Tail, t: String): nat -> bool
  {
    (p: nat) => MarkerAlternatives(tail, t, p, 0).Some?
  }

  /** The group of the leftmost match of the marker pattern with the given tail. */
  function MarkerGroup(tail: Tail, t: String): (r: Option<(nat, nat)>)
    ensures r.Some? ==> r.value.0 < r.value.1 <= |t|
  {
    match Leftmost(|t| + 1, 0, MarkerFound(tail, t))
    case None => None
    case Some(p) => MarkerAlternatives(tail, t, p, 0)
  }

  /**
   * The marker group starts right after an occurrence of a marker and stops at the
   * first place after its first character where the tail matches.
   */
  lemma {:induction false} MarkerGroupSound(tail: Tail, t: String)
    requires MarkerGroup(tail, t).Some?
    ensures var g := MarkerGroup(tail, t).value;
      (exists p: nat, m :: 0 <= m < |DescriptionMarkers| && OccursAt(t, p, DescriptionMarkers[m], true) && g.0 == p + |DescriptionMarkers[m]|)
      && TailAt(tail, t, g.1) && forall j :: g.0 < j < g.1 ==> !TailAt(tail, t, j)
  {
    var g := MarkerGroup(tail, t).value;
    var p := Leftmost(|t| + 1, 0, MarkerFound(tail, t)).value;
    MarkerAlternativesSound(tail, t, p, 0);
    LazyPlusSound(AnyChar, tail, t, g.0);
  }

  /** The description: the stripped group of `(?:M1|M2|M3)(.+?)(?:\.|$)` with DOTALL and IGNORECASE. */
  function Description(d: Dialect, t: String): Option<String>
  {
    match MarkerGroup(WordsOrEnd(d, ["."]), t)
    case None => None
    case Some(g) => Some(Strip(d, t[g.0..g.1]))
  }

  /** The tail `(?:\.|$)` matches at a period or where `$` does. */
  lemma {:induction false} PeriodTail(d: Dialect, t: String, e: nat)
    ensures TailAt(WordsOrEnd(d, ["."]), t, e) <==> (e < |t| && t[e] == '.') || DollarAt(d, t, e)
  {
    if e < |t| && t[e] == '.' {
      assert SameChar(t[e + 0], "."[0], true);
      assert OccursAt(t, e, ["."][0], true);
    }
    if AnyOccursAt(t, e, ["."], true) {
      var k :| 0 <= k < |["."]| && OccursAt(t, e, ["."][k], true);
      assert SameChar(t[e + 0], "."[0], true);
    }
  }

  /** A marker followed by at least one character always gives a description. */
  lemma {:induction false} DescriptionFound(d: Dialect, t: String, p: nat, m: nat)
    requires m < |DescriptionMarkers| && OccursAt(t, p, DescriptionMarkers[m], true) && p + |DescriptionMarkers[m]| < |t|
    ensures Description(d, t).Some?
  {
    var tail := WordsOrEnd(d, ["."]);
    assert TailAt(tail, t, |t|);
    MarkerGroupFound(tail, t, p, m);
  }

  lemma {:induction false} MarkerGroupFound(tail: Tail, t: String, p: nat, m: nat)
    requires m < |DescriptionMarkers| && OccursAt(t, p, DescriptionMarkers[m], true) && p + |DescriptionMarkers[m]| < |t|
    requires TailAt(tail, t, |t|)
    ensures MarkerGroup(tail, t).Some?
  {
    MarkerFoundAt(tail, t, p, m);
    MarkerGroupOfFound(tail, t, p);
  }

  /** A start where the pattern matches gives a marker group. */
  lemma {:induction false} MarkerGroupOfFound(tail: Tail, t: String, p: nat)
    requires p <= |t| && MarkerFound(tail, t)(p)
    ensures MarkerGroup(tail, t).Some?
  {
    LeftmostFinds(|t| + 1, 0, MarkerFound(tail, t), p);
    var v := Leftmost(|t| + 1, 0, MarkerFound(tail, t)).value;
    assert MarkerFound(tail, t)(v);
  }

  /** When the tail matches at the end, the pattern matches at every marker occurrence with a character after it. */
  lemma {:induction false} MarkerFoundAt(tail: Tail, t: String, p: nat, m: nat)
    requires m < |DescriptionMarkers| && OccursAt(t, p, DescriptionMarkers[m], true) && p + |DescriptionMarkers[m]| < |t|
    requires TailAt(tail, t, |t|)
    ensures MarkerFound(tail, t)(p)
  {
    var q := p + |DescriptionMarkers[m]|;
    LazyFromReaches(AnyChar, tail, t, q + 1, |t|);
    assert LazyPlus(AnyChar, tail, t, q).Some?;
    MarkerAlternativesReaches(tail, t, p, 0, m);
  }

  /** No marker with a character after it occurs before `p`. */
  predicate NoMarkerBefore(t: String, p: nat)
  {
    forall q: nat, k :: 0 <= k < |DescriptionMarkers| && OccursAt(t, q, DescriptionMarkers[k], true) && q + |DescriptionMarkers[k]| < |t| ==> p <= q
  }

  /**
   * When the tail matches at the end, the marker group follows the leftmost marker
   * occurrence that has a character after it: the match starts at or before every
   * such occurrence.
   */
  lemma {:induction false} MarkerGroupFirst(tail: Tail, t: String)
    requires MarkerGroup(tail, t).Some? && TailAt(tail, t, |t|)
    ensures var g := MarkerGroup(tail, t).value;
      exists p: nat, m :: 0 <= m < |DescriptionMarkers| && OccursAt(t, p, DescriptionMarkers[m], true) && g.0 == p + |DescriptionMarkers[m]|
        && NoMarkerBefore(t, p)
  {
    var g := MarkerGroup(tail, t).value;
    var p := Leftmost(|t| + 1, 0, MarkerFound(tail, t)).value;
    assert g == MarkerAlternatives(tail, t, p, 0).value;
    MarkerAlternativesSound(tail, t, p, 0);
    var m :| 0 <= m < |DescriptionMarkers| && OccursAt(t, p, DescriptionMarkers[m], true) && g.0 == p + |DescriptionMarkers[m]|;
    LeftmostMarker(tail, t, p);
  }

  /** The leftmost start of the marker pattern is at or before every marker with a character after it. */
  lemma {:induction false} LeftmostMarker(tail: Tail, t: String, p: nat)
    requires TailAt(tail, t, |t|) && Leftmost(|t| + 1, 0, MarkerFound(tail, t)) == Some(p)
    ensures NoMarkerBefore(t, p)
  {
    forall q: nat, k | 0 <= k < |DescriptionMarkers| && OccursAt(t, q, DescriptionMarkers[k], true) && q + |DescriptionMarkers[k]| < |t|
      ensures p <= q
    {
      MarkerFoundAt(tail, t, q, k);
      LeftmostFinds(|t| + 1, 0, MarkerFound(tail, t), q);
    }
  }



  lemma {:induction false} MarkerAlternativesReaches(tail: Tail, t: String, p: nat, i: nat, m: nat)
    requires i <= m < |DescriptionMarkers| && OccursAt(t, p, DescriptionMarkers[m], true)
    requires LazyPlus(AnyChar, tail, t, p + |DescriptionMarkers[m]|).Some?
    decreases m - i
    ensures MarkerAlternatives(tail, t, p, i).Some?
  {
    var here := OccursAt(t, p, DescriptionMarkers[i], true) && LazyPlus(AnyChar, tail, t, p + |DescriptionMarkers[i]|).Some?;
    if i < m && !here {
      MarkerAlternativesReaches(tail, t, p, i + 1, m);
      assert MarkerAlternatives(tail, t, p, i) == MarkerAlternatives(tail, t, p, i + 1);
    } else if i == m {
      assert here;
    }
  }
}

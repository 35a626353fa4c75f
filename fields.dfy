/**
 * The per-section field patterns of the exact transformer
 * (src/pdf_to_exact_csv_transformer.py): the budget activity header, the budget
 * title that would follow it on the next line, the explanation, and the amounts.
 */
module Fields {
  import opened Text
  import opened Regex
  import opened Numbers

  const ActivityWord: String := "Budget Activity "

  /**
   * `Budget Activity (\d+):` at `p`: the index of the colon. Greedy `\d+` takes the
   * whole digit run and giving digits back cannot put a colon after it.
   */
  function ActivityHeader(t: String, p: nat): (d: Option<nat>)
    ensures d.Some? ==> OccursAt(t, p, ActivityWord, true) && p + |ActivityWord| < d.value < |t| && t[d.value] == ':'
    ensures d.Some? ==> AllIn(t[p + |ActivityWord|..d.value], Digit)
  {
    if OccursAt(t, p, ActivityWord, true) then
      var n := p + |ActivityWord|;
      var d := RunEnd(t, n, Digit);
      assert forall i :: 0 <= i < d - n ==> t[n..d][i] == t[n + i];
      if d > n && d < |t| && t[d] == ':' then Some(d) else None
    else None
  }

  /** `\s*(.+?)(?:\n|$)` after the colon at `d`: the bounds of the title group. */
  function TitleGroup(t: String, d: nat): (g: Option<(nat, nat)>)
    requires d < |t|
    ensures g.Some? ==> d < g.value.0 < g.value.1 <= |t|
  {
    SpacesThenLazy(Py, NotNewline, NewlineOrEnd(Py), t, d + 1)
  }

  /** `Budget Activity (\d+):\s*(.+?)(?:\n|$)` at `p`: the colon and the bounds of the title group. */
  function ActivityAt(t: String, p: nat): (r: Option<(nat, (nat, nat))>)
    ensures r.Some? ==> ActivityHeader(t, p) == Some(r.value.0)
    ensures r.Some? ==> r.value.0 < r.value.1.0 < r.value.1.1 <= |t| && TitleGroup(t, r.value.0) == Some(r.value.1)
  {
    match ActivityHeader(t, p)
    case None => None
    case Some(d) =>
      match TitleGroup(t, d)
      case None => None
      case Some(g) => Some((d, g))
  }

  /** `re.search` of the budget activity pattern: the leftmost start of a match. */
  function ActivitySearch(t: String): (r: Option<nat>)
    ensures r.Some? ==> r.value < |t| && ActivityAt(t, r.value).Some?
  {
    Leftmost(|t|, 0, (j: nat) => ActivityAt(t, j).Some?)
  }

  /** The search misses no earlier header: no match starts before the one it returns. */
  lemma {:induction false} ActivitySearchFirst(t: String, q: nat)
    requires ActivitySearch(t).None? || q < ActivitySearch(t).value
    ensures ActivityAt(t, q).None?
  {
    if q < |t| {
      LeftmostFirst(|t|, 0, (j: nat) => ActivityAt(t, j).Some?, q);
    }
  }

  /** `budget_activity_number` and `budget_activity_title`: the digits and the stripped title. */
  function BudgetActivity(t: String): (r: Option<(String, String)>)
    ensures r.Some? ==> |r.value.0| > 0 && AllIn(r.value.0, Digit)
    ensures r.Some? ==> r.value.1 == [] || (!IsPySpace(r.value.1[0]) && !IsPySpace(r.value.1[|r.value.1| - 1]))
  {
    match ActivitySearch(t)
    case None => None
    case Some(p) =>
      var m := ActivityAt(t, p).value;
      Some((t[p + |ActivityWord|..m.0], Strip(Py, t[m.1.0..m.1.1])))
  }

  /**
   * On text without a newline the title group can only stop at the end: after a
   * colon at `d` it matches when something follows the colon, and the title is the
   * stripped rest of the text.
   */
  lemma {:induction false} TitleGroupToEnd(t: String, d: nat)
    requires forall i :: 0 <= i < |t| ==> t[i] != '\n'
    requires d < |t|
    ensures TitleGroup(t, d).Some? <==> d + 1 < |t|
    ensures TitleGroup(t, d).Some? ==> TitleGroup(t, d).value.1 == |t|
    ensures TitleGroup(t, d).Some? ==> Strip(Py, t[TitleGroup(t, d).value.0..TitleGroup(t, d).value.1]) == Strip(Py, t[d + 1..])
  {
    NoNewlineRunsToEnd(t, d + 1);
    SpacesThenLazyToEnd(Py, NotNewline, NewlineOrEnd(Py), t, d + 1);
  }

  /**
   * On text without a newline the budget activity title is the stripped text after
   * the colon of the first header that has something after its colon.
   */
  lemma {:induction false} BudgetActivityToEnd(t: String)
    requires forall i :: 0 <= i < |t| ==> t[i] != '\n'
    ensures BudgetActivity(t).Some? ==> ActivityRunsToEnd(t, ActivitySearch(t).value, ActivityAt(t, ActivitySearch(t).value).value)
  {
    if BudgetActivity(t).Some? {
      var p := ActivitySearch(t).value;
      var m := ActivityAt(t, p).value;
      ActivityToEndAt(t, p, m);
    }
  }

  /**
   * The header matched at `p` has its colon at `m.0` with something after it, and the
   * budget activity is the header's digits and the stripped text after the colon.
   */
  predicate ActivityRunsToEnd(t: String, p: nat, m: (nat, (nat, nat)))
  {
    m.0 + 1 < |t| && BudgetActivity(t).Some? && p + |ActivityWord| <= m.0
    && BudgetActivity(t).value == (t[p + |ActivityWord|..m.0], Strip(Py, t[m.0 + 1..]))
  }

  lemma {:induction false} ActivityToEndAt(t: String, p: nat, m: (nat, (nat, nat)))
    requires forall i :: 0 <= i < |t| ==> t[i] != '\n'
    requires ActivitySearch(t) == Some(p) && ActivityAt(t, p) == Some(m)
    ensures ActivityRunsToEnd(t, p, m)
  {
    TitleGroupToEnd(t, m.0);
    assert TitleGroup(t, m.0) == Some(m.1);
    assert BudgetActivity(t) == Some((t[p + |ActivityWord|..m.0], Strip(Py, t[m.1.0..m.1.1])));
  }

  /**
   * The lazy `.+?\n` of the budget-title pattern (DOTALL) once it holds `t[w..m]`:
   * it stops at the first newline after which `(.+?)(?:\n|$)` matches. The result is
   * the bounds of the title group.
   */
  function TitleAfter(t: String, m: nat): (r: Option<(nat, nat)>)
    requires m <= |t|
    decreases |t| - m
    ensures r.Some? ==> m < r.value.0 < r.value.1 <= |t| && t[r.value.0 - 1] == '\n'
  {
    if m == |t| then None
    else if t[m] == '\n' then
      match LazyPlus(AnyChar, NewlineOrEnd(Py), t, m + 1)
      case Some(e) => Some((m + 1, e))
      case None => TitleAfter(t, m + 1)
    else TitleAfter(t, m + 1)
  }

  /** `\s*.+?\n(.+?)(?:\n|$)` once `\s*` holds `t[q..w]`, giving white space back when the rest fails. */
  function TitleBack(t: String, q: nat, w: nat): (r: Option<(nat, nat)>)
    requires q <= w <= |t|
    decreases w
    ensures r.Some? ==> q < r.value.0 < r.value.1 <= |t| && t[r.value.0 - 1] == '\n'
  {
    match (if w < |t| then TitleAfter(t, w + 1) else None)
    case Some(g) => Some(g)
    case None => if w == q then None else TitleBack(t, q, w - 1)
  }

  /** The budget-title pattern `Budget Activity \d+:\s*.+?\n(.+?)(?:\n|$)` at `p`. */
  function TitleAt(t: String, p: nat): (r: Option<(nat, nat)>)
    ensures r.Some? ==> p < r.value.0 < r.value.1 <= |t| && t[r.value.0 - 1] == '\n'
  {
    match ActivityHeader(t, p)
    case None => None
    case Some(d) => TitleBack(t, d + 1, RunEnd(t, d + 1, Space(Py)))
  }

  /** `budget_title`: the stripped group of the budget-title pattern at its leftmost match. */
  function BudgetTitle(t: String): (r: Option<String>)
    ensures r.Some? ==> r.value == [] || (!IsPySpace(r.value[0]) && !IsPySpace(r.value[|r.value| - 1]))
  {
    match Leftmost(|t|, 0, (j: nat) => TitleAt(t, j).Some?)
    case Some(p) =>
      var g := TitleAt(t, p).value;
      Some(Strip(Py, t[g.0..g.1]))
    case None => None
  }

  /** The budget-title pattern needs a newline: on text without one it never matches. */
  lemma {:induction false} BudgetTitleNeedsNewline(t: String)
    requires forall i :: 0 <= i < |t| ==> t[i] != '\n'
    ensures BudgetTitle(t).None?
  {
  }

  /** A budget title is found only where a newline follows the activity header somewhere. */
  lemma {:induction false} BudgetTitleHasNewline(t: String)
    requires BudgetTitle(t).Some?
    ensures exists i :: 0 <= i < |t| && t[i] == '\n'
  {
    var m := Leftmost(|t|, 0, (j: nat) => TitleAt(t, j).Some?);
    var g := TitleAt(t, m.value).value;
    assert t[g.0 - 1] == '\n';
  }

  const ExplanationLabel: String := "Explanation:"

  /** `Explanation:\s*(.+?)(?:\n\n|$)` (IGNORECASE, DOTALL), stripped. */
  function Explanation(t: String): (r: Option<String>)
    ensures r.Some? ==> r.value == [] || (!IsPySpace(r.value[0]) && !IsPySpace(r.value[|r.value| - 1]))
  {
    match LabelSearch(Py, AnyChar, BlankLineOrEnd, t, [ExplanationLabel], 0)
    case Some(g) => Some(Strip(Py, t[g.0..g.1]))
    case None => None
  }

  /**
   * On text without a newline the explanation runs to the end of the text: it is the
   * stripped text after the first `Explanation:`, found when something follows it.
   */
  lemma {:induction false} ExplanationToEnd(t: String)
    requires forall i :: 0 <= i < |t| ==> t[i] != '\n'
    ensures Find(t, ExplanationLabel, 0, true).None? ==> Explanation(t).None?
    ensures Find(t, ExplanationLabel, 0, true).Some? ==>
      var q := Find(t, ExplanationLabel, 0, true).value + |ExplanationLabel|;
      (Explanation(t).Some? <==> q < |t|)
      && (Explanation(t).Some? ==> q <= |t| && Explanation(t).value == Strip(Py, t[q..]))
  {
    NoNewlineRunsToEnd(t, 0);
    SingleLabelToEnd(Py, AnyChar, BlankLineOrEnd, t, ExplanationLabel, 0);
  }

  /** The keys of the amounts dict of `_extract_amounts`. */
  datatype AmountKey = Reprogramming | ProgramBase | RevisedTotal

  const BaseWord: String := "Program Base"

  /**
   * `Program Base[:\s]*([\d,]+)` at `p` (IGNORECASE): greedy `[:\s]*` takes its whole
   * run, and giving back a colon or a space cannot start a digit run.
   */
  function ProgramBaseAt(t: String, p: nat): (r: Option<String>)
    ensures r.Some? ==> |r.value| > 0 && AllIn(r.value, DigitOrComma)
  {
    if OccursAt(t, p, BaseWord, true) then
      var c := RunEnd(t, p + |BaseWord|, ColonOrSpace);
      var e := RunEnd(t, c, DigitOrComma);
      assert forall i :: 0 <= i < e - c ==> t[c..e][i] == t[c + i];
      if e > c then Some(t[c..e]) else None
    else None
  }

  /** `re.search` of the program-base pattern: the group at its leftmost match. */
  function ProgramBaseSearch(t: String): (r: Option<String>)
    ensures r.Some? ==> |r.value| > 0 && AllIn(r.value, DigitOrComma)
  {
    match Leftmost(|t|, 0, (j: nat) => ProgramBaseAt(t, j).Some?)
    case Some(p) => ProgramBaseAt(t, p)
    case None => None
  }

  /** A digit-and-comma group read as `int(group.replace(',', ''))`; None where Python raises ValueError. */
  function GroupValue(s: String): Option<nat>
  {
    ParseInt(RemoveCommas(s))
  }

  /** The entries of the two searches: the `+` group and the program-base group. */
  function Searched(t: String): map<AmountKey, String>
  {
    var withRep := match SignedNumber(t, '+', 0)
      case Some(r) => map[Reprogramming := r]
      case None => map[];
    match ProgramBaseSearch(t)
    case Some(b) => withRep[ProgramBase := b]
    case None => withRep
  }

  /** The revised total entry, added when both amounts read as integers. */
  function WithTotal(a: map<AmountKey, String>): map<AmountKey, String>
  {
    if ProgramBase in a && Reprogramming in a
      && GroupValue(a[ProgramBase]).Some? && GroupValue(a[Reprogramming]).Some?
    then a[RevisedTotal := FormatThousands(GroupValue(a[ProgramBase]).value + GroupValue(a[Reprogramming]).value)]
    else a
  }

  /** The dict `_extract_amounts` returns. */
  function Amounts(t: String): map<AmountKey, String>
  {
    WithTotal(Searched(t))
  }

  /** `_extract_amounts`, filling the dict entry by entry. */
  method ExtractAmounts(t: String) returns (amounts: map<AmountKey, String>)
    ensures amounts == Amounts(t)
  {
    amounts := map[];
    var reprogramming := SignedNumber(t, '+', 0);
    if reprogramming.Some? {
      amounts := amounts[Reprogramming := reprogramming.value];
    }
    var programBase := ProgramBaseSearch(t);
    if programBase.Some? {
      amounts := amounts[ProgramBase := programBase.value];
    }
    assert amounts == Searched(t);
    if ProgramBase in amounts && Reprogramming in amounts && amounts[ProgramBase] != [] && amounts[Reprogramming] != [] {
      var base := GroupValue(amounts[ProgramBase]);
      var rep := GroupValue(amounts[Reprogramming]);
      if base.Some? && rep.Some? {
        amounts := amounts[RevisedTotal := FormatThousands(base.value + rep.value)];
      }
    }
  }

  /** The reprogramming and program-base entries are exactly the groups the two searches find. */
  lemma {:induction false} AmountsFound(t: String)
    ensures Reprogramming in Amounts(t) <==> SignedNumber(t, '+', 0).Some?
    ensures Reprogramming in Amounts(t) ==> Amounts(t)[Reprogramming] == SignedNumber(t, '+', 0).value
    ensures ProgramBase in Amounts(t) <==> ProgramBaseSearch(t).Some?
    ensures ProgramBase in Amounts(t) ==> Amounts(t)[ProgramBase] == ProgramBaseSearch(t).value
  {
  }

  /**
   * The revised total is there exactly when both amounts are there and both read as
   * integers; it is their sum, written without leading zeros and grouped by commas every
   * three digits.
   */
  lemma {:induction false} AmountsRevisedTotal(t: String)
    ensures var a := Amounts(t);
      RevisedTotal in a <==>
        (ProgramBase in a && Reprogramming in a && GroupValue(a[ProgramBase]).Some? && GroupValue(a[Reprogramming]).Some?)
    ensures var a := Amounts(t);
      RevisedTotal in a ==>
        Grouped(a[RevisedTotal])
        && RemoveCommas(a[RevisedTotal]) == Decimal(GroupValue(a[ProgramBase]).value + GroupValue(a[Reprogramming]).value)
        && GroupValue(a[RevisedTotal]) == Some(GroupValue(a[ProgramBase]).value + GroupValue(a[Reprogramming]).value)
  {
    AmountsUnfold(t);
    TotalAdded(Searched(t), Amounts(t));
  }

  lemma {:induction false} AmountsUnfold(t: String)
    ensures RevisedTotal !in Searched(t) && Amounts(t) == WithTotal(Searched(t))
  {
  }

  /** WithTotal adds the revised total to a map without one exactly when both amounts read as integers. */
  lemma {:induction false} TotalAdded(s: map<AmountKey, String>, a: map<AmountKey, String>)
    requires RevisedTotal !in s && a == WithTotal(s)
    ensures RevisedTotal in a <==>
      (ProgramBase in a && Reprogramming in a && GroupValue(a[ProgramBase]).Some? && GroupValue(a[Reprogramming]).Some?)
    ensures RevisedTotal in a ==>
      Grouped(a[RevisedTotal])
      && RemoveCommas(a[RevisedTotal]) == Decimal(GroupValue(a[ProgramBase]).value + GroupValue(a[Reprogramming]).value)
      && GroupValue(a[RevisedTotal]) == Some(GroupValue(a[ProgramBase]).value + GroupValue(a[Reprogramming]).value)
  {
  }

  /** A group of digits and commas reads as an integer exactly when it holds a digit. */
  lemma {:induction false} GroupValueDefined(s: String)
    requires AllIn(s, DigitOrComma)
    ensures GroupValue(s).Some? <==> exists i :: 0 <= i < |s| && IsDigit(s[i])
  {
    RemoveCommasOfDigits(s);
    RemoveCommasKeepsDigits(s);
  }

  lemma {:induction false} RemoveCommasKeepsDigits(s: String)
    requires AllIn(s, DigitOrComma)
    ensures RemoveCommas(s) != [] <==> exists i :: 0 <= i < |s| && IsDigit(s[i])
  {
    if s != [] {
      assert AllIn(s[1..], DigitOrComma) by {
        forall i | 0 <= i < |s| - 1 ensures InClass(s[1..][i], DigitOrComma) {
          assert s[1..][i] == s[i + 1];
        }
      }
      RemoveCommasKeepsDigits(s[1..]);
      assert [s[0]] + s[1..] == s;
      RemoveCommasAppend([s[0]], s[1..]);
      if exists i :: 0 <= i < |s| && IsDigit(s[i]) {
        var i :| 0 <= i < |s| && IsDigit(s[i]);
        if i > 0 {
          assert IsDigit(s[1..][i - 1]);
        }
      }
      if exists i :: 0 <= i < |s| - 1 && IsDigit(s[1..][i]) {
        var i :| 0 <= i < |s| - 1 && IsDigit(s[1..][i]);
        assert IsDigit(s[i + 1]);
      }
    }
  }

  /** `_extract_decrease_amount`: the group of `-([\d,]+)`, or `""`. */
  function DecreaseAmount(t: String): (r: String)
    ensures r == [] <==> SignedNumber(t, '-', 0).None?
    ensures AllIn(r, DigitOrComma)
  {
    match SignedNumber(t, '-', 0)
    case Some(n) => n
    case None => []
  }

  /** A group the number searches find holds only characters of the text. */
  lemma {:induction false} SignedNumberFromText(t: String, sign: char, p: nat, c: char)
    requires Lacks(t, c)
    requires SignedNumber(t, sign, p).Some?
    decreases |t| - p
    ensures Lacks(SignedNumber(t, sign, p).value, c)
  {
    if !(t[p] == sign && RunEnd(t, p + 1, DigitOrComma) > p + 1) {
      SignedNumberFromText(t, sign, p + 1, c);
    } else {
      var r := t[p + 1..RunEnd(t, p + 1, DigitOrComma)];
      assert forall i :: 0 <= i < |r| ==> r[i] == t[p + 1 + i];
    }
  }

  /** The program-base group holds only characters of the text. */
  lemma {:induction false} ProgramBaseFromText(t: String, c: char)
    requires Lacks(t, c) && ProgramBaseSearch(t).Some?
    ensures Lacks(ProgramBaseSearch(t).value, c)
  {
    var p := Leftmost(|t|, 0, (j: nat) => ProgramBaseAt(t, j).Some?).value;
    ProgramBaseAtFromText(t, p, c);
  }

  lemma {:induction false} ProgramBaseAtFromText(t: String, p: nat, c: char)
    requires Lacks(t, c) && ProgramBaseAt(t, p).Some?
    ensures Lacks(ProgramBaseAt(t, p).value, c)
  {
    var b := RunEnd(t, p + |BaseWord|, ColonOrSpace);
    var e := RunEnd(t, b, DigitOrComma);
    assert ProgramBaseAt(t, p).value == t[b..e];
    assert forall i :: 0 <= i < e - b ==> t[b..e][i] == t[b + i];
  }

  /** The two amounts `_extract_amounts` finds hold only characters of the text. */
  lemma {:induction false} AmountsFromText(t: String, c: char)
    requires Lacks(t, c)
    ensures Reprogramming in Amounts(t) ==> Lacks(Amounts(t)[Reprogramming], c)
    ensures ProgramBase in Amounts(t) ==> Lacks(Amounts(t)[ProgramBase], c)
  {
    AmountsFound(t);
    if SignedNumber(t, '+', 0).Some? {
      SignedNumberFromText(t, '+', 0, c);
    }
    if ProgramBaseSearch(t).Some? {
      ProgramBaseFromText(t, c);
    }
  }

  /**
   * After the OCR fix `0` to `O`, the `+` group stops at the first zero of the
   * printed number: `+25,000` has become `+25,OOO` and the group is `25,`.
   */
  lemma {:induction false} ZeroFixCutsAmount()
    ensures SignedNumber("+25,OOO", '+', 0) == Some("25,")
  {
    var t := "+25,OOO";
    assert !InClass(t[4], DigitOrComma);
    assert RunEnd(t, 4, DigitOrComma) == 4;
    assert InClass(t[3], DigitOrComma) && InClass(t[2], DigitOrComma) && InClass(t[1], DigitOrComma);
    assert RunEnd(t, 3, DigitOrComma) == 4;
    assert RunEnd(t, 2, DigitOrComma) == 4;
    assert RunEnd(t, 1, DigitOrComma) == 4;
    assert t[1..4] == "25,";
  }
}

/**
 * The browser library (js/excel-display.js): the exact CSV data built from the
 * appropriation rows it parses out of the OCR text, the raw-text chunks, and the
 * financial items with their sheet rows and total.
 */
module ExcelDisplay {
  import opened Text
  import opened Numbers
  import opened Regex
  import opened Schema
  import opened Fields
  import opened Report
  import opened Chunks
  import opened ExactCsv

  /** `ocrData.text || ''`: a missing text is the empty string. */
  function TextOf(text: Option<String>): String
  {
    if text.Some? then text.value else ""
  }

  // parseAppropriationData

  /** Where `KW[^]*?Explanation:` can match: the keyword, with `Explanation:` somewhere after it. */
  function ExplanationFound(kw: String, t: String): nat -> bool
  {
    (p: nat) => OccursAt(t, p, kw, true) && Find(t, ExplanationLabel, p + |kw|, true).Some?
  }

  /**
   * The group of `KW[^]*?Explanation:\s*([^]*?)(?=E1|...|$)` with the i flag. The match
   * starts at the leftmost keyword with `Explanation:` after it; the lazy `[^]*?` takes
   * the first `Explanation:` after the keyword, `\s*` all the white space after that
   * (the lazy group that follows always succeeds, so nothing is given back), and the
   * group stops at the first place where an end keyword or the end of the text follows.
   */
  function ExplanationAfter(kw: String, ends: seq<String>, t: String): (r: Option<(nat, nat)>)
    ensures r.Some? ==> r.value.0 <= r.value.1 <= |t|
  {
    match Leftmost(|t| + 1, 0, ExplanationFound(kw, t))
    case None => None
    case Some(p) =>
      var q := Find(t, ExplanationLabel, p + |kw|, true).value;
      var w := RunEnd(t, q + |ExplanationLabel|, Space(Js));
      Some((w, TailSearch(WordsOrEnd(Js, ends), t, w)))
  }

  /** The group of a kind's explanation pattern. */
  function ExplanationGroup(k: Kind, t: String): (r: Option<(nat, nat)>)
    ensures r.Some? ==> r.value.0 <= r.value.1 <= |t|
  {
    ExplanationAfter(StartWord(k), EndWords(k), t)
  }

  /** Where `KW[^]*?X([\d,]+)` can match: the keyword, with `X` and a digit or comma somewhere after it. */
  function AmountFound(kw: String, sign: char, t: String): nat -> bool
  {
    (p: nat) => OccursAt(t, p, kw, true) && SignedNumber(t, sign, p + |kw|).Some?
  }

  /** `extractAmount(text, /KW[^]*?X([\d,]+)/i)`: the group of the leftmost match, or `''`. */
  function ExtractAmount(t: String, kw: String, sign: char): (r: String)
    ensures AllIn(r, DigitOrComma)
  {
    match Leftmost(|t| + 1, 0, AmountFound(kw, sign, t))
    case None => ""
    case Some(p) => SignedNumber(t, sign, p + |kw|).value
  }

  /** The reprogramming amount of a row: the `+` amount, or `-` and the `-` amount for the decrease. */
  function RowAmount(k: Kind, t: String): String
  {
    if k == DefenseWideDecrease then "-" + ExtractAmount(t, StartWord(k), '-') else ExtractAmount(t, StartWord(k), '+')
  }

  /** The object `{category, branch, reprogramming_amount, explanation}` pushed for a match. */
  datatype JsRow = JsRow(category: String, branch: String, reprogrammingAmount: String, explanation: String)

  /** `row.f`: the four fields the object has, and `undefined` for every other column. */
  function Get(row: JsRow, f: Field): Option<String>
  {
    match f
    case Category => Some(row.category)
    case Branch => Some(row.branch)
    case ReprogrammingAmount => Some(row.reprogrammingAmount)
    case Explanation => Some(row.explanation)
    case _ => None
  }

  /** The row object a kind contributes, when its explanation pattern matches. */
  function RowOf(k: Kind, t: String): Option<JsRow>
  {
    match ExplanationGroup(k, t)
    case None => None
    case Some(g) => Some(JsRow(CategoryOf(k), BranchOf(k), RowAmount(k, t), Strip(Js, t[g.0..g.1])))
  }

  function RowFn(t: String): Kind -> Option<JsRow>
  {
    (k: Kind) => RowOf(k, t)
  }

  const JsKinds: seq<Kind> := [ArmyIncrease, NavyIncrease, AirForceIncrease, DefenseWideIncrease, DefenseWideDecrease]

  /** The rows `parseAppropriationData` returns: those of the kinds that match, in the order of the patterns. */
  function AppropriationRows(t: String): seq<JsRow>
  {
    Somes(JsKinds, RowFn(t))
  }

  /** The kinds that contribute a row, in order. */
  function PresentKinds(t: String): seq<Kind>
  {
    Which(JsKinds, RowFn(t))
  }

  /**
   * One block of `parseAppropriationData`: `text.match` with the kind's explanation
   * pattern, and when it matches, the object of the kind's category and branch, its
   * `extractAmount` (`'-'` and the amount for the decrease) and the trimmed group.
   */
  method MatchRow(t: String, k: Kind) returns (row: Option<JsRow>)
    ensures row == RowOf(k, t)
  {
    var m := ExplanationGroup(k, t);
    if m.Some? {
      var amount := if k == DefenseWideDecrease then "-" + ExtractAmount(t, StartWord(k), '-') else ExtractAmount(t, StartWord(k), '+');
      row := Some(JsRow(CategoryOf(k), BranchOf(k), amount, Strip(Js, t[m.value.0..m.value.1])));
    } else {
      row := None;
    }
  }

  /** `parseAppropriationData`: the five patterns in turn, each pushing its row when it matches. */
  method ParseAppropriationData(t: String) returns (data: seq<JsRow>)
    ensures data == AppropriationRows(t)
  {
    data := [];
    var army := MatchRow(t, ArmyIncrease);
    if army.Some? {
      data := data + [army.value];
    }
    ghost var upToArmy := data;
    Pushed([], army, upToArmy);
    var navy := MatchRow(t, NavyIncrease);
    if navy.Some? {
      data := data + [navy.value];
    }
    ghost var upToNavy := data;
    Pushed(upToArmy, navy, upToNavy);
    var airForce := MatchRow(t, AirForceIncrease);
    if airForce.Some? {
      data := data + [airForce.value];
    }
    ghost var upToAirForce := data;
    Pushed(upToNavy, airForce, upToAirForce);
    var defenseWide := MatchRow(t, DefenseWideIncrease);
    if defenseWide.Some? {
      data := data + [defenseWide.value];
    }
    ghost var upToDefenseWide := data;
    Pushed(upToAirForce, defenseWide, upToDefenseWide);
    var decrease := MatchRow(t, DefenseWideDecrease);
    if decrease.Some? {
      data := data + [decrease.value];
    }
    Pushed(upToDefenseWide, decrease, data);
    assert upToArmy == Opt(army);
    UnrollRows(t);
  }

  /** The rows are the optional rows of the five kinds, one after the other. */
  lemma {:induction false} UnrollRows(t: String)
    ensures AppropriationRows(t) == Opt(RowOf(ArmyIncrease, t)) + Opt(RowOf(NavyIncrease, t)) + Opt(RowOf(AirForceIncrease, t))
      + Opt(RowOf(DefenseWideIncrease, t)) + Opt(RowOf(DefenseWideDecrease, t))
  {
    var f := RowFn(t);
    var k4 := [DefenseWideDecrease];
    var k3 := [DefenseWideIncrease] + k4;
    var k2 := [AirForceIncrease] + k3;
    var k1 := [NavyIncrease] + k2;
    assert JsKinds == [ArmyIncrease] + k1;
    SomesCons(ArmyIncrease, k1, f);
    SomesCons(NavyIncrease, k2, f);
    SomesCons(AirForceIncrease, k3, f);
    SomesCons(DefenseWideIncrease, k4, f);
    SomesCons(DefenseWideDecrease, [], f);
    assert [DefenseWideDecrease] + [] == k4;
    JoinFive(Opt(f(ArmyIncrease)), Opt(f(NavyIncrease)), Opt(f(AirForceIncrease)), Opt(f(DefenseWideIncrease)),
      Opt(f(DefenseWideDecrease)));
  }

  /**
   * `parseAppropriationData` returns at most five rows, one per kind whose pattern
   * matches, in the order Army, Navy, Air Force, Defense-Wide increase, Defense-Wide
   * decrease. A kind contributes a row exactly when `Explanation:` follows its
   * keyword, case-insensitively. Each row holds the kind's category and branch, its
   * amount and its trimmed explanation, and nothing else.
   */
  lemma {:induction false} AppropriationRowsShape(t: String)
    ensures var rows := AppropriationRows(t); var present := PresentKinds(t);
      |rows| == |present| <= 5
      && (forall i, j :: 0 <= i < j < |present| ==> Rank(present[i]) < Rank(present[j]))
      && (forall i :: 0 <= i < |rows| ==> RowOf(present[i], t) == Some(rows[i]) && RowHolds(present[i], t, rows[i]))
      && (forall k: Kind :: k in present <==> RowOf(k, t).Some?)
    ensures forall k: Kind :: RowOf(k, t).Some? <==> ExplanationFollows(StartWord(k), t)
  {
    PresentKindsOrdered(t);
    PresentRows(t);
    forall i | 0 <= i < |AppropriationRows(t)| ensures RowHolds(PresentKinds(t)[i], t, AppropriationRows(t)[i]) {
      RowHoldsOf(PresentKinds(t)[i], t);
    }
    forall k: Kind ensures RowOf(k, t).Some? <==> ExplanationFollows(StartWord(k), t) {
      ExplanationAfterFound(StartWord(k), EndWords(k), t);
    }
  }

  /** Every kind is in the list of patterns, in the chain order. */
  lemma {:induction false} JsKindsAll()
    ensures forall k: Kind :: k in JsKinds
    ensures forall i, j :: 0 <= i < j < |JsKinds| ==> Rank(JsKinds[i]) < Rank(JsKinds[j])
  {
    forall k: Kind ensures k in JsKinds {
      assert JsKinds[Rank(k)] == k;
    }
  }

  lemma {:induction false} PresentKindsOrdered(t: String)
    ensures var present := PresentKinds(t); forall i, j :: 0 <= i < j < |present| ==> Rank(present[i]) < Rank(present[j])
  {
    var rank := (k: Kind) => Rank(k) as int;
    JsKindsAll();
    WhichOrdered(JsKinds, RowFn(t), rank);
  }

  lemma {:induction false} PresentRows(t: String)
    ensures var rows := AppropriationRows(t); var present := PresentKinds(t);
      |rows| == |present| <= 5
      && (forall i :: 0 <= i < |rows| ==> RowOf(present[i], t) == Some(rows[i]))
      && (forall k: Kind :: k in present <==> RowOf(k, t).Some?)
  {
    var f := RowFn(t);
    SomesWhich(JsKinds, f);
    var rows := AppropriationRows(t);
    var present := PresentKinds(t);
    forall i | 0 <= i < |rows| ensures RowOf(present[i], t) == Some(rows[i]) {
      assert f(present[i]) == Some(rows[i]);
    }
    JsKindsAll();
    forall k: Kind ensures k in present <==> RowOf(k, t).Some? {
      assert k in JsKinds && f(k) == RowOf(k, t);
    }
  }

  /** The keyword occurs with `Explanation:` after it, both case-insensitively. */
  ghost predicate ExplanationFollows(kw: String, t: String)
  {
    exists p: nat, q: nat :: LabelAt(t, kw, p, q)
  }

  /** The keyword occurs at `p`, and `Explanation:` at `q` after it. */
  predicate LabelAt(t: String, kw: String, p: nat, q: nat)
  {
    p + |kw| <= q && OccursAt(t, p, kw, true) && OccursAt(t, q, ExplanationLabel, true)
  }

  /** The contents of a kind's row. */
  predicate RowHolds(k: Kind, t: String, row: JsRow)
  {
    row.category == CategoryOf(k) && row.branch == BranchOf(k) && row.reprogrammingAmount == RowAmount(k, t)
  }

  lemma {:induction false} RowHoldsOf(k: Kind, t: String)
    requires RowOf(k, t).Some?
    ensures RowHolds(k, t, RowOf(k, t).value)
  {
  }

  lemma {:induction false} ExplanationAfterFound(kw: String, ends: seq<String>, t: String)
    ensures ExplanationAfter(kw, ends, t).Some? <==> ExplanationFollows(kw, t)
  {
    if ExplanationAfter(kw, ends, t).Some? {
      var p := Leftmost(|t| + 1, 0, ExplanationFound(kw, t)).value;
      var q := Find(t, ExplanationLabel, p + |kw|, true).value;
      assert LabelAt(t, kw, p, q);
    }
    if ExplanationFollows(kw, t) {
      var p: nat, q: nat :| LabelAt(t, kw, p, q);
      LabelGivesExplanation(kw, t, p, q);
    }
  }

  lemma {:induction false} LabelGivesExplanation(kw: String, t: String, p: nat, q: nat)
    requires LabelAt(t, kw, p, q)
    ensures Leftmost(|t| + 1, 0, ExplanationFound(kw, t)).Some?
  {
    var f := ExplanationFound(kw, t);
    var a := p + |kw|;
    LabelFound(t, ExplanationLabel, a, q);
    assert f(p);
    LeftmostFinds(|t| + 1, 0, f, p);
  }

  /** An occurrence of `w` at or after `a` makes the search from `a` succeed. */
  lemma {:induction false} LabelFound(t: String, w: String, a: nat, q: nat)
    requires a <= q && OccursAt(t, q, w, true)
    ensures Find(t, w, a, true).Some?
  {
    if Find(t, w, a, true).None? {
      FindFirst(t, w, a, true, q);
    }
  }

  /**
   * The explanation is the trimmed text after the first `Explanation:` that follows the
   * keyword's first usable occurrence, up to the first end keyword of the kind or the
   * end of the text; no end keyword occurs inside it before that.
   */
  lemma {:induction false} ExplanationStopsAtEnd(kw: String, ends: seq<String>, t: String)
    requires ExplanationAfter(kw, ends, t).Some?
    ensures var g := ExplanationAfter(kw, ends, t).value;
      (g.1 == |t| || AnyOccursAt(t, g.1, ends, true))
      && forall j :: g.0 <= j < g.1 ==> !AnyOccursAt(t, j, ends, true)
  {
    var g := ExplanationAfter(kw, ends, t).value;
    var tail := WordsOrEnd(Js, ends);
    TailSearchStops(tail, t, g.0);
    forall j | g.0 <= j < g.1 ensures !AnyOccursAt(t, j, ends, true) {
      TailSearchFirst(tail, t, g.0, j);
    }
  }

  /**
   * `extractAmount` gives `''` exactly when no `X` followed by a digit or comma comes
   * after an occurrence of the keyword, and otherwise a run of digits and commas.
   */
  lemma {:induction false} ExtractAmountMeaning(t: String, kw: String, sign: char)
    ensures ExtractAmount(t, kw, sign) == [] <==> !SignFollows(t, kw, sign)
  {
    if ExtractAmount(t, kw, sign) != [] {
      AmountShowsSign(t, kw, sign);
    }
    if SignFollows(t, kw, sign) {
      var p: nat, q: nat :| SignAt(t, kw, sign, p, q);
      SignGivesAmount(t, kw, sign, p, q);
    }
  }

  lemma {:induction false} AmountShowsSign(t: String, kw: String, sign: char)
    requires ExtractAmount(t, kw, sign) != []
    ensures SignFollows(t, kw, sign)
  {
    var p := Leftmost(|t| + 1, 0, AmountFound(kw, sign, t)).value;
    var q := SignedAt(t, sign, p + |kw|);
    assert SignAt(t, kw, sign, p, q);
  }

  lemma {:induction false} SignGivesAmount(t: String, kw: String, sign: char, p: nat, q: nat)
    requires SignAt(t, kw, sign, p, q)
    ensures ExtractAmount(t, kw, sign) != []
  {
    var f := AmountFound(kw, sign, t);
    var a := p + |kw|;
    SignedNumberFinds(t, sign, a, q);
    assert f(p);
    LeftmostFinds(|t| + 1, 0, f, p);
    FoundAmount(t, kw, sign);
  }

  lemma {:induction false} FoundAmount(t: String, kw: String, sign: char)
    requires Leftmost(|t| + 1, 0, AmountFound(kw, sign, t)).Some?
    ensures ExtractAmount(t, kw, sign) != []
  {
    var p := Leftmost(|t| + 1, 0, AmountFound(kw, sign, t)).value;
    var a := p + |kw|;
    assert AmountFound(kw, sign, t)(p);
    assert SignedNumber(t, sign, a).Some?;
  }

  /** The keyword occurs at `p`, and at `q` after it comes `X` followed by a digit or comma. */
  predicate SignAt(t: String, kw: String, sign: char, p: nat, q: nat)
  {
    OccursAt(t, p, kw, true) && p + |kw| <= q && q + 1 < |t| && t[q] == sign && InClass(t[q + 1], DigitOrComma)
  }

  /** After an occurrence of the keyword comes `X` and a digit or comma. */
  ghost predicate SignFollows(t: String, kw: String, sign: char)
  {
    exists p: nat, q: nat :: SignAt(t, kw, sign, p, q)
  }

  /** Where the `X` of the number SignedNumber finds is. */
  function SignedAt(t: String, sign: char, p: nat): (q: nat)
    requires SignedNumber(t, sign, p).Some?
    decreases |t| - p
    ensures p <= q && q + 1 < |t| && t[q] == sign && InClass(t[q + 1], DigitOrComma)
  {
    if t[p] == sign && RunEnd(t, p + 1, DigitOrComma) > p + 1 then p else SignedAt(t, sign, p + 1)
  }

  /** The decrease row's amount is `-` and digits and commas; it is exactly `-` when no `-number` follows the keyword. */
  lemma {:induction false} DecreaseRowAmount(t: String)
    ensures var a := RowAmount(DefenseWideDecrease, t);
      |a| > 0 && a[0] == '-' && AllIn(a[1..], DigitOrComma)
      && (a == "-" <==> !SignFollows(t, "DEFENSE-WIDE DECREASE", '-'))
  {
    ExtractAmountMeaning(t, "DEFENSE-WIDE DECREASE", '-');
    assert RowAmount(DefenseWideDecrease, t)[1..] == ExtractAmount(t, "DEFENSE-WIDE DECREASE", '-');
  }

  // createExactCSVData

  /** The header row, as the browser library writes it out. */
  const JsHeader: seq<String> := [
    "appropriation_category", "appropriation code", "appropriation activity", "branch",
    "fiscal_year_start", "fiscal_year_end", "budget_activity_number", "budget_activity_title",
    "pem", "budget_title", "program_base_congressional", "program_base_dod",
    "reprogramming_amount", "revised_program_total", "explanation", "file"]

  /** The browser's header is the exact-CSV header. */
  lemma {:induction false} JsHeaderIsHeader()
    ensures JsHeader == Header()
  {
  }

  /** `row.f || d`: the field's value, or the default when it is missing or empty. */
  function Or(row: JsRow, f: Field, d: String): String
  {
    if Get(row, f).Some? && Get(row, f).value != "" then Get(row, f).value else d
  }

  /** The default of a column: `'2025'` for the fiscal years, `''` for the rest. */
  function Default(f: Field): String
  {
    if f == FiscalYearStart || f == FiscalYearEnd then "2025" else ""
  }

  /**
   * A data row of the CSV: `row.category || ''`, ..., `row.fiscal_year_start || '2025'`,
   * ..., `row.file || ''`, the sixteen fields in the column order of the header.
   */
  function CsvRow(row: JsRow): (cells: seq<String>)
    ensures |cells| == |Columns|
  {
    seq(|Columns|, i requires 0 <= i < |Columns| => Or(row, Columns[i], Default(Columns[i])))
  }

  /** `createExactCSVData`: the header, then one row per parsed row. */
  method CreateExactCsvData(text: Option<String>) returns (csvRows: seq<seq<String>>)
    ensures csvRows == [JsHeader] + MapSeq(AppropriationRows(TextOf(text)), CsvRow)
  {
    var t := TextOf(text);
    var data := ParseAppropriationData(t);
    csvRows := CsvRows(data);
  }

  /** The header row, then one row pushed per parsed row. */
  method CsvRows(data: seq<JsRow>) returns (csvRows: seq<seq<String>>)
    ensures csvRows == [JsHeader] + MapSeq(data, CsvRow)
  {
    csvRows := [JsHeader];
    for i := 0 to |data|
      invariant csvRows == [JsHeader] + MapSeq(data[..i], CsvRow)
    {
      MapSeqPrefix([JsHeader], data, i, CsvRow);
      csvRows := csvRows + [CsvRow(data[i])];
    }
    assert data[..|data|] == data;
  }

  /**
   * The CSV data is the sixteen-name header and one sixteen-cell row per parsed row.
   * Each field the row sets is in its own column; every other column holds its default,
   * `'2025'` for both fiscal years and `''` for the rest, `file` included.
   */
  lemma {:induction false} CsvDataShape(rows: seq<JsRow>)
    ensures var csv := [JsHeader] + MapSeq(rows, CsvRow);
      |csv| == |rows| + 1 && csv[0] == Header()
      && forall i :: 1 <= i < |csv| ==> CsvCellsOf(csv[i], rows[i - 1])
  {
    var csv := [JsHeader] + MapSeq(rows, CsvRow);
    forall i | 1 <= i < |csv| ensures CsvCellsOf(csv[i], rows[i - 1]) {
      assert csv[i] == CsvRow(rows[i - 1]);
      CsvRowCells(rows[i - 1]);
    }
  }

  /** The cells of a row: its own value in the column of each field it has, the column's default elsewhere. */
  predicate CsvCellsOf(cells: seq<String>, row: JsRow)
  {
    |cells| == |Columns|
    && forall f: Field :: cells[ColumnIndex(f)] == if Get(row, f).Some? then Get(row, f).value else Default(f)
  }

  /** The object sets no fiscal year, so its cells are its fields as they are: an empty value stays empty. */
  lemma {:induction false} CsvRowCells(row: JsRow)
    ensures CsvCellsOf(CsvRow(row), row)
  {
    forall f: Field ensures CsvRow(row)[ColumnIndex(f)] == if Get(row, f).Some? then Get(row, f).value else Default(f) {
      assert Columns[ColumnIndex(f)] == f;
    }
  }

  // createRawTextData

  /** `createRawTextData`: the text cut into numbered chunks of 1000 characters. */
  method CreateRawTextData(text: Option<String>) returns (chunks: seq<Chunk>)
    ensures chunks == Chunked(TextOf(text))
  {
    var t := TextOf(text);
    chunks := SplitIntoChunks(t);
  }

  // extractFinancialData, createFinancialData, calculateTotalAmount

  /** A financial item object: `{item, amount, amountText, description, context}`. */
  datatype Item = Item(item: String, amount: nat, amountText: String, description: String, context: String)

  /** The text a match spans. */
  function Matched(t: String, m: (nat, nat)): String
  {
    if m.0 <= m.1 <= |t| then t[m.0..m.1] else []
  }

  /** The item of a funding match numbered `index`: `parseFloat(amount) || 0` is the digits' value, 0 for none. */
  function FundingItem(t: String, index: nat, m: (nat, nat)): Item
  {
    var value := DigitsValue(FundingDigitsJs(t, m.0));
    Item("Funding Item " + Decimal(index), value, "$" + FormatThousands(value), "Reprogramming action funding", Matched(t, m))
  }

  /** The group of the funding match at `s` without its commas. */
  function FundingDigitsJs(t: String, s: nat): (ds: String)
    ensures AllIn(ds, Digit)
  {
    match FundingAt(Js, t, s)
    case None => []
    case Some(g) =>
      FundingGroup(Js, t, s);
      RemoveCommasOfDigits(t[g.0..g.1]);
      RemoveCommas(t[g.0..g.1])
  }

  /** The funding matches are within the text. */
  predicate Bounded(t: String, ms: seq<(nat, nat)>)
  {
    forall k :: 0 <= k < |ms| ==> ms[k].0 <= ms[k].1 <= |t|
  }

  lemma {:induction false} FundingMatchesBounded(t: String)
    ensures Bounded(t, FundingMatches(Js, t))
  {
    forall k | 0 <= k < |FundingMatches(Js, t)| ensures FundingMatches(Js, t)[k].0 <= FundingMatches(Js, t)[k].1 <= |t| {
      FundingMatchIs(Js, t, k);
    }
  }

  lemma {:induction false} WordMatchesInText(t: String)
    ensures Bounded(t, WordMatches(t))
  {
    forall k | 0 <= k < |WordMatches(t)| ensures WordMatches(t)[k].0 <= WordMatches(t)[k].1 <= |t| {
      WordMatchesAt(t, k);
    }
  }

  /** The item of the `k`-th funding match, numbered `k + 1`. */
  function FundingItemFn(t: String): (nat, (nat, nat)) -> Item
  {
    (k: nat, m: (nat, nat)) => FundingItem(t, k + 1, m)
  }

  /** The items of the funding matches, numbered from 1. */
  function FundingItems(t: String, ms: seq<(nat, nat)>): seq<Item>
  {
    MapIndexed(ms, FundingItemFn(t))
  }

  /** The item of a table match: the heading itself, with amount 0. */
  function TableItem(t: String, m: (nat, nat)): Item
  {
    Item(Matched(t, m), 0, "TBD", "Program component", Matched(t, m))
  }

  function TableItemFn(t: String): ((nat, nat)) -> Item
  {
    (m: (nat, nat)) => TableItem(t, m)
  }

  /** The items of the table matches. */
  function TableItems(t: String, ms: seq<(nat, nat)>): seq<Item>
  {
    MapSeq(ms, TableItemFn(t))
  }

  /** What `extractFinancialData` returns: the funding items, numbered from 1, then the table items of the whole text. */
  function FinancialItems(t: String): seq<Item>
  {
    FundingItems(t, FundingMatches(Js, t)) + TableItems(t, WordMatches(t))
  }

  /** `extractFinancialData`: two `exec` loops, the first with a running `index`. */
  method ExtractFinancialData(t: String) returns (financialData: seq<Item>)
    ensures financialData == FinancialItems(t)
  {
    financialData := [];
    var ms := FundingMatches(Js, t);
    FundingMatchesBounded(t);
    var index := 1;
    var k := 0;
    while k < |ms|
      invariant 0 <= k <= |ms| && index == k + 1
      invariant financialData == FundingItems(t, ms[..k])
    {
      var value := DigitsValue(FundingDigitsJs(t, ms[k].0));
      var item := Item("Funding Item " + Decimal(index), value, "$" + FormatThousands(value),
        "Reprogramming action funding", t[ms[k].0..ms[k].1]);
      assert item == FundingItemFn(t)(k, ms[k]);
      MapIndexedPrefix(ms, k, FundingItemFn(t));
      financialData := financialData + [item];
      index := index + 1;
      k := k + 1;
    }
    assert ms[..|ms|] == ms;
    var funding := financialData;
    var ws := WordMatches(t);
    WordMatchesInText(t);
    k := 0;
    while k < |ws|
      invariant 0 <= k <= |ws|
      invariant financialData == funding + TableItems(t, ws[..k])
    {
      var item := Item(t[ws[k].0..ws[k].1], 0, "TBD", "Program component", t[ws[k].0..ws[k].1]);
      assert item == TableItemFn(t)(ws[k]);
      MapSeqPrefix(funding, ws, k, TableItemFn(t));
      financialData := financialData + [item];
      k := k + 1;
    }
    assert ws[..|ws|] == ws;
  }

  lemma {:induction false} FundingItemsAt(t: String, ms: seq<(nat, nat)>, k: nat)
    requires k < |ms|
    ensures FundingItems(t, ms)[k] == FundingItem(t, k + 1, ms[k])
  {
    assert FundingItems(t, ms)[k] == FundingItemFn(t)(k, ms[k]);
  }

  lemma {:induction false} TableItemsAt(t: String, ws: seq<(nat, nat)>, k: nat)
    requires k < |ws|
    ensures TableItems(t, ws)[k] == TableItem(t, ws[k])
  {
    assert TableItems(t, ws)[k] == TableItemFn(t)(ws[k]);
  }

  /** The funding item numbered `index` over a match within the text. */
  predicate FundingItemHolds(t: String, index: nat, m: (nat, nat), item: Item)
  {
    m.0 <= m.1 <= |t| && item.item == "Funding Item " + Decimal(index)
    && item.amount == DigitsValue(FundingDigitsJs(t, m.0)) && item.amountText == "$" + FormatThousands(item.amount)
    && item.description == "Reprogramming action funding" && item.context == t[m.0..m.1]
  }

  /** The table item over a match within the text. */
  predicate TableItemHolds(t: String, m: (nat, nat), item: Item)
  {
    m.0 <= m.1 <= |t| && item.item == t[m.0..m.1] && item.amount == 0 && item.amountText == "TBD"
    && item.description == "Program component" && item.context == t[m.0..m.1]
  }

  /** The funding items, numbered from 1, one per funding match. */
  lemma {:induction false} FundingItemsHold(t: String, ms: seq<(nat, nat)>)
    requires Bounded(t, ms)
    ensures |FundingItems(t, ms)| == |ms|
    ensures forall k :: 0 <= k < |ms| ==> FundingItemHolds(t, k + 1, ms[k], FundingItems(t, ms)[k])
  {
    forall k | 0 <= k < |ms| ensures FundingItemHolds(t, k + 1, ms[k], FundingItems(t, ms)[k]) {
      FundingItemsAt(t, ms, k);
    }
  }

  /** The table items, one per table match. */
  lemma {:induction false} TableItemsHold(t: String, ws: seq<(nat, nat)>)
    requires Bounded(t, ws)
    ensures |TableItems(t, ws)| == |ws|
    ensures forall j :: 0 <= j < |ws| ==> TableItemHolds(t, ws[j], TableItems(t, ws)[j])
  {
    forall j | 0 <= j < |ws| ensures TableItemHolds(t, ws[j], TableItems(t, ws)[j]) {
      TableItemsAt(t, ws, j);
    }
  }

  /** Funding items followed by table items: the table items start at index `|ms|`. */
  lemma {:induction false} ItemsShape(t: String, ms: seq<(nat, nat)>, ws: seq<(nat, nat)>, f: seq<Item>, g: seq<Item>, items: seq<Item>)
    requires |f| == |ms| && forall k :: 0 <= k < |ms| ==> FundingItemHolds(t, k + 1, ms[k], f[k])
    requires |g| == |ws| && forall j :: 0 <= j < |ws| ==> TableItemHolds(t, ws[j], g[j])
    requires items == f + g
    ensures |items| == |ms| + |ws|
    ensures forall k :: 0 <= k < |ms| ==> FundingItemHolds(t, k + 1, ms[k], items[k])
    ensures forall j :: 0 <= j < |ws| ==> TableItemHolds(t, ws[j], items[|ms| + j])
  {
    forall j | 0 <= j < |ws| ensures TableItemHolds(t, ws[j], items[|ms| + j]) {
      AppendAt(f, g, |ms|, j);
    }
  }

  /**
   * The funding items come first, one per funding match, numbered `Funding Item 1`
   * to `Funding Item n` in match order; then one item per table match, with amount 0.
   */
  lemma {:induction false} FinancialItemsShape(t: String, ms: seq<(nat, nat)>, ws: seq<(nat, nat)>, items: seq<Item>)
    requires ms == FundingMatches(Js, t) && ws == WordMatches(t) && items == FinancialItems(t)
    ensures |items| == |ms| + |ws|
    ensures forall k :: 0 <= k < |ms| ==> FundingItemHolds(t, k + 1, ms[k], items[k])
    ensures forall j :: 0 <= j < |ws| ==> TableItemHolds(t, ws[j], items[|ms| + j])
  {
    FundingMatchesBounded(t);
    WordMatchesInText(t);
    FundingItemsHold(t, ms);
    TableItemsHold(t, ws);
    ItemsShape(t, ms, ws, FundingItems(t, ms), TableItems(t, ws), FinancialItems(t));
  }

  /** A sheet row of the financial data; the placeholder row has no amount text and no context. */
  datatype SheetRow = SheetRow(item: String, amount: nat, amountText: Option<String>, description: String, context: Option<String>)

  const NoFinancialData: SheetRow := SheetRow("No financial data found", 0, None, "N/A", None)

  /** The sheet row of the `index`-th item, with the `||` defaults. */
  function SheetRowOf(item: Item, index: nat): SheetRow
  {
    SheetRow(
      if item.item != "" then item.item else "Financial Item " + Decimal(index + 1),
      item.amount,
      Some(if item.amountText != "" then item.amountText else "$0"),
      if item.description != "" then item.description else "N/A",
      Some(if item.context != "" then item.context else "N/A"))
  }

  /** `createFinancialData`'s result for the given items. */
  function SheetRows(items: seq<Item>): seq<SheetRow>
  {
    if items == [] then [NoFinancialData] else seq(|items|, i requires 0 <= i < |items| => SheetRowOf(items[i], i))
  }

  /** `createFinancialData`. */
  method CreateFinancialData(text: String) returns (rows: seq<SheetRow>)
    ensures rows == SheetRows(FinancialItems(text))
  {
    var financialData := ExtractFinancialData(text);
    if |financialData| == 0 {
      return [NoFinancialData];
    }
    rows := seq(|financialData|, i requires 0 <= i < |financialData| => SheetRowOf(financialData[i], i));
  }

  /**
   * Without any item the sheet is the single placeholder row; otherwise it has one row
   * per item, in order, carrying the item's fields unchanged (no default is ever used).
   */
  lemma {:induction false} SheetRowsOfText(t: String)
    ensures var items := FinancialItems(t); var rows := SheetRows(items);
      (items == [] ==> rows == [NoFinancialData])
      && (items != [] ==> |rows| == |items| && forall i :: 0 <= i < |items| ==>
        rows[i] == SheetRow(items[i].item, items[i].amount, Some(items[i].amountText), items[i].description, Some(items[i].context)))
  {
    var items := FinancialItems(t);
    forall i | 0 <= i < |items| ensures Filled(items[i]) {
      ItemFilled(t, i);
    }
    SheetRowsFilled(items);
  }

  /** An item none of whose texts is empty, so that no default replaces it. */
  predicate Filled(item: Item)
  {
    item.item != "" && item.amountText != "" && item.description != "" && item.context != ""
  }

  lemma {:induction false} SheetRowsFilled(items: seq<Item>)
    requires forall i :: 0 <= i < |items| ==> Filled(items[i])
    ensures var rows := SheetRows(items);
      (items == [] ==> rows == [NoFinancialData])
      && (items != [] ==> |rows| == |items| && forall i :: 0 <= i < |items| ==>
        rows[i] == SheetRow(items[i].item, items[i].amount, Some(items[i].amountText), items[i].description, Some(items[i].context)))
  {
  }

  /** A funding item over a non-empty match has a name, an amount text, a description and a context. */
  lemma {:induction false} FundingItemFilled(t: String, index: nat, m: (nat, nat))
    requires m.0 < m.1 <= |t|
    ensures Filled(FundingItem(t, index, m))
  {
    var item := FundingItem(t, index, m);
    assert item.item[0] == 'F' && item.amountText[0] == '$' && item.description[0] == 'R' && |item.context| == m.1 - m.0;
  }

  /** A table item over a non-empty match has a name, an amount text, a description and a context. */
  lemma {:induction false} TableItemFilled(t: String, m: (nat, nat))
    requires m.0 < m.1 <= |t|
    ensures Filled(TableItem(t, m))
  {
    assert |Matched(t, m)| == m.1 - m.0;
    assert TableItem(t, m).description[0] == 'P';
  }

  lemma {:induction false} ItemFilled(t: String, i: nat)
    requires i < |FinancialItems(t)|
    ensures Filled(FinancialItems(t)[i])
  {
    var ms := FundingMatches(Js, t);
    var ws := WordMatches(t);
    var items := FinancialItems(t);
    if i < |ms| {
      FundingSpans(Js, t);
      assert items[i] == FundingItem(t, i + 1, ms[i]);
      FundingItemFilled(t, i + 1, ms[i]);
    } else {
      WordSpans(t);
      assert items[i] == TableItem(t, ws[i - |ms|]);
      TableItemFilled(t, ws[i - |ms|]);
    }
  }


  /** `calculateTotalAmount`: `reduce` adding `item.amount || 0`. */
  function TotalAmount(items: seq<Item>): nat
  {
    if items == [] then 0 else TotalAmount(items[..|items| - 1]) + items[|items| - 1].amount
  }

  /** The total of two lists one after the other is the sum of their totals. */
  lemma {:induction false} TotalAmountAppend(a: seq<Item>, b: seq<Item>)
    decreases |b|
    ensures TotalAmount(a + b) == TotalAmount(a) + TotalAmount(b)
  {
    if b == [] {
      assert a + b == a;
    } else {
      TotalAmountAppend(a, b[..|b| - 1]);
      assert (a + b)[..|a + b| - 1] == a + b[..|b| - 1];
      assert (a + b)[|a + b| - 1] == b[|b| - 1];
    }
  }

  /** The value of each funding match's digits, summed. */
  function FundingTotal(t: String, ms: seq<(nat, nat)>): nat
  {
    if ms == [] then 0 else FundingTotal(t, ms[..|ms| - 1]) + DigitsValue(FundingDigitsJs(t, ms[|ms| - 1].0))
  }

  lemma {:induction false} FundingItemsTotal(t: String, ms: seq<(nat, nat)>)
    decreases |ms|
    ensures TotalAmount(FundingItems(t, ms)) == FundingTotal(t, ms)
  {
    if ms != [] {
      var k := |ms| - 1;
      FundingItemsTotal(t, ms[..k]);
      MapIndexedPrefix(ms, k, FundingItemFn(t));
      assert ms[..k + 1] == ms;
    }
  }

  lemma {:induction false} TableItemsTotal(t: String, ms: seq<(nat, nat)>)
    decreases |ms|
    ensures TotalAmount(TableItems(t, ms)) == 0
  {
    if ms != [] {
      var k := |ms| - 1;
      TableItemsTotal(t, ms[..k]);
      assert ms == ms[..k] + [ms[k]];
      MapSeqAppend(ms[..k], ms[k], TableItemFn(t));
      LastDropped(TableItems(t, ms[..k]), TableItem(t, ms[k]));
    }
  }

  /** The total of the financial items is the sum of the funding amounts: the table items add 0. */
  lemma {:induction false} TotalIsFunding(t: String)
    ensures TotalAmount(FinancialItems(t)) == FundingTotal(t, FundingMatches(Js, t))
  {
    var ms := FundingMatches(Js, t);
    var ws := WordMatches(t);
    TotalAmountAppend(FundingItems(t, ms), TableItems(t, ws));
    FundingItemsTotal(t, ms);
    TableItemsTotal(t, ws);
  }
}

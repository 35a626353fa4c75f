/**
 * The Excel transformer (src/pdf_to_excel_transformer.py): what `_parse_ocr_text`
 * gathers from the cleaned OCR text for the four sheets of the workbook. These are
 * the metadata, the financial items (the funding amounts, then the headings of the
 * amounts table), the program details, the narrative and the raw text.
 */
module ExcelTransformer {
  import opened Text
  import opened Numbers
  import opened Normalize
  import opened Regex
  import opened Report

  /** One financial item: the dict `{'item', 'amount', 'amount_text', 'context'}`. */
  datatype FinancialItem = FinancialItem(item: String, amount: nat, amountText: String, context: String)

  // The funding items.

  /** The group of the funding match at `s` without its commas: the string `float()` is given. */
  function FundingDigits(d: Dialect, t: String, s: nat): (ds: String)
    ensures AllIn(ds, Digit)
  {
    match FundingAt(d, t, s)
    case None => []
    case Some(g) =>
      FundingGroup(d, t, s);
      RemoveCommasOfDigits(t[g.0..g.1]);
      RemoveCommas(t[g.0..g.1])
  }

  /**
   * What the loop body makes of the `i`-th funding match, which starts at `s`: nothing
   * when `float()` raises ValueError, which happens exactly when the group holds only
   * commas; otherwise the item numbered `i + 1`.
   */
  function FundingItem(t: String, i: nat, s: nat): Option<FinancialItem>
  {
    match FundingAt(Py, t, s)
    case None => None
    case Some(g) =>
      var ds := FundingDigits(Py, t, s);
      if ds == [] then None
      else Some(FinancialItem("Funding Item " + Decimal(i + 1), DigitsValue(ds), "$" + FormatThousands(DigitsValue(ds)), t[s..g.1]))
  }

  /**
   * `for i, m in enumerate(ms)` appending what `f` makes of the `i`-th element, when it
   * makes something.
   */
  function Enumerate<T>(ms: seq<(nat, nat)>, f: (nat, nat) -> Option<T>): seq<T>
  {
    if ms == [] then []
    else
      var items := Enumerate(ms[..|ms| - 1], f);
      match f(|ms| - 1, ms[|ms| - 1].0)
      case None => items
      case Some(item) => items + [item]
  }

  lemma {:induction false} EnumerateSnoc<T>(ms: seq<(nat, nat)>, i: nat, f: (nat, nat) -> Option<T>)
    requires i < |ms|
    ensures Enumerate(ms[..i + 1], f) == Enumerate(ms[..i], f) + (if f(i, ms[i].0).Some? then [f(i, ms[i].0).value] else [])
  {
    assert ms[..i + 1][..i] == ms[..i];
  }

  /** The indices of the elements `f` makes something of, in order. */
  function Kept<T>(ms: seq<(nat, nat)>, f: (nat, nat) -> Option<T>): (idx: seq<nat>)
    ensures forall k :: 0 <= k < |idx| ==> idx[k] < |ms|
  {
    if ms == [] then []
    else
      var idx := Kept(ms[..|ms| - 1], f);
      if f(|ms| - 1, ms[|ms| - 1].0).Some? then idx + [|ms| - 1] else idx
  }

  /**
   * The enumeration holds what `f` makes of the kept elements, in order, each made
   * with its index among all the elements.
   */
  lemma {:induction false} EnumerateKept<T>(ms: seq<(nat, nat)>, f: (nat, nat) -> Option<T>)
    decreases |ms|
    ensures var items := Enumerate(ms, f); var idx := Kept(ms, f);
      |items| == |idx|
      && (forall k :: 0 <= k < |idx| ==> f(idx[k], ms[idx[k]].0) == Some(items[k]))
      && (forall k, l :: 0 <= k < l < |idx| ==> idx[k] < idx[l])
      && (forall i :: 0 <= i < |ms| ==> (f(i, ms[i].0).Some? <==> i in idx))
  {
    if ms != [] {
      var n := |ms| - 1;
      var init := ms[..n];
      EnumerateKept(init, f);
      var items, idx := Enumerate(init, f), Kept(init, f);
      KeptGrows(ms, f, items, idx);
      if f(n, ms[n].0).Some? {
        assert Enumerate(ms, f) == items + [f(n, ms[n].0).value] && Kept(ms, f) == idx + [n];
      } else {
        assert Enumerate(ms, f) == items && Kept(ms, f) == idx;
      }
    }
  }

  /** The pairing of `EnumerateKept` for all the elements, from the one for all but the last. */
  lemma {:induction false} KeptGrows<T>(ms: seq<(nat, nat)>, f: (nat, nat) -> Option<T>, items: seq<T>, idx: seq<nat>)
    requires ms != []
    requires var init := ms[..|ms| - 1];
      |items| == |idx|
      && (forall k :: 0 <= k < |idx| ==> idx[k] < |init| && f(idx[k], init[idx[k]].0) == Some(items[k]))
      && (forall k, l :: 0 <= k < l < |idx| ==> idx[k] < idx[l])
      && (forall i :: 0 <= i < |init| ==> (f(i, init[i].0).Some? <==> i in idx))
    ensures var n := |ms| - 1; var kept := f(n, ms[n].0).Some?;
      var items' := if kept then items + [f(n, ms[n].0).value] else items;
      var idx' := if kept then idx + [n] else idx;
      |items'| == |idx'|
      && (forall k :: 0 <= k < |idx'| ==> f(idx'[k], ms[idx'[k]].0) == Some(items'[k]))
      && (forall k, l :: 0 <= k < l < |idx'| ==> idx'[k] < idx'[l])
      && (forall i :: 0 <= i < |ms| ==> (f(i, ms[i].0).Some? <==> i in idx'))
  {
    var n := |ms| - 1;
    var init := ms[..n];
    var kept := f(n, ms[n].0).Some?;
    var items' := if kept then items + [f(n, ms[n].0).value] else items;
    var idx' := if kept then idx + [n] else idx;
    KeptGrowsPaired(ms, f, items, idx, items', idx');
    KeptGrowsOrdered(n, idx, idx');
    KeptGrowsMembers(ms, f, idx, idx');
  }

  lemma {:induction false} KeptGrowsPaired<T>(ms: seq<(nat, nat)>, f: (nat, nat) -> Option<T>, items: seq<T>, idx: seq<nat>, items': seq<T>, idx': seq<nat>)
    requires ms != [] && |items| == |idx|
    requires forall k :: 0 <= k < |idx| ==> idx[k] < |ms| - 1 && f(idx[k], ms[..|ms| - 1][idx[k]].0) == Some(items[k])
    requires var n := |ms| - 1; var kept := f(n, ms[n].0).Some?;
      items' == (if kept then items + [f(n, ms[n].0).value] else items) && idx' == (if kept then idx + [n] else idx)
    ensures |items'| == |idx'| && forall k :: 0 <= k < |idx'| ==> f(idx'[k], ms[idx'[k]].0) == Some(items'[k])
  {
    forall k | 0 <= k < |idx'| ensures f(idx'[k], ms[idx'[k]].0) == Some(items'[k]) {
      if k < |idx| {
        assert idx'[k] == idx[k] && items'[k] == items[k];
        assert ms[idx[k]] == ms[..|ms| - 1][idx[k]];
      }
    }
  }

  lemma {:induction false} KeptGrowsOrdered(n: nat, idx: seq<nat>, idx': seq<nat>)
    requires forall k :: 0 <= k < |idx| ==> idx[k] < n
    requires forall k, l :: 0 <= k < l < |idx| ==> idx[k] < idx[l]
    requires idx' == idx + [n] || idx' == idx
    ensures forall k, l :: 0 <= k < l < |idx'| ==> idx'[k] < idx'[l]
  {
  }

  lemma {:induction false} KeptGrowsMembers<T>(ms: seq<(nat, nat)>, f: (nat, nat) -> Option<T>, idx: seq<nat>, idx': seq<nat>)
    requires ms != []
    requires forall k :: 0 <= k < |idx| ==> idx[k] < |ms| - 1
    requires forall i :: 0 <= i < |ms| - 1 ==> (f(i, ms[..|ms| - 1][i].0).Some? <==> i in idx)
    requires var n := |ms| - 1; idx' == (if f(n, ms[n].0).Some? then idx + [n] else idx)
    ensures forall i :: 0 <= i < |ms| ==> (f(i, ms[i].0).Some? <==> i in idx')
  {
    var n := |ms| - 1;
    forall i | 0 <= i < |ms| ensures f(i, ms[i].0).Some? <==> i in idx' {
      if i < n {
        assert ms[i] == ms[..n][i];
      } else {
        assert n !in idx;
      }
    }
  }

  /** When `f` makes something of every element, the enumeration has one item per element. */
  lemma {:induction false} EnumerateAll<T>(ms: seq<(nat, nat)>, f: (nat, nat) -> Option<T>)
    requires forall i :: 0 <= i < |ms| ==> f(i, ms[i].0).Some?
    decreases |ms|
    ensures |Enumerate(ms, f)| == |ms| && forall k :: 0 <= k < |ms| ==> Enumerate(ms, f)[k] == f(k, ms[k].0).value
  {
    if ms != [] {
      var init := ms[..|ms| - 1];
      forall i | 0 <= i < |init| ensures f(i, init[i].0).Some? {
        assert init[i] == ms[i];
      }
      EnumerateAll(init, f);
      forall k | 0 <= k < |init| ensures init[k] == ms[k] {
      }
    }
  }

  function FundingItemFn(t: String): (nat, nat) -> Option<FinancialItem>
  {
    (i: nat, s: nat) => FundingItem(t, i, s)
  }

  /** The funding items of `_extract_financial_data`. */
  function FundingItems(t: String): seq<FinancialItem>
  {
    Enumerate(FundingMatches(Py, t), FundingItemFn(t))
  }

  /** The first half of `_extract_financial_data`: the loop over the funding matches. */
  method ExtractFundingItems(t: String) returns (items: seq<FinancialItem>)
    ensures items == FundingItems(t)
  {
    var ms := FundingMatches(Py, t);
    items := [];
    for i := 0 to |ms|
      invariant items == Enumerate(ms[..i], FundingItemFn(t))
    {
      EnumerateSnoc(ms, i, FundingItemFn(t));
      FundingMatchIs(Py, t, i);
      FundingItemIs(t, i, ms[i].0, ms[i].1);
      var amount := FundingDigits(Py, t, ms[i].0);
      if amount != [] {
        var value := DigitsValue(amount);
        items := items + [FinancialItem("Funding Item " + Decimal(i + 1), value, "$" + FormatThousands(value), t[ms[i].0..ms[i].1])];
      }
    }
    assert ms[..|ms|] == ms;
  }

  /** The item of the funding match from `s` to `e`. */
  lemma {:induction false} FundingItemIs(t: String, i: nat, s: nat, e: nat)
    requires FundingAt(Py, t, s).Some? && FundingAt(Py, t, s).value.1 == e
    ensures s <= e <= |t|
    ensures var ds := FundingDigits(Py, t, s);
      FundingItemFn(t)(i, s) == if ds == [] then None
        else Some(FinancialItem("Funding Item " + Decimal(i + 1), DigitsValue(ds), "$" + FormatThousands(DigitsValue(ds)), t[s..e]))
  {
  }

  /**
   * The funding items are those of the matches whose amount parses, in match order, and
   * each is numbered by the index of its match among all the matches plus one.
   */
  lemma {:induction false} FundingItemsAre(t: String)
    ensures var ms := FundingMatches(Py, t); var items := FundingItems(t); var idx := Kept(ms, FundingItemFn(t));
      |items| == |idx|
      && (forall k :: 0 <= k < |idx| ==> FundingItem(t, idx[k], ms[idx[k]].0) == Some(items[k]))
      && (forall k, l :: 0 <= k < l < |idx| ==> idx[k] < idx[l])
      && (forall i :: 0 <= i < |ms| ==> (FundingItem(t, i, ms[i].0).Some? <==> i in idx))
  {
    var ms := FundingMatches(Py, t);
    EnumerateKept(ms, FundingItemFn(t));
    forall i | 0 <= i < |ms| ensures FundingItemFn(t)(i, ms[i].0) == FundingItem(t, i, ms[i].0) {
    }
  }

  /** When every match parses, the items are numbered 1, 2, ... and there is one per match. */
  lemma {:induction false} FundingItemsNumbered(t: String)
    requires forall i :: 0 <= i < |FundingMatches(Py, t)| ==> FundingDigits(Py, t, FundingMatches(Py, t)[i].0) != []
    ensures var ms := FundingMatches(Py, t); var items := FundingItems(t);
      |items| == |ms|
      && forall k :: 0 <= k < |ms| ==>
        items[k].item == "Funding Item " + Decimal(k + 1) && ms[k].0 <= ms[k].1 <= |t| && items[k].context == t[ms[k].0..ms[k].1]
  {
    NumberedItems(t, FundingMatches(Py, t), FundingItems(t));
  }

  lemma {:induction false} NumberedItems(t: String, ms: seq<(nat, nat)>, items: seq<FinancialItem>)
    requires ms == FundingMatches(Py, t) && items == FundingItems(t)
    requires forall i :: 0 <= i < |ms| ==> FundingDigits(Py, t, ms[i].0) != []
    ensures |items| == |ms|
    ensures forall k :: 0 <= k < |ms| ==>
      items[k].item == "Funding Item " + Decimal(k + 1) && ms[k].0 <= ms[k].1 <= |t| && items[k].context == t[ms[k].0..ms[k].1]
  {
    var f := FundingItemFn(t);
    forall i | 0 <= i < |ms| ensures f(i, ms[i].0).Some? {
      FundingMatchIs(Py, t, i);
    }
    EnumerateAll(ms, f);
    forall k | 0 <= k < |ms|
      ensures items[k].item == "Funding Item " + Decimal(k + 1) && ms[k].0 <= ms[k].1 <= |t| && items[k].context == t[ms[k].0..ms[k].1]
    {
      FundingMatchIs(Py, t, k);
      NumberedAt(t, k, ms[k].0, ms[k].1, items[k]);
    }
  }

  lemma {:induction false} NumberedAt(t: String, k: nat, s: nat, e: nat, item: FinancialItem)
    requires FundingAt(Py, t, s).Some? && FundingAt(Py, t, s).value.1 == e && FundingItem(t, k, s) == Some(item)
    ensures item.item == "Funding Item " + Decimal(k + 1) && s <= e <= |t| && item.context == t[s..e]
  {
    FundingItemMeaning(t, k, s);
  }

  /**
   * A funding match yields no item exactly when its group holds only commas. An item's
   * amount is the value of the group's digits, its text is `$` and that number grouped
   * by thousands, and its context is the whole match.
   */
  lemma {:induction false} FundingItemMeaning(t: String, i: nat, s: nat)
    requires FundingAt(Py, t, s).Some?
    ensures var g := FundingAt(Py, t, s).value;
      (FundingItem(t, i, s).None? <==> forall j :: g.0 <= j < g.1 ==> t[j] == ',')
    ensures var g := FundingAt(Py, t, s).value; var item := FundingItem(t, i, s);
      item.Some? ==>
        item.value.item == "Funding Item " + Decimal(i + 1)
        && item.value.amount == DigitsValue(FundingDigits(Py, t, s))
        && |item.value.amountText| > 0 && item.value.amountText[0] == '$'
        && item.value.amountText == "$" + FormatThousands(item.value.amount)
        && Grouped(item.value.amountText[1..]) && RemoveCommas(item.value.amountText[1..]) == Decimal(item.value.amount)
        && ParseInt(RemoveCommas(item.value.amountText[1..])) == Some(item.value.amount)
        && item.value.context == t[s..g.1]
  {
    var g := FundingAt(Py, t, s).value;
    OnlyCommas(t[g.0..g.1]);
    var item := FundingItem(t, i, s);
    if item.Some? {
      var n := DigitsValue(FundingDigits(Py, t, s));
      assert item.value.amountText[1..] == FormatThousands(n);
    }
  }

  /** Removing the commas leaves nothing exactly when there is nothing but commas. */
  lemma {:induction false} OnlyCommas(s: String)
    ensures RemoveCommas(s) == [] <==> forall j :: 0 <= j < |s| ==> s[j] == ','
  {
    if s != [] {
      OnlyCommas(s[1..]);
      assert forall j :: 1 <= j < |s| ==> s[j] == s[1..][j - 1];
    }
  }

  // The table items.

  const AmountsHeading: String := "Amounts in Thousands of Dollars"

  /** The 1000 characters after the first occurrence of the heading, case-insensitive. */
  function TableWindow(t: String): (w: Option<String>)
    ensures w.Some? ==> |w.value| <= 1000
  {
    match Find(t, AmountsHeading, 0, true)
    case None => None
    case Some(p) =>
      var e := p + |AmountsHeading|;
      Some(t[e..if e + 1000 <= |t| then e + 1000 else |t|])
  }

  /** The item of each table match: the heading as the text writes it, with a placeholder amount. */
  function TableItemsOf(w: String, ms: seq<(nat, nat)>): (items: seq<FinancialItem>)
    requires forall k :: 0 <= k < |ms| ==> ms[k].0 <= ms[k].1 <= |w|
    ensures |items| == |ms|
    ensures forall k :: 0 <= k < |ms| ==> items[k] == FinancialItem(w[ms[k].0..ms[k].1], 0, "TBD", w[ms[k].0..ms[k].1])
  {
    if ms == [] then [] else TableItemsOf(w, ms[..|ms| - 1]) + [FinancialItem(w[ms[|ms| - 1].0..ms[|ms| - 1].1], 0, "TBD", w[ms[|ms| - 1].0..ms[|ms| - 1].1])]
  }

  lemma {:induction false} WordMatchesBounded(w: String)
    ensures forall k :: 0 <= k < |WordMatches(w)| ==> WordMatches(w)[k].0 <= WordMatches(w)[k].1 <= |w|
  {
    forall k | 0 <= k < |WordMatches(w)| ensures WordMatches(w)[k].0 <= WordMatches(w)[k].1 <= |w| {
      WordMatchesAt(w, k);
    }
  }

  /** `_extract_table_data`. */
  function TableItems(t: String): seq<FinancialItem>
  {
    match TableWindow(t)
    case None => []
    case Some(w) => WindowTableItems(w)
  }

  /** The table items of a window: one per match, in order. */
  function WindowTableItems(w: String): seq<FinancialItem>
  {
    WordMatchesBounded(w);
    TableItemsOf(w, WordMatches(w))
  }

  /** `_extract_table_data`: one item per table match in the window, appended in order. */
  method ExtractTableData(t: String) returns (items: seq<FinancialItem>)
    ensures items == TableItems(t)
  {
    items := [];
    var found := Find(t, AmountsHeading, 0, true);
    if found.Some? {
      var e := found.value + |AmountsHeading|;
      var w := t[e..if e + 1000 <= |t| then e + 1000 else |t|];
      assert TableWindow(t) == Some(w);
      var ms := WordMatches(w);
      WordMatchesBounded(w);
      for k := 0 to |ms|
        invariant items == TableItemsOf(w, ms[..k])
      {
        TableItemsOfSnoc(w, ms, k);
        items := items + [FinancialItem(w[ms[k].0..ms[k].1], 0, "TBD", w[ms[k].0..ms[k].1])];
      }
      assert ms[..|ms|] == ms;
      assert items == WindowTableItems(w);
    }
  }

  lemma {:induction false} TableItemsOfSnoc(w: String, ms: seq<(nat, nat)>, k: nat)
    requires k < |ms| && forall j :: 0 <= j < |ms| ==> ms[j].0 <= ms[j].1 <= |w|
    ensures TableItemsOf(w, ms[..k + 1]) == TableItemsOf(w, ms[..k]) + [FinancialItem(w[ms[k].0..ms[k].1], 0, "TBD", w[ms[k].0..ms[k].1])]
  {
    assert ms[..k + 1][..k] == ms[..k];
  }

  /**
   * There are no table items unless the heading occurs. Otherwise there is one per
   * match of a heading word in the 1000 characters after the heading's first
   * occurrence, in order and without overlap. Each item is the word as written
   * (one of the four headings up to case), with amount 0 and amount text `TBD`.
   */
  lemma {:induction false} TableItemsShape(t: String)
    ensures !Contains(t, AmountsHeading, true) ==> TableItems(t) == []
    ensures TableWindow(t).Some? ==> TableItemsOfWindow(TableWindow(t).value, TableItems(t))
  {
    if !Contains(t, AmountsHeading, true) {
      FindMissing(t, AmountsHeading, 0, true);
    }
    if TableWindow(t).Some? {
      var w := TableWindow(t).value;
      WindowItems(w);
    }
  }

  /** The items are one per table match of the window, each the heading word it matched. */
  predicate TableItemsOfWindow(w: String, items: seq<FinancialItem>)
  {
    var ms := WordMatches(w);
    |items| == |ms|
    && forall k :: 0 <= k < |ms| ==> TableItemAt(w, ms, k, items[k])
  }

  /** The `k`-th table item is the `k`-th match, a heading word up to case, after the previous one. */
  predicate TableItemAt(w: String, ms: seq<(nat, nat)>, k: nat, item: FinancialItem)
    requires k < |ms|
  {
    ms[k].0 <= ms[k].1 <= |w|
    && item == FinancialItem(w[ms[k].0..ms[k].1], 0, "TBD", w[ms[k].0..ms[k].1])
    && (k > 0 ==> ms[k - 1].1 <= ms[k].0)
    && exists m :: 0 <= m < |TableWords| && |item.item| == |TableWords[m]| && OccursAt(item.item, 0, TableWords[m], true)
  }

  lemma {:induction false} WindowItems(w: String)
    ensures TableItemsOfWindow(w, WindowTableItems(w))
  {
    WordMatchesBounded(w);
    var ms := WordMatches(w);
    forall k | 0 <= k < |ms| ensures TableItemAt(w, ms, k, TableItemsOf(w, ms)[k]) {
      WordIsHeading(w, k);
    }
  }

  lemma {:induction false} WordIsHeading(w: String, k: nat)
    requires k < |WordMatches(w)|
    ensures var ms := WordMatches(w);
      ms[k].0 <= ms[k].1 <= |w|
      && (k > 0 ==> ms[k - 1].1 <= ms[k].0)
      && exists m :: (0 <= m < |TableWords| && |w[ms[k].0..ms[k].1]| == |TableWords[m]|
        && OccursAt(w[ms[k].0..ms[k].1], 0, TableWords[m], true))
  {
    var ms := WordMatches(w);
    WordMatchesAt(w, k);
    var m :| 0 <= m < |TableWords| && OccursAt(w, ms[k].0, TableWords[m], true) && ms[k].1 == ms[k].0 + |TableWords[m]|;
    OccursAtStart(w, ms[k].0, TableWords[m], true);
  }

  /** `_extract_financial_data`: the funding items first, then the table items. */
  method ExtractFinancialData(t: String) returns (data: seq<FinancialItem>)
    ensures data == FundingItems(t) + TableItems(t)
  {
    var funding := ExtractFundingItems(t);
    var table := ExtractTableData(t);
    data := funding + table;
  }

  // The program details.

  const NationalInterestPhrase: String := "necessary in the national interest"
  const LegalRequirementsPhrase: String := "meets all administrative and legal requirements"

  /** The program details dict; a flag that is false is a key the dict does not have. */
  datatype ProgramDetails = ProgramDetails(nationalInterest: bool, meetsLegalRequirements: bool, description: Option<String>)

  /** `_extract_program_details`: each entry is set when its search succeeds. */
  method ExtractProgramDetails(t: String) returns (details: ProgramDetails)
    ensures details.nationalInterest <==> Contains(t, NationalInterestPhrase, true)
    ensures details.meetsLegalRequirements <==> Contains(t, LegalRequirementsPhrase, true)
    ensures details.description == Description(Py, t)
  {
    details := ProgramDetails(false, false, None);
    if Find(t, NationalInterestPhrase, 0, true).Some? {
      details := details.(nationalInterest := true);
    } else {
      NotFound(t, NationalInterestPhrase);
    }
    if Find(t, LegalRequirementsPhrase, 0, true).Some? {
      details := details.(meetsLegalRequirements := true);
    } else {
      NotFound(t, LegalRequirementsPhrase);
    }
    var description := Description(Py, t);
    if description.Some? {
      details := details.(description := description);
    }
  }

  /** A search that finds nothing means the phrase occurs nowhere. */
  lemma {:induction false} NotFound(t: String, w: String)
    requires Find(t, w, 0, true).None?
    ensures !Contains(t, w, true)
  {
    forall j | 0 <= j <= |t| ensures !OccursAt(t, j, w, true) {
      FindFirst(t, w, 0, true, j);
    }
  }

  /**
   * The description is the stripped text that follows the first marker occurrence up to
   * the first `.` after its first character, or up to the end.
   */
  lemma {:induction false} DescriptionMeaning(t: String)
    requires Description(Py, t).Some?
    ensures var g := MarkerGroup(WordsOrEnd(Py, ["."]), t).value;
      Description(Py, t) == Some(Strip(Py, t[g.0..g.1]))
      && (exists p: nat, m :: 0 <= m < |DescriptionMarkers| && OccursAt(t, p, DescriptionMarkers[m], true) && g.0 == p + |DescriptionMarkers[m]|
            && NoMarkerBefore(t, p))
      && (g.1 == |t| || t[g.1] == '.' || (g.1 + 1 == |t| && t[g.1] == '\n'))
      && forall j :: g.0 < j < g.1 ==> t[j] != '.'
  {
    var tail := WordsOrEnd(Py, ["."]);
    var g := MarkerGroup(tail, t).value;
    MarkerGroupSound(tail, t);
    PeriodTail(Py, t, |t|);
    MarkerGroupFirst(tail, t);
    forall j | g.0 < j < g.1 ensures t[j] != '.' {
      PeriodTail(Py, t, j);
    }
    PeriodTail(Py, t, g.1);
  }

  // The narrative.

  const NarrativeEnds: seq<String> := ["This action is determined", "This reprogramming action meets"]

  /** The first paragraph longer than 100 characters once stripped, stripped. */
  function FirstLongParagraph(paras: seq<String>): (r: Option<String>)
    ensures r.Some? ==> |r.value| > 100
  {
    if paras == [] then None
    else if |Strip(Py, paras[0])| > 100 then Some(Strip(Py, paras[0]))
    else FirstLongParagraph(paras[1..])
  }

  /** `_extract_narrative`. */
  function Narrative(t: String): String
  {
    match MarkerGroup(WordsOrEnd(Py, NarrativeEnds), t)
    case Some(g) => Strip(Py, t[g.0..g.1])
    case None =>
      match FirstLongParagraph(Split(t, "\n\n"))
      case Some(para) => para
      case None => if |t| > 500 then t[..500] + "..." else t
  }

  /**
   * With a description marker the narrative is the stripped text after the first marker
   * occurrence, up to the first place after its first character where an end phrase
   * occurs (case-insensitively) or the text ends.
   */
  lemma {:induction false} NarrativeOfMarker(t: String)
    requires MarkerGroup(WordsOrEnd(Py, NarrativeEnds), t).Some?
    ensures var g := MarkerGroup(WordsOrEnd(Py, NarrativeEnds), t).value;
      Narrative(t) == Strip(Py, t[g.0..g.1])
      && (exists p: nat, m :: 0 <= m < |DescriptionMarkers| && OccursAt(t, p, DescriptionMarkers[m], true) && g.0 == p + |DescriptionMarkers[m]|
            && NoMarkerBefore(t, p))
      && (AnyOccursAt(t, g.1, NarrativeEnds, true) || DollarAt(Py, t, g.1))
      && forall j :: g.0 < j < g.1 ==> !AnyOccursAt(t, j, NarrativeEnds, true)
  {
    var tail := WordsOrEnd(Py, NarrativeEnds);
    var g := MarkerGroup(tail, t).value;
    NarrativeIsGroup(t, tail, g);
    MarkerGroupSound(tail, t);
    assert TailAt(tail, t, |t|);
    MarkerGroupFirst(tail, t);
    forall j | g.0 < j < g.1 ensures !AnyOccursAt(t, j, NarrativeEnds, true) {
      assert !TailAt(tail, t, j);
    }
  }

  lemma {:induction false} NarrativeIsGroup(t: String, tail: Tail, g: (nat, nat))
    requires tail == WordsOrEnd(Py, NarrativeEnds) && MarkerGroup(tail, t) == Some(g)
    ensures g.0 < g.1 <= |t| && Narrative(t) == Strip(Py, t[g.0..g.1])
  {
  }

  /** The paragraph found is the first long one: every paragraph before it is short. */
  lemma {:induction false} FirstLongParagraphIsFirst(paras: seq<String>)
    ensures var r := FirstLongParagraph(paras);
      (r.None? <==> forall k :: 0 <= k < |paras| ==> |Strip(Py, paras[k])| <= 100)
      && (r.Some? ==> exists k :: 0 <= k < |paras| && r.value == Strip(Py, paras[k]) && forall j :: 0 <= j < k ==> |Strip(Py, paras[j])| <= 100)
  {
    FirstLongParagraphNone(paras);
    FirstLongParagraphSome(paras);
  }

  lemma {:induction false} FirstLongParagraphNone(paras: seq<String>)
    decreases |paras|
    ensures FirstLongParagraph(paras).None? <==> forall k :: 0 <= k < |paras| ==> |Strip(Py, paras[k])| <= 100
  {
    if paras != [] && |Strip(Py, paras[0])| <= 100 {
      var rest := paras[1..];
      FirstLongParagraphNone(rest);
      assert forall k :: 1 <= k < |paras| ==> paras[k] == rest[k - 1];
    }
  }

  lemma {:induction false} FirstLongParagraphSome(paras: seq<String>)
    decreases |paras|
    ensures var r := FirstLongParagraph(paras);
      r.Some? ==> exists k :: 0 <= k < |paras| && r.value == Strip(Py, paras[k]) && forall j :: 0 <= j < k ==> |Strip(Py, paras[j])| <= 100
  {
    if paras != [] {
      if |Strip(Py, paras[0])| > 100 {
        assert FirstLongParagraph(paras).value == Strip(Py, paras[0]);
      } else {
        var rest := paras[1..];
        FirstLongParagraphSome(rest);
        if FirstLongParagraph(rest).Some? {
          var k :| 0 <= k < |rest| && FirstLongParagraph(rest).value == Strip(Py, rest[k]) && forall j :: 0 <= j < k ==> |Strip(Py, rest[j])| <= 100;
          assert paras[k + 1] == rest[k];
          forall j | 0 <= j < k + 1 ensures |Strip(Py, paras[j])| <= 100 {
            if j > 0 {
              assert paras[j] == rest[j - 1];
            }
          }
        }
      }
    }
  }

  /**
   * Without a description marker the narrative is the first paragraph (between blank
   * lines) that is longer than 100 characters once stripped, and otherwise the text,
   * cut to 500 characters and `...` when it is longer.
   */
  lemma {:induction false} NarrativeFallback(t: String)
    requires MarkerGroup(WordsOrEnd(Py, NarrativeEnds), t).None?
    ensures var paras := Split(t, "\n\n");
      ((exists k :: 0 <= k < |paras| && |Strip(Py, paras[k])| > 100) ==>
        exists k :: 0 <= k < |paras| && Narrative(t) == Strip(Py, paras[k]) && |Narrative(t)| > 100
          && forall j :: 0 <= j < k ==> |Strip(Py, paras[j])| <= 100)
      && ((forall k :: 0 <= k < |paras| ==> |Strip(Py, paras[k])| <= 100) ==>
        (|t| <= 500 ==> Narrative(t) == t) && (|t| > 500 ==> Narrative(t) == t[..500] + "..."))
  {
    FirstLongParagraphIsFirst(Split(t, "\n\n"));
  }

  /** A text without a newline is one paragraph. */
  lemma {:induction false} SplitWithoutNewline(t: String)
    requires NoNewline(t)
    ensures Split(t, "\n\n") == [t]
  {
    forall j | 0 <= j <= |t| ensures !OccursAt(t, j, "\n\n", false) {
      if j + 2 <= |t| {
        assert t[j + 0] != "\n\n"[0];
      }
    }
    FindMissing(t, "\n\n", 0, false);
  }

  /**
   * On cleaned text (which has no newline) the paragraph fallback always ends with the
   * whole text: without a description marker the narrative is the cleaned text itself.
   */
  lemma {:induction false} NarrativeOfCleanText(raw: String)
    requires MarkerGroup(WordsOrEnd(Py, NarrativeEnds), CleanText(raw)).None?
    ensures Narrative(CleanText(raw)) == CleanText(raw)
  {
    var t := CleanText(raw);
    CleanedHasNoNewline(raw);
    SplitWithoutNewline(t);
    StripUnchanged(Py, t);
    assert [t][0] == t && [t][1..] == [];
    if |Strip(Py, t)| > 100 {
      assert FirstLongParagraph([t]) == Some(t);
    } else {
      assert FirstLongParagraph([t]) == None;
    }
  }

  /** Everything `_parse_ocr_text` returns. */
  datatype ParsedData = ParsedData(
    metadata: Metadata,
    financialData: seq<FinancialItem>,
    programDetails: ProgramDetails,
    narrative: String,
    rawText: String)

  /** `_parse_ocr_text`: every extraction runs on the cleaned text, which is also kept as the raw text. */
  method ParseOcrText(text: String) returns (data: ParsedData)
    ensures data.rawText == CleanText(text) && IsClean(data.rawText)
    ensures data.metadata == MetadataOf(Py, data.rawText)
    ensures data.financialData == FundingItems(data.rawText) + TableItems(data.rawText)
    ensures data.programDetails.nationalInterest <==> Contains(data.rawText, NationalInterestPhrase, true)
    ensures data.programDetails.meetsLegalRequirements <==> Contains(data.rawText, LegalRequirementsPhrase, true)
    ensures data.programDetails.description == Description(Py, data.rawText)
    ensures data.narrative == Narrative(data.rawText)
  {
    var cleaned := CleanText(text);
    var metadata := ExtractMetadata(Py, cleaned);
    var financial := ExtractFinancialData(cleaned);
    var details := ExtractProgramDetails(cleaned);
    data := ParsedData(metadata, financial, details, Narrative(cleaned), cleaned);
  }
}

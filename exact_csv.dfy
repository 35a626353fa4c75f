/**
 * The exact-CSV transformer (src/pdf_to_exact_csv_transformer.py): the keyword gate,
 * the chain of appropriation sections, the line dict of each section, the
 * sixteen-column rows and the table the CSV file holds.
 */
module ExactCsv {
  import opened Text
  import opened Regex
  import opened Numbers
  import opened Normalize
  import opened Schema
  import opened Sections
  import opened Fields

  /**
   * The dict `_parse_appropriation_line` returns. It always holds the same fifteen keys
   * (every field but `file`), so it is a record with one component per key.
   */
  datatype Line = Line(
    category: String, code: String, activity: String, branch: String,
    fiscalYearStart: String, fiscalYearEnd: String,
    budgetActivityNumber: String, budgetActivityTitle: String, pem: String, budgetTitle: String,
    programBaseCongressional: String, programBaseDod: String, reprogrammingAmount: String,
    revisedProgramTotal: String, explanation: String)

  /** `line.get(KeyName(f))`: the value under the field's key, None for `file`, which a line lacks. */
  function Get(line: Line, f: Field): (v: Option<String>)
    ensures v.Some? <==> f in LineFields
  {
    match f
    case Category => Some(line.category)
    case Code => Some(line.code)
    case Activity => Some(line.activity)
    case Branch => Some(line.branch)
    case FiscalYearStart => Some(line.fiscalYearStart)
    case FiscalYearEnd => Some(line.fiscalYearEnd)
    case BudgetActivityNumber => Some(line.budgetActivityNumber)
    case BudgetActivityTitle => Some(line.budgetActivityTitle)
    case Pem => Some(line.pem)
    case BudgetTitle => Some(line.budgetTitle)
    case ProgramBaseCongressional => Some(line.programBaseCongressional)
    case ProgramBaseDod => Some(line.programBaseDod)
    case ReprogrammingAmount => Some(line.reprogrammingAmount)
    case RevisedProgramTotal => Some(line.revisedProgramTotal)
    case Explanation => Some(line.explanation)
    case File => None
  }

  /** `dict.get(key, '')` on the amounts dict. */
  function AmountOr(a: map<AmountKey, String>, k: AmountKey): String
  {
    if k in a then a[k] else ""
  }

  function OrEmpty(s: Option<String>): String
  {
    if s.Some? then s.value else ""
  }

  /** What the searches of `_parse_appropriation_line` find in a section. */
  datatype Found = Found(
    activity: Option<(String, String)>,
    title: Option<String>,
    amounts: map<AmountKey, String>,
    explanation: Option<String>,
    decrease: String)

  function FoundIn(section: String): Found
  {
    Found(BudgetActivity(section), Fields.BudgetTitle(section), Amounts(section), Fields.Explanation(section), DecreaseAmount(section))
  }

  /**
   * The line built from what the searches found, field by field: the fixed branch,
   * category and fiscal years, each found value or the empty string, and for a
   * decrease line with a `-` number that number, negated, as the reprogramming amount.
   */
  function LineFrom(branch: String, category: String, isDecrease: bool, found: Found): Line
  {
    Line(
      category := category, code := "", activity := "", branch := branch,
      fiscalYearStart := "2025", fiscalYearEnd := "2025",
      budgetActivityNumber := if found.activity.Some? then found.activity.value.0 else "",
      budgetActivityTitle := if found.activity.Some? then found.activity.value.1 else "",
      pem := "",
      budgetTitle := OrEmpty(found.title),
      programBaseCongressional := AmountOr(found.amounts, ProgramBase),
      programBaseDod := AmountOr(found.amounts, ProgramBase),
      reprogrammingAmount :=
        if isDecrease && found.decrease != [] then "-" + found.decrease else AmountOr(found.amounts, Reprogramming),
      revisedProgramTotal := AmountOr(found.amounts, RevisedTotal),
      explanation := OrEmpty(found.explanation))
  }

  /** The line of a section, as a function of the section. */
  function LineOf(section: String, branch: String, category: String, isDecrease: bool): Line
  {
    LineFrom(branch, category, isDecrease, FoundIn(section))
  }

  /** The dict `_parse_appropriation_line` starts from: the branch and category, fiscal years 2025, the rest empty. */
  function InitialLine(branch: String, category: String): Line
  {
    Line(category, "", "", branch, "2025", "2025", "", "", "", "", "", "", "", "", "")
  }

  /** `_parse_appropriation_line`: the initial dict, overwritten field by field as the searches succeed. */
  method ParseAppropriationLine(section: String, branch: String, category: String, isDecrease: bool) returns (line: Line)
    ensures line == LineOf(section, branch, category, isDecrease)
  {
    line := InitialLine(branch, category);
    var activity := BudgetActivity(section);
    if activity.Some? {
      line := line.(budgetActivityNumber := activity.value.0);
      line := line.(budgetActivityTitle := activity.value.1);
    }
    var title := Fields.BudgetTitle(section);
    if title.Some? {
      line := line.(budgetTitle := title.value);
    }
    var amounts := ExtractAmounts(section);
    if |amounts| > 0 {
      line := line.(programBaseCongressional := AmountOr(amounts, ProgramBase));
      line := line.(programBaseDod := AmountOr(amounts, ProgramBase));
      line := line.(reprogrammingAmount := AmountOr(amounts, Reprogramming));
      line := line.(revisedProgramTotal := AmountOr(amounts, RevisedTotal));
    }
    var explanation := Fields.Explanation(section);
    if explanation.Some? {
      line := line.(explanation := explanation.value);
    }
    if isDecrease {
      var decrease := DecreaseAmount(section);
      if decrease != [] {
        line := line.(reprogrammingAmount := "-" + decrease);
      }
    }
  }

  /** Both program-base fields carry the same program-base group. */
  lemma {:induction false} LineProgramBase(section: String, branch: String, category: String, isDecrease: bool)
    ensures var line := LineOf(section, branch, category, isDecrease);
      line.programBaseCongressional == line.programBaseDod
      && (line.programBaseDod != [] <==> ProgramBaseSearch(section).Some?)
      && (line.programBaseDod != [] ==> line.programBaseDod == ProgramBaseSearch(section).value)
  {
    AmountsFound(section);
  }

  /**
   * The revised total of a line is non-empty exactly when both amounts were found and
   * both read as integers; then it is their sum, without leading zeros and grouped by commas.
   */
  lemma {:induction false} LineRevisedTotal(section: String, branch: String, category: String, isDecrease: bool)
    ensures var line := LineOf(section, branch, category, isDecrease);
      var base := AmountOr(Amounts(section), ProgramBase);
      var rep := AmountOr(Amounts(section), Reprogramming);
      (line.revisedProgramTotal != [] <==> GroupValue(base).Some? && GroupValue(rep).Some?)
      && (line.revisedProgramTotal != [] ==>
            Grouped(line.revisedProgramTotal)
            && RemoveCommas(line.revisedProgramTotal) == Decimal(GroupValue(base).value + GroupValue(rep).value)
            && GroupValue(line.revisedProgramTotal) == Some(GroupValue(base).value + GroupValue(rep).value))
  {
    LineAmounts(section, branch, category, isDecrease);
    AmountsRevisedTotal(section);
    RevisedOfAmounts(Amounts(section));
  }

  /** The amount fields of a line are those of the section's amounts. */
  lemma {:induction false} LineAmounts(section: String, branch: String, category: String, isDecrease: bool)
    ensures var line := LineOf(section, branch, category, isDecrease); var a := Amounts(section);
      line.programBaseCongressional == AmountOr(a, ProgramBase) && line.programBaseDod == AmountOr(a, ProgramBase)
      && line.revisedProgramTotal == AmountOr(a, RevisedTotal)
  {
  }

  /** The revised-total entry of an amounts dict that `_extract_amounts` could have built. */
  lemma {:induction false} RevisedOfAmounts(a: map<AmountKey, String>)
    requires RevisedTotal in a <==>
      (ProgramBase in a && Reprogramming in a && GroupValue(a[ProgramBase]).Some? && GroupValue(a[Reprogramming]).Some?)
    requires RevisedTotal in a ==>
      Grouped(a[RevisedTotal])
      && RemoveCommas(a[RevisedTotal]) == Decimal(GroupValue(a[ProgramBase]).value + GroupValue(a[Reprogramming]).value)
      && GroupValue(a[RevisedTotal]) == Some(GroupValue(a[ProgramBase]).value + GroupValue(a[Reprogramming]).value)
    ensures var base := AmountOr(a, ProgramBase); var rep := AmountOr(a, Reprogramming); var total := AmountOr(a, RevisedTotal);
      (total != [] <==> GroupValue(base).Some? && GroupValue(rep).Some?)
      && (total != [] ==>
            Grouped(total)
            && RemoveCommas(total) == Decimal(GroupValue(base).value + GroupValue(rep).value)
            && GroupValue(total) == Some(GroupValue(base).value + GroupValue(rep).value))
  {
    RemoveCommasNone("");
    if RevisedTotal in a {
      assert a[RevisedTotal] != [];
    }
  }

  /**
   * The reprogramming amount of a decrease line that holds a `-` number is a single
   * `-` followed by that number's digits and commas; otherwise it is the `+` number, or empty.
   */
  lemma {:induction false} LineReprogramming(section: String, branch: String, category: String, isDecrease: bool)
    ensures var r := LineOf(section, branch, category, isDecrease).reprogrammingAmount;
      if isDecrease && SignedNumber(section, '-', 0).Some? then
        |r| >= 2 && r[0] == '-' && AllIn(r[1..], DigitOrComma) && r[1..] == SignedNumber(section, '-', 0).value
      else
        r == (if SignedNumber(section, '+', 0).Some? then SignedNumber(section, '+', 0).value else "")
  {
    AmountsFound(section);
    var r := LineOf(section, branch, category, isDecrease).reprogrammingAmount;
    if isDecrease && SignedNumber(section, '-', 0).Some? {
      assert r == "-" + DecreaseAmount(section);
      assert r[1..] == DecreaseAmount(section);
    }
  }

  /**
   * On a section without a newline, the case of every section of cleaned text: the
   * budget title is always empty, and the activity title and the explanation run to
   * the end of the section.
   */
  lemma {:induction false} LineOfOneLine(section: String, branch: String, category: String, isDecrease: bool)
    requires forall i :: 0 <= i < |section| ==> section[i] != '\n'
    ensures var line := LineOf(section, branch, category, isDecrease);
      line.budgetTitle == ""
      && (BudgetActivity(section).Some? ==>
            var p := ActivitySearch(section).value;
            var m := ActivityAt(section, p).value;
            m.0 + 1 < |section| && line.budgetActivityTitle == Strip(Py, section[m.0 + 1..]))
      && (Find(section, ExplanationLabel, 0, true).Some? && Fields.Explanation(section).Some? ==>
            var q := Find(section, ExplanationLabel, 0, true).value + |ExplanationLabel|;
            q < |section| && line.explanation == Strip(Py, section[q..]))
  {
    BudgetTitleNeedsNewline(section);
    BudgetActivityToEnd(section);
    ExplanationToEnd(section);
  }

  /** The five lines the transformer looks for, in the order it looks for them. */
  datatype Kind = ArmyIncrease | NavyIncrease | AirForceIncrease | DefenseWideIncrease | DefenseWideDecrease

  function StartWord(k: Kind): String
  {
    match k
    case ArmyIncrease => "ARMY INCREASE"
    case NavyIncrease => "NAVY INCREASE"
    case AirForceIncrease => "AIR FORCE INCREASE"
    case DefenseWideIncrease => "DEFENSE-WIDE INCREASE"
    case DefenseWideDecrease => "DEFENSE-WIDE DECREASE"
  }

  /** The end keywords of the kind's section; the `|$` of each end pattern is the end of the text. */
  function EndWords(k: Kind): seq<String>
  {
    match k
    case ArmyIncrease => ["NAVY INCREASE", "AIR FORCE INCREASE", "DEFENSE-WIDE INCREASE"]
    case NavyIncrease => ["AIR FORCE INCREASE", "DEFENSE-WIDE INCREASE"]
    case AirForceIncrease => ["DEFENSE-WIDE INCREASE"]
    case DefenseWideIncrease => ["DEFENSE-WIDE DECREASE"]
    case DefenseWideDecrease => []
  }

  function BranchOf(k: Kind): String
  {
    match k
    case ArmyIncrease => "Army"
    case NavyIncrease => "Navy"
    case AirForceIncrease => "Air Force"
    case DefenseWideIncrease => "Defense-Wide"
    case DefenseWideDecrease => "Defense-Wide"
  }

  function CategoryOf(k: Kind): String
  {
    match k
    case ArmyIncrease => "Operation and Maintenance"
    case NavyIncrease => "Weapons Procurement"
    case AirForceIncrease => "Missile Procurement"
    case DefenseWideIncrease => "Procurement"
    case DefenseWideDecrease => "Operation and Maintenance"
  }

  /** The position of the kind in the chain Army, Navy, Air Force, Defense-Wide increase, Defense-Wide decrease. */
  function Rank(k: Kind): nat
  {
    match k
    case ArmyIncrease => 0
    case NavyIncrease => 1
    case AirForceIncrease => 2
    case DefenseWideIncrease => 3
    case DefenseWideDecrease => 4
  }

  /** The line dict of a section of the given kind. */
  function KindLine(section: String, k: Kind): Line
  {
    LineOf(section, BranchOf(k), CategoryOf(k), k == DefenseWideDecrease)
  }

  /** The section of a kind that has a single one: `_extract_section` with its start and end keywords. */
  function SingleSection(t: String, k: Kind): String
  {
    ExtractSection(t, StartWord(k), EndWords(k))
  }

  /** A section kept with its kind when it is not empty. */
  function Kept(section: String, k: Kind): seq<(String, Kind)>
  {
    if section != [] then [(section, k)] else []
  }

  /** The Air Force sections, each with its kind. */
  function AirForceSlots(sections: seq<String>): (slots: seq<(String, Kind)>)
    ensures |slots| == |sections|
  {
    seq(|sections|, i requires 0 <= i < |sections| => (sections[i], AirForceIncrease))
  }

  /** The slots of the five searches' sections, in the order the lines are appended. */
  function SlotsFrom(army: String, navy: String, airForce: seq<String>, defenseWide: String, decrease: String): seq<(String, Kind)>
  {
    Kept(army, ArmyIncrease) + Kept(navy, NavyIncrease) + AirForceSlots(airForce)
    + Kept(defenseWide, DefenseWideIncrease) + Kept(decrease, DefenseWideDecrease)
  }

  /** The sections of a text that become lines, with their kinds. */
  function Slots(t: String): seq<(String, Kind)>
  {
    SlotsFrom(SingleSection(t, ArmyIncrease), SingleSection(t, NavyIncrease),
      MultipleSections(t, StartWord(AirForceIncrease), EndWords(AirForceIncrease)),
      SingleSection(t, DefenseWideIncrease), SingleSection(t, DefenseWideDecrease))
  }

  function SlotLine(slot: (String, Kind)): Line
  {
    KindLine(slot.0, slot.1)
  }

  /** The lines of a sequence of slots. */
  function LinesOf(slots: seq<(String, Kind)>): (lines: seq<Line>)
    ensures |lines| == |slots|
  {
    MapSeq(slots, SlotLine)
  }

  /** The line of a kind's single section, when that section is not empty. */
  function SingleLine(t: String, k: Kind): seq<Line>
  {
    var section := SingleSection(t, k);
    if section != [] then [KindLine(section, k)] else []
  }

  function AirForceLine(section: String): Line
  {
    KindLine(section, AirForceIncrease)
  }

  /** One Air Force line per Air Force section. */
  function AirForceLines(sections: seq<String>): (lines: seq<Line>)
    ensures |lines| == |sections|
  {
    MapSeq(sections, AirForceLine)
  }

  /** What `_extract_appropriation_lines` returns. */
  function Lines(t: String): seq<Line>
  {
    SingleLine(t, ArmyIncrease) + SingleLine(t, NavyIncrease)
    + AirForceLines(MultipleSections(t, StartWord(AirForceIncrease), EndWords(AirForceIncrease)))
    + SingleLine(t, DefenseWideIncrease) + SingleLine(t, DefenseWideDecrease)
  }

  lemma {:induction false} SingleLineSlots(t: String, k: Kind)
    ensures SingleLine(t, k) == LinesOf(Kept(SingleSection(t, k), k))
  {
  }

  lemma {:induction false} AirForceLinesSlots(sections: seq<String>)
    ensures AirForceLines(sections) == LinesOf(AirForceSlots(sections))
  {
  }

  /** The lines are those of the slots: one line per non-empty section, with that section's kind. */
  lemma {:induction false} LinesAreSlots(t: String)
    ensures Lines(t) == LinesOf(Slots(t))
  {
    var af := MultipleSections(t, StartWord(AirForceIncrease), EndWords(AirForceIncrease));
    var s0 := Kept(SingleSection(t, ArmyIncrease), ArmyIncrease);
    var s1 := Kept(SingleSection(t, NavyIncrease), NavyIncrease);
    var s2 := AirForceSlots(af);
    var s3 := Kept(SingleSection(t, DefenseWideIncrease), DefenseWideIncrease);
    var s4 := Kept(SingleSection(t, DefenseWideDecrease), DefenseWideDecrease);
    SingleLineSlots(t, ArmyIncrease);
    SingleLineSlots(t, NavyIncrease);
    AirForceLinesSlots(af);
    SingleLineSlots(t, DefenseWideIncrease);
    SingleLineSlots(t, DefenseWideDecrease);
    MapSeqConcat(s0, s1, SlotLine);
    MapSeqConcat(s0 + s1, s2, SlotLine);
    MapSeqConcat(s0 + s1 + s2, s3, SlotLine);
    MapSeqConcat(s0 + s1 + s2 + s3, s4, SlotLine);
  }

  /** `_extract_appropriation_lines`: the five sections in order, the Air Force ones in a loop. */
  method ExtractAppropriationLines(t: String) returns (lines: seq<Line>)
    ensures lines == Lines(t)
  {
    var army := ParseSingle(t, ArmyIncrease);
    var navy := ParseSingle(t, NavyIncrease);
    var sections := ExtractMultipleSections(t, StartWord(AirForceIncrease), EndWords(AirForceIncrease));
    var airForce := ParseAirForce(sections);
    var defenseWide := ParseSingle(t, DefenseWideIncrease);
    var decrease := ParseSingle(t, DefenseWideDecrease);
    lines := army + navy + airForce + defenseWide + decrease;
  }

  /** One `if section: ... lines.append(line)` step for a kind with a single section. */
  method ParseSingle(t: String, k: Kind) returns (lines: seq<Line>)
    ensures lines == SingleLine(t, k)
  {
    lines := [];
    var section := ExtractSection(t, StartWord(k), EndWords(k));
    if section != [] {
      var line := ParseAppropriationLine(section, BranchOf(k), CategoryOf(k), k == DefenseWideDecrease);
      lines := lines + [line];
    }
  }

  /** The loop over the Air Force sections. */
  method ParseAirForce(sections: seq<String>) returns (lines: seq<Line>)
    ensures lines == AirForceLines(sections)
  {
    lines := [];
    var i := 0;
    while i < |sections|
      invariant i <= |sections|
      invariant lines == AirForceLines(sections[..i])
    {
      var line := ParseAppropriationLine(sections[i], BranchOf(AirForceIncrease), CategoryOf(AirForceIncrease), false);
      assert sections[..i + 1] == sections[..i] + [sections[i]];
      MapSeqAppend(sections[..i], sections[i], AirForceLine);
      lines := lines + [line];
      i := i + 1;
    }
    assert sections[..|sections|] == sections;
  }

  /** Every slot of `s` has a kind of rank `r`. */
  predicate AllRank(s: seq<(String, Kind)>, r: nat)
  {
    forall i :: 0 <= i < |s| ==> Rank(s[i].1) == r
  }

  /** The kinds of `s` never go back in the chain. */
  predicate InChainOrder(s: seq<(String, Kind)>)
  {
    forall i, j :: 0 <= i < j < |s| ==> Rank(s[i].1) <= Rank(s[j].1)
  }

  /** Appending slots of a rank no lower than any before keeps the chain order. */
  lemma {:induction false} InChainOrderAppend(a: seq<(String, Kind)>, b: seq<(String, Kind)>, r: nat)
    requires InChainOrder(a) && AllRank(b, r)
    requires forall i :: 0 <= i < |a| ==> Rank(a[i].1) <= r
    ensures InChainOrder(a + b)
    ensures forall i :: 0 <= i < |a + b| ==> Rank((a + b)[i].1) <= r
  {
  }

  /**
   * Slots come in the chain order Army, Navy, Air Force (any number), Defense-Wide
   * increase, Defense-Wide decrease, and each holds a non-empty section.
   */
  lemma {:induction false} SlotsFromInChainOrder(army: String, navy: String, airForce: seq<String>, defenseWide: String, decrease: String)
    requires forall m :: 0 <= m < |airForce| ==> airForce[m] != []
    ensures var s := SlotsFrom(army, navy, airForce, defenseWide, decrease);
      InChainOrder(s) && forall i :: 0 <= i < |s| ==> s[i].0 != []
  {
    var s0 := Kept(army, ArmyIncrease);
    var s1 := Kept(navy, NavyIncrease);
    var s2 := AirForceSlots(airForce);
    var s3 := Kept(defenseWide, DefenseWideIncrease);
    var s4 := Kept(decrease, DefenseWideDecrease);
    InChainOrderAppend(s0, s1, 1);
    InChainOrderAppend(s0 + s1, s2, 2);
    InChainOrderAppend(s0 + s1 + s2, s3, 3);
    InChainOrderAppend(s0 + s1 + s2 + s3, s4, 4);
  }

  /** The slots of a text are in chain order and hold non-empty sections. */
  lemma {:induction false} SlotsInChainOrder(t: String)
    ensures InChainOrder(Slots(t))
    ensures forall i :: 0 <= i < |Slots(t)| ==> Slots(t)[i].0 != []
  {
    var af := MultipleSections(t, StartWord(AirForceIncrease), EndWords(AirForceIncrease));
    MultipleSectionsNonEmpty(t, StartWord(AirForceIncrease), EndWords(AirForceIncrease));
    SlotsFromInChainOrder(SingleSection(t, ArmyIncrease), SingleSection(t, NavyIncrease), af,
      SingleSection(t, DefenseWideIncrease), SingleSection(t, DefenseWideDecrease));
  }

  /** Each line carries the branch and category of its slot's kind, and only a decrease line is negated. */
  lemma {:induction false} LinesOfKinds(slots: seq<(String, Kind)>)
    ensures forall i :: 0 <= i < |slots| ==>
      LinesOf(slots)[i] == LineOf(slots[i].0, BranchOf(slots[i].1), CategoryOf(slots[i].1), slots[i].1 == DefenseWideDecrease)
      && LinesOf(slots)[i].branch == BranchOf(slots[i].1) && LinesOf(slots)[i].category == CategoryOf(slots[i].1)
  {
  }

  /** Which section the slots take for a kind with a single section. */
  function SingleOf(k: Kind, army: String, navy: String, defenseWide: String, decrease: String): String
  {
    match k
    case ArmyIncrease => army
    case NavyIncrease => navy
    case AirForceIncrease => []
    case DefenseWideIncrease => defenseWide
    case DefenseWideDecrease => decrease
  }

  predicate NoKind(s: seq<(String, Kind)>, k: Kind)
  {
    forall i :: 0 <= i < |s| ==> s[i].1 != k
  }

  /** Between slots of other kinds, a kept section is the only slot of its kind, and there only when it is not empty. */
  lemma {:induction false} KeptOnce(a: seq<(String, Kind)>, section: String, k: Kind, b: seq<(String, Kind)>)
    requires NoKind(a, k) && NoKind(b, k)
    ensures var s := a + Kept(section, k) + b;
      ((exists i :: 0 <= i < |s| && s[i].1 == k) <==> section != [])
      && (forall i :: 0 <= i < |s| && s[i].1 == k ==> s[i].0 == section)
  {
    var s := a + Kept(section, k) + b;
    if section != [] {
      assert s[|a|] == (section, k);
    }
  }

  /** A slot list kept for another kind has no slot of this one. */
  lemma {:induction false} KeptNoKind(section: String, other: Kind, k: Kind)
    requires other != k
    ensures NoKind(Kept(section, other), k)
  {
  }

  lemma {:induction false} NoKindAppend(a: seq<(String, Kind)>, b: seq<(String, Kind)>, k: Kind)
    requires NoKind(a, k) && NoKind(b, k)
    ensures NoKind(a + b, k)
  {
    var s := a + b;
    forall i | 0 <= i < |s|
      ensures s[i].1 != k
    {
      if i < |a| {
        assert s[i] == a[i];
      } else {
        assert s[i] == b[i - |a|];
      }
    }
  }

  /**
   * A kind with a single section has a slot exactly when its section is not empty,
   * and that slot holds the section.
   */
  lemma {:induction false} SlotsFromSingle(army: String, navy: String, airForce: seq<String>, defenseWide: String, decrease: String, k: Kind)
    requires k != AirForceIncrease
    ensures var s := SlotsFrom(army, navy, airForce, defenseWide, decrease);
      ((exists i :: 0 <= i < |s| && s[i].1 == k) <==> SingleOf(k, army, navy, defenseWide, decrease) != [])
      && (forall i :: 0 <= i < |s| && s[i].1 == k ==> s[i].0 == SingleOf(k, army, navy, defenseWide, decrease))
  {
    var s0 := Kept(army, ArmyIncrease);
    var s1 := Kept(navy, NavyIncrease);
    var s2 := AirForceSlots(airForce);
    var s3 := Kept(defenseWide, DefenseWideIncrease);
    var s4 := Kept(decrease, DefenseWideDecrease);
    var s := SlotsFrom(army, navy, airForce, defenseWide, decrease);
    assert s == s0 + s1 + s2 + s3 + s4;
    assert NoKind(s2, k);
    assert NoKind([], k);
    match k
    case ArmyIncrease =>
      KeptNoKind(navy, NavyIncrease, k);
      KeptNoKind(defenseWide, DefenseWideIncrease, k);
      KeptNoKind(decrease, DefenseWideDecrease, k);
      NoKindAppend(s1, s2, k);
      NoKindAppend(s1 + s2, s3, k);
      NoKindAppend(s1 + s2 + s3, s4, k);
      assert s == [] + s0 + (s1 + s2 + s3 + s4);
      KeptOnce([], army, k, s1 + s2 + s3 + s4);
    case NavyIncrease =>
      KeptNoKind(army, ArmyIncrease, k);
      KeptNoKind(defenseWide, DefenseWideIncrease, k);
      KeptNoKind(decrease, DefenseWideDecrease, k);
      NoKindAppend(s2, s3, k);
      NoKindAppend(s2 + s3, s4, k);
      assert s == s0 + s1 + (s2 + s3 + s4);
      KeptOnce(s0, navy, k, s2 + s3 + s4);
    case DefenseWideIncrease =>
      KeptNoKind(army, ArmyIncrease, k);
      KeptNoKind(navy, NavyIncrease, k);
      KeptNoKind(decrease, DefenseWideDecrease, k);
      NoKindAppend(s0, s1, k);
      NoKindAppend(s0 + s1, s2, k);
      KeptOnce(s0 + s1 + s2, defenseWide, k, s4);
    case DefenseWideDecrease =>
      KeptNoKind(army, ArmyIncrease, k);
      KeptNoKind(navy, NavyIncrease, k);
      KeptNoKind(defenseWide, DefenseWideIncrease, k);
      NoKindAppend(s0, s1, k);
      NoKindAppend(s0 + s1, s2, k);
      NoKindAppend(s0 + s1 + s2, s3, k);
      assert s == s0 + s1 + s2 + s3 + s4 + [];
      KeptOnce(s0 + s1 + s2 + s3, decrease, k, []);
  }

  /** Every Air Force slot holds one of the Air Force sections. */
  lemma {:induction false} SlotsFromAirForce(army: String, navy: String, airForce: seq<String>, defenseWide: String, decrease: String)
    ensures var s := SlotsFrom(army, navy, airForce, defenseWide, decrease);
      forall i :: 0 <= i < |s| && s[i].1 == AirForceIncrease ==> s[i].0 in airForce
  {
    var s2 := AirForceSlots(airForce);
    assert forall i :: 0 <= i < |s2| ==> s2[i].0 in airForce;
  }

  /** The five keywords of the gate; `DEFENSE-WIDE DECREASE` is not one of them. */
  const GateWords: seq<String> := ["REPROGRAMMING ACTION", "ARMY INCREASE", "NAVY INCREASE", "AIR FORCE INCREASE", "DEFENSE-WIDE INCREASE"]

  /** `any(keyword in text.upper() for keyword in GateWords)`. */
  predicate Recognised(t: String)
  {
    exists k :: 0 <= k < |GateWords| && Contains(UpperString(t), GateWords[k], false)
  }

  /** A word that upper-casing leaves alone occurs in the upper-cased text exactly where it occurs up to case. */
  lemma {:induction false} UpperOccurs(t: String, i: nat, w: String)
    requires forall k :: 0 <= k < |w| ==> Upper(w[k]) == w[k]
    ensures OccursAt(UpperString(t), i, w, false) <==> OccursAt(t, i, w, true)
  {
  }

  /** The gate is a case-insensitive search for its keywords. */
  lemma {:induction false} RecognisedIgnoresCase(t: String)
    ensures Recognised(t) <==> exists k :: 0 <= k < |GateWords| && Contains(t, GateWords[k], true)
  {
    forall k | 0 <= k < |GateWords|
      ensures Contains(UpperString(t), GateWords[k], false) <==> Contains(t, GateWords[k], true)
    {
      var w := GateWords[k];
      assert forall c :: 0 <= c < |w| ==> Upper(w[c]) == w[c];
      forall i | 0 <= i <= |t| ensures OccursAt(UpperString(t), i, w, false) <==> OccursAt(t, i, w, true) {
        UpperOccurs(t, i, w);
      }
    }
  }

  /** The keys of the dict `_extract_document_info` returns. */
  datatype InfoKey = DocTitle | Serial | AppropriationTitle | FileLink

  /** The placeholder the document info holds for the file column. */
  const FilePlaceholder: String := "https://example.com/document.pdf"

  /** `_extract_document_info`: three label searches, then the file placeholder. */
  function DocumentInfo(t: String): (info: map<InfoKey, String>)
    ensures FileLink in info && info[FileLink] == FilePlaceholder
  {
    var title := LabelValue(Py, t, ["Subject:"]);
    var withTitle: map<InfoKey, String> := if title.Some? then map[DocTitle := title.value] else map[];
    var serial := LabelValue(Py, t, ["DoD Serial Number:"]);
    var withSerial := if serial.Some? then withTitle[Serial := serial.value] else withTitle;
    var appropriation := LabelValue(Py, t, ["Appropriation Title:"]);
    var withAppropriation := if appropriation.Some? then withSerial[AppropriationTitle := appropriation.value] else withSerial;
    withAppropriation[FileLink := FilePlaceholder]
  }

  /** Each document-info entry but the file is there exactly when its label pattern matches, and holds its value. */
  lemma {:induction false} DocumentInfoEntries(t: String)
    ensures var info := DocumentInfo(t); var v := LabelValue(Py, t, ["Subject:"]);
      (DocTitle in info <==> v.Some?) && (v.Some? ==> info[DocTitle] == v.value)
    ensures var info := DocumentInfo(t); var v := LabelValue(Py, t, ["DoD Serial Number:"]);
      (Serial in info <==> v.Some?) && (v.Some? ==> info[Serial] == v.value)
    ensures var info := DocumentInfo(t); var v := LabelValue(Py, t, ["Appropriation Title:"]);
      (AppropriationTitle in info <==> v.Some?) && (v.Some? ==> info[AppropriationTitle] == v.value)
  {
  }

  /** The cell a row gives the field: `line.get(key, default)`, and the document's file for `file`. */
  function RowValue(line: Line, file: String, f: Field): String
  {
    if f == File then file
    else if Get(line, f).Some? then Get(line, f).value
    else if f == FiscalYearStart || f == FiscalYearEnd then "2025"
    else ""
  }

  /** The `row_data` dict of a line. */
  function RowOf(line: Line, file: String): Row
  {
    map f | f in Columns :: RowValue(line, file, f)
  }

  /** A row has all sixteen fields: the line's value for each of its fifteen keys, and the file. */
  lemma {:induction false} RowSchema(line: Line, file: String)
    ensures forall f: Field :: f in RowOf(line, file)
    ensures RowOf(line, file)[File] == file
    ensures forall f :: f in LineFields ==> RowOf(line, file)[f] == Get(line, f).value
  {
    ColumnsAreTheSchema();
  }

  function RowsOf(lines: seq<Line>, file: String): (rows: seq<Row>)
    ensures |rows| == |lines|
  {
    seq(|lines|, i requires 0 <= i < |lines| => RowOf(lines[i], file))
  }

  /** What `_extract_appropriation_data` returns: nothing for an unrecognised text, else one row per line. */
  function AppropriationData(t: String): seq<Row>
  {
    if Recognised(t) then RowsOf(Lines(t), DocumentInfo(t)[FileLink]) else []
  }

  /** `_extract_appropriation_data`: the gate, then a row appended per line. */
  method ExtractAppropriationData(t: String) returns (data: seq<Row>)
    ensures data == AppropriationData(t)
  {
    data := [];
    if Recognised(t) {
      var info := DocumentInfo(t);
      var lines := ExtractAppropriationLines(t);
      data := RowsFor(lines, info[FileLink]);
    }
  }

  /** The loop of `_extract_appropriation_data` over the lines. */
  method RowsFor(lines: seq<Line>, file: String) returns (rows: seq<Row>)
    ensures rows == RowsOf(lines, file)
  {
    rows := [];
    var i := 0;
    while i < |lines|
      invariant i <= |lines|
      invariant rows == RowsOf(lines[..i], file)
    {
      rows := rows + [RowOf(lines[i], file)];
      i := i + 1;
    }
    assert lines[..|lines|] == lines;
  }

  /** `_parse_ocr_text`: the cleaning, then the extraction. */
  function ParseOcrText(t: String): seq<Row>
  {
    AppropriationData(CleanText(t))
  }

  /**
   * The row of a slot: all sixteen fields, the given file, fiscal years 2025, its kind's
   * branch and category, and the line's value for each of the fifteen line keys.
   */
  predicate RowFor(row: Row, slot: (String, Kind), file: String)
  {
    (forall f: Field :: f in row)
    && row[File] == file
    && row[FiscalYearStart] == "2025" && row[FiscalYearEnd] == "2025"
    && row[Branch] == BranchOf(slot.1) && row[Category] == CategoryOf(slot.1)
    && forall f :: f in LineFields ==> row[f] == Get(SlotLine(slot), f).value
  }

  lemma {:induction false} SlotRow(slot: (String, Kind), file: String)
    ensures RowFor(RowOf(SlotLine(slot), file), slot, file)
  {
    var line := SlotLine(slot);
    assert line.branch == BranchOf(slot.1) && line.category == CategoryOf(slot.1);
    assert line.fiscalYearStart == "2025" && line.fiscalYearEnd == "2025";
    LineRow(line, file);
  }

  lemma {:induction false} LineRow(line: Line, file: String)
    ensures var row := RowOf(line, file);
      (forall f: Field :: f in row) && row[File] == file
      && row[FiscalYearStart] == line.fiscalYearStart && row[FiscalYearEnd] == line.fiscalYearEnd
      && row[Branch] == line.branch && row[Category] == line.category
      && forall f :: f in LineFields ==> row[f] == Get(line, f).value
  {
    RowSchema(line, file);
    assert FiscalYearStart in LineFields && FiscalYearEnd in LineFields;
    assert Branch in LineFields && Category in LineFields;
  }

  /** The rows of the slots' lines follow the schema, slot by slot. */
  lemma {:induction false} RowsOfSlots(slots: seq<(String, Kind)>, file: String)
    ensures var rows := RowsOf(LinesOf(slots), file);
      |rows| == |slots| && forall i :: 0 <= i < |rows| ==> RowFor(rows[i], slots[i], file)
  {
    var rows := RowsOf(LinesOf(slots), file);
    forall i | 0 <= i < |rows| ensures RowFor(rows[i], slots[i], file) {
      assert rows[i] == RowOf(SlotLine(slots[i]), file);
      SlotRow(slots[i], file);
    }
  }

  /**
   * `_extract_appropriation_data` returns nothing for a text without a gate keyword;
   * otherwise one row per slot, in the slots' chain order, each following the schema
   * with the document's file placeholder.
   */
  lemma {:induction false} AppropriationDataRows(t: String)
    ensures !Recognised(t) ==> AppropriationData(t) == []
    ensures Recognised(t) ==>
      |AppropriationData(t)| == |Slots(t)|
      && forall i :: 0 <= i < |Slots(t)| ==> RowFor(AppropriationData(t)[i], Slots(t)[i], FilePlaceholder)
  {
    if Recognised(t) {
      LinesAreSlots(t);
      RowsOfSlots(Slots(t), FilePlaceholder);
    }
  }

  /** Every section a slot holds is one of the five searches' sections. */
  lemma {:induction false} SlotsFromSections(army: String, navy: String, airForce: seq<String>, defenseWide: String, decrease: String, i: nat)
    requires i < |SlotsFrom(army, navy, airForce, defenseWide, decrease)|
    ensures var x := SlotsFrom(army, navy, airForce, defenseWide, decrease)[i].0;
      x == army || x == navy || x in airForce || x == defenseWide || x == decrease
  {
    var s2 := AirForceSlots(airForce);
    assert forall j :: 0 <= j < |s2| ==> s2[j].0 in airForce;
  }

  /** The slots of a text that lacks a character hold sections that lack it. */
  lemma {:induction false} SlotsLack(t: String, i: nat, c: char)
    requires Lacks(t, c) && i < |Slots(t)|
    ensures Lacks(Slots(t)[i].0, c)
  {
    var af := MultipleSections(t, StartWord(AirForceIncrease), EndWords(AirForceIncrease));
    SlotsFromSections(SingleSection(t, ArmyIncrease), SingleSection(t, NavyIncrease), af,
      SingleSection(t, DefenseWideIncrease), SingleSection(t, DefenseWideDecrease), i);
    var x := Slots(t)[i].0;
    if x in af {
      var m :| 0 <= m < |af| && af[m] == x;
      MultipleSectionsLack(t, StartWord(AirForceIncrease), EndWords(AirForceIncrease), m, c);
    } else if x == SingleSection(t, ArmyIncrease) {
      SectionLacks(t, StartWord(ArmyIncrease), EndWords(ArmyIncrease), c);
    } else if x == SingleSection(t, NavyIncrease) {
      SectionLacks(t, StartWord(NavyIncrease), EndWords(NavyIncrease), c);
    } else if x == SingleSection(t, DefenseWideIncrease) {
      SectionLacks(t, StartWord(DefenseWideIncrease), EndWords(DefenseWideIncrease), c);
    } else {
      SectionLacks(t, StartWord(DefenseWideDecrease), EndWords(DefenseWideDecrease), c);
    }
  }

  /**
   * On OCR text the budget title of every row is empty: the cleaning leaves no newline
   * and the budget-title pattern needs one.
   */
  lemma {:induction false} ParseOcrTextNoBudgetTitle(t: String)
    ensures var rows := ParseOcrText(t);
      forall i :: 0 <= i < |rows| ==> BudgetTitle in rows[i] && rows[i][BudgetTitle] == ""
  {
    var c := CleanText(t);
    CleanedHasNoNewline(t);
    AppropriationDataRows(c);
    if Recognised(c) {
      SlotsNoBudgetTitle(c);
      RowsNoBudgetTitle(AppropriationData(c), Slots(c), FilePlaceholder);
    }
  }

  lemma {:induction false} RowsNoBudgetTitle(rows: seq<Row>, slots: seq<(String, Kind)>, file: String)
    requires |rows| == |slots| && forall i :: 0 <= i < |slots| ==> RowFor(rows[i], slots[i], file)
    requires forall i :: 0 <= i < |slots| ==> SlotLine(slots[i]).budgetTitle == ""
    ensures forall i :: 0 <= i < |rows| ==> BudgetTitle in rows[i] && rows[i][BudgetTitle] == ""
  {
    assert BudgetTitle in LineFields;
  }

  lemma {:induction false} SlotsNoBudgetTitle(t: String)
    requires NoNewline(t)
    ensures forall i :: 0 <= i < |Slots(t)| ==> SlotLine(Slots(t)[i]).budgetTitle == ""
  {
    forall i | 0 <= i < |Slots(t)| ensures SlotLine(Slots(t)[i]).budgetTitle == "" {
      var slot := Slots(t)[i];
      SlotsLack(t, i, '\n');
      LineOfOneLine(slot.0, BranchOf(slot.1), CategoryOf(slot.1), slot.1 == DefenseWideDecrease);
    }
  }

  /**
   * The program-base and reprogramming fields of a line hold only characters of its
   * section (apart from a leading `-`).
   */
  lemma {:induction false} LineAmountsFromText(section: String, branch: String, category: String, isDecrease: bool, c: char)
    requires Lacks(section, c) && c != '-'
    ensures var line := LineOf(section, branch, category, isDecrease);
      Lacks(line.programBaseCongressional, c) && Lacks(line.programBaseDod, c) && Lacks(line.reprogrammingAmount, c)
  {
    LineProgramBase(section, branch, category, isDecrease);
    LineReprogramming(section, branch, category, isDecrease);
    if ProgramBaseSearch(section).Some? {
      ProgramBaseFromText(section, c);
    }
    var r := LineOf(section, branch, category, isDecrease).reprogrammingAmount;
    if isDecrease && SignedNumber(section, '-', 0).Some? {
      SignedNumberFromText(section, '-', 0, c);
      assert forall i :: 1 <= i < |r| ==> r[i] == r[1..][i - 1];
    } else if SignedNumber(section, '+', 0).Some? {
      SignedNumberFromText(section, '+', 0, c);
    }
  }

  /**
   * On OCR text no program-base or reprogramming cell holds a `0`: the cleaning has
   * turned every zero into `O`, and the amount groups are pieces of the cleaned text.
   */
  lemma {:induction false} ParseOcrTextZeroFreeAmounts(t: String)
    ensures var rows := ParseOcrText(t);
      forall i :: 0 <= i < |rows| ==> AmountCellsLack(rows[i], '0')
  {
    var c := CleanText(t);
    assert Lacks(c, '0');
    AppropriationDataRows(c);
    if Recognised(c) {
      SlotsAmountsLack(c, '0');
      RowsAmountsLack(AppropriationData(c), Slots(c), FilePlaceholder, '0');
    }
  }

  /** The row has the three amount cells read from the text, and none of them holds `c`. */
  predicate AmountCellsLack(row: Row, c: char)
  {
    ProgramBaseCongressional in row && ProgramBaseDod in row && ReprogrammingAmount in row
    && Lacks(row[ProgramBaseCongressional], c) && Lacks(row[ProgramBaseDod], c) && Lacks(row[ReprogrammingAmount], c)
  }

  lemma {:induction false} RowsAmountsLack(rows: seq<Row>, slots: seq<(String, Kind)>, file: String, c: char)
    requires |rows| == |slots| && forall i :: 0 <= i < |slots| ==> RowFor(rows[i], slots[i], file)
    requires forall i :: 0 <= i < |slots| ==> SlotAmountsLack(SlotLine(slots[i]), c)
    ensures forall i :: 0 <= i < |rows| ==> AmountCellsLack(rows[i], c)
  {
    assert ProgramBaseCongressional in LineFields && ProgramBaseDod in LineFields && ReprogrammingAmount in LineFields;
  }

  predicate SlotAmountsLack(line: Line, c: char)
  {
    Lacks(line.programBaseCongressional, c) && Lacks(line.programBaseDod, c) && Lacks(line.reprogrammingAmount, c)
  }

  lemma {:induction false} SlotsAmountsLack(t: String, c: char)
    requires Lacks(t, c) && c != '-'
    ensures forall i :: 0 <= i < |Slots(t)| ==> SlotAmountsLack(SlotLine(Slots(t)[i]), c)
  {
    forall i | 0 <= i < |Slots(t)| ensures SlotAmountsLack(SlotLine(Slots(t)[i]), c) {
      var slot := Slots(t)[i];
      SlotsLack(t, i, c);
      LineAmountsFromText(slot.0, BranchOf(slot.1), CategoryOf(slot.1), slot.1 == DefenseWideDecrease, c);
    }
  }

  /** A row with `file` set to the source file when one is given (a non-empty path). */
  function WithSource(row: Row, sourceFile: Option<String>): Row
  {
    if sourceFile.Some? && sourceFile.value != [] then row[File := sourceFile.value] else row
  }

  /** The rows laid out in column order. */
  function Cells(rows: seq<Row>): (cells: seq<seq<String>>)
    ensures |cells| == |rows| && forall i :: 0 <= i < |rows| ==> cells[i] == Project(rows[i])
  {
    seq(|rows|, i requires 0 <= i < |rows| => Project(rows[i]))
  }

  /**
   * `_create_csv_file` without the file writing: a given source file overwrites the
   * `file` of every row in place, and the table is the header followed by the rows in
   * column order, missing columns empty.
   */
  method CreateCsvFile(data: array<Row>, sourceFile: Option<String>) returns (table: seq<seq<String>>)
    modifies data
    ensures forall i :: 0 <= i < data.Length ==> data[i] == WithSource(old(data[i]), sourceFile)
    ensures table == TableOf(old(data[..]), sourceFile)
  {
    if sourceFile.Some? && sourceFile.value != [] {
      var i := 0;
      while i < data.Length
        invariant i <= data.Length
        invariant forall j :: 0 <= j < i ==> data[j] == WithSource(old(data[j]), sourceFile)
        invariant forall j :: i <= j < data.Length ==> data[j] == old(data[j])
      {
        data[i] := data[i][File := sourceFile.value];
        i := i + 1;
      }
    }
    assert data[..] == seq(data.Length, i requires 0 <= i < data.Length => WithSource(old(data[..])[i], sourceFile));
    table := [Header()] + Cells(data[..]);
  }

  /** The table of rows with an optional source file: the header, then each row in column order. */
  function TableOf(rows: seq<Row>, sourceFile: Option<String>): seq<seq<String>>
  {
    [Header()] + Cells(seq(|rows|, i requires 0 <= i < |rows| => WithSource(rows[i], sourceFile)))
  }

  /** The table `transform_ocr_to_csv` writes for OCR text and an optional source file. */
  function Table(t: String, sourceFile: Option<String>): seq<seq<String>>
  {
    TableOf(ParseOcrText(t), sourceFile)
  }

  /**
   * The table has the sixteen headers, then one sixteen-cell line per row; a row's
   * `file` cell is the source file when one is given and the placeholder otherwise, and
   * the override touches no other cell.
   */
  lemma {:induction false} TableCells(t: String, sourceFile: Option<String>)
    ensures var table := Table(t, sourceFile); var rows := ParseOcrText(t);
      |table| == |rows| + 1 && table[0] == Header()
      && forall i :: 0 <= i < |rows| ==> CellsOfRow(table[i + 1], rows[i], sourceFile)
  {
    var c := CleanText(t);
    AppropriationDataRows(c);
    if Recognised(c) {
      RowsHavePlaceholder(AppropriationData(c), Slots(c));
    }
    TableOfRows(ParseOcrText(t), sourceFile);
  }

  lemma {:induction false} RowsHavePlaceholder(rows: seq<Row>, slots: seq<(String, Kind)>)
    requires |rows| == |slots| && forall i :: 0 <= i < |slots| ==> RowFor(rows[i], slots[i], FilePlaceholder)
    ensures forall i :: 0 <= i < |rows| ==> (forall f: Field :: f in rows[i]) && rows[i][File] == FilePlaceholder
  {
  }

  lemma {:induction false} TableOfRows(rows: seq<Row>, sourceFile: Option<String>)
    requires forall i :: 0 <= i < |rows| ==> (forall f: Field :: f in rows[i]) && rows[i][File] == FilePlaceholder
    ensures var table := TableOf(rows, sourceFile);
      |table| == |rows| + 1 && table[0] == Header()
      && forall i :: 0 <= i < |rows| ==> CellsOfRow(table[i + 1], rows[i], sourceFile)
  {
    var table := TableOf(rows, sourceFile);
    forall i | 0 <= i < |rows| ensures CellsOfRow(table[i + 1], rows[i], sourceFile) {
      TableLine(rows, sourceFile, i);
    }
  }

  lemma {:induction false} TableLine(rows: seq<Row>, sourceFile: Option<String>, i: nat)
    requires i < |rows| && (forall f: Field :: f in rows[i]) && rows[i][File] == FilePlaceholder
    ensures CellsOfRow(TableOf(rows, sourceFile)[i + 1], rows[i], sourceFile)
  {
    TableOfAt(rows, sourceFile, i);
    TableRow(rows[i], sourceFile);
  }

  lemma {:induction false} TableOfAt(rows: seq<Row>, sourceFile: Option<String>, i: nat)
    requires i < |rows|
    ensures TableOf(rows, sourceFile)[i + 1] == Project(WithSource(rows[i], sourceFile))
  {
    var sourced := seq(|rows|, i requires 0 <= i < |rows| => WithSource(rows[i], sourceFile));
    var cells := Cells(sourced);
    assert TableOf(rows, sourceFile) == [Header()] + cells;
    ConsAt(Header(), cells, i);
  }

  /** The cells of a table line for a row with the placeholder file and the given source file. */
  predicate CellsOfRow(cells: seq<String>, row: Row, sourceFile: Option<String>)
  {
    |cells| == |Columns|
    && cells[ColumnIndex(File)] == (if sourceFile.Some? && sourceFile.value != [] then sourceFile.value else FilePlaceholder)
    && forall f :: f != File ==> f in row && cells[ColumnIndex(f)] == row[f]
  }

  lemma {:induction false} TableRow(row: Row, sourceFile: Option<String>)
    requires (forall f: Field :: f in row) && row[File] == FilePlaceholder
    ensures CellsOfRow(Project(WithSource(row, sourceFile)), row, sourceFile)
  {
  }
}

/**
 * The stand-alone OCR-to-CSV script: three fixed appropriation rows, each kept when
 * its service is mentioned, with an explanation looked up by three keyword patterns,
 * and a serialiser that quotes every field and doubles the quotes inside it
 * (section 2, rules 6 and 7 of RFC 4180), with a reader that takes it back.
 */
module RealOcrCsv {
  import opened Text
  import opened Regex
  import opened Schema
  import opened CsvCell

  // extract_explanation

  /** The keywords of the three patterns, in the order they are tried. */
  const Keywords: seq<String> := ["explanation", "funds are required", "this reprogramming"]

  /** Where `SERVICE.*?KEYWORD` can match (IGNORECASE, DOTALL): the service name, with the keyword somewhere after it. */
  function KeywordFound(service: String, keyword: String, t: String): nat -> bool
  {
    (p: nat) => OccursAt(t, p, service, true) && Find(t, keyword, p + |service|, true).Some?
  }

  /**
   * The bounds of the group of `SERVICE.*?KEYWORD.*?(.*?)(?=\n\n|$)` under IGNORECASE
   * and DOTALL. The match starts at the leftmost service name with the keyword after
   * it, and the first lazy `.*?` reaches the first keyword after the name. What
   * follows always succeeds, since DOTALL lets the group grow up to the end, where `$`
   * matches; so the second `.*?` stays empty and the group grows one character at a
   * time until a blank line or `$` follows it.
   */
  function Capture(service: String, keyword: String, t: String): (r: Option<(nat, nat)>)
    ensures r.Some? ==> r.value.0 <= r.value.1 <= |t|
  {
    match Leftmost(|t| + 1, 0, KeywordFound(service, keyword, t))
    case None => None
    case Some(p) =>
      var e := Find(t, keyword, p + |service|, true).value + |keyword|;
      Some((e, TailSearch(BlankLineOrEnd, t, e)))
  }

  /** The stripped group of the keyword's pattern, when the pattern matches and the group is not blank. */
  function Candidate(t: String, service: String, keyword: String): Option<String>
  {
    match Capture(service, keyword, t)
    case None => None
    case Some(g) => var s := Strip(Py, t[g.0..g.1]); if s == [] then None else Some(s)
  }

  /** `text[:200] + '...'`. */
  function Fallback(t: String): (r: String)
    ensures |r| == (if |t| < 200 then |t| else 200) + 3
    ensures r[..|r| - 3] == t[..|r| - 3] && r[|r| - 3..] == "..."
  {
    (if |t| < 200 then t else t[..200]) + "..."
  }

  /** The explanation the patterns of the keywords `ks` give: the first non-blank group, or the fallback. */
  function ExplanationFrom(t: String, service: String, ks: seq<String>): String
  {
    if ks == [] then Fallback(t)
    else match Candidate(t, service, ks[0])
      case Some(s) => s
      case None => ExplanationFrom(t, service, ks[1..])
  }

  function ExplanationOf(t: String, service: String): String
  {
    ExplanationFrom(t, service, Keywords)
  }

  /** `extract_explanation`: the patterns in turn, returning the first non-blank group, and the fallback after them. */
  method ExtractExplanation(t: String, service: String) returns (explanation: String)
    ensures explanation == ExplanationOf(t, service)
  {
    var patterns := Keywords;
    var k := 0;
    while k < |patterns|
      invariant k <= |patterns|
      invariant ExplanationFrom(t, service, patterns[k..]) == ExplanationOf(t, service)
    {
      assert patterns[k..][0] == patterns[k] && patterns[k..][1..] == patterns[k + 1..];
      var capture := Capture(service, patterns[k], t);
      if capture.Some? {
        var group := Strip(Py, t[capture.value.0..capture.value.1]);
        if group != [] {
          return group;
        }
      }
      k := k + 1;
    }
    return Fallback(t);
  }

  /** When no pattern yields a non-blank group, the explanation is the fallback. */
  lemma {:induction false} ExplanationFromFallback(t: String, service: String, ks: seq<String>)
    requires forall j :: 0 <= j < |ks| ==> Candidate(t, service, ks[j]).None?
    decreases |ks|
    ensures ExplanationFrom(t, service, ks) == Fallback(t)
  {
    if ks != [] {
      ExplanationFromFallback(t, service, ks[1..]);
    }
  }

  /** When the `k`-th pattern is the first to yield a non-blank group, that group is the explanation. */
  lemma {:induction false} ExplanationFromFirst(t: String, service: String, ks: seq<String>, k: nat)
    requires k < |ks| && Candidate(t, service, ks[k]).Some?
    requires forall j :: 0 <= j < k ==> Candidate(t, service, ks[j]).None?
    decreases k
    ensures ExplanationFrom(t, service, ks) == Candidate(t, service, ks[k]).value
  {
    if 0 < k {
      ExplanationFromFirst(t, service, ks[1..], k - 1);
    }
  }

  /**
   * The explanation is the fallback `text[:200] + '...'` when no pattern yields a
   * non-blank group, and otherwise the group of the first pattern that does.
   */
  lemma {:induction false} ExplanationChoice(t: String, service: String)
    ensures (forall k :: 0 <= k < |Keywords| ==> Candidate(t, service, Keywords[k]).None?) ==> ExplanationOf(t, service) == Fallback(t)
    ensures forall k: nat :: FirstCandidate(t, service, k) ==> ExplanationOf(t, service) == Candidate(t, service, Keywords[k]).value
  {
    if forall k :: 0 <= k < |Keywords| ==> Candidate(t, service, Keywords[k]).None? {
      ExplanationFromFallback(t, service, Keywords);
    }
    forall k: nat | FirstCandidate(t, service, k) ensures ExplanationOf(t, service) == Candidate(t, service, Keywords[k]).value {
      ExplanationFromFirst(t, service, Keywords, k);
    }
  }

  /** The `k`-th pattern yields a non-blank group and none before it does. */
  predicate FirstCandidate(t: String, service: String, k: nat)
  {
    k < |Keywords| && Candidate(t, service, Keywords[k]).Some? && forall j :: 0 <= j < k ==> Candidate(t, service, Keywords[j]).None?
  }

  /** A candidate is never blank, and has no white space at either end. */
  lemma {:induction false} CandidateStripped(t: String, service: String, keyword: String)
    requires Candidate(t, service, keyword).Some?
    ensures var s := Candidate(t, service, keyword).value; s != [] && !IsSpace(Py, s[0]) && !IsSpace(Py, s[|s| - 1])
  {
  }

  /** The service name occurs at `p`, and the keyword at `q`, after it. */
  predicate KeywordAt(t: String, service: String, keyword: String, p: nat, q: nat)
  {
    p + |service| <= q && OccursAt(t, p, service, true) && OccursAt(t, q, keyword, true)
  }

  /** The keyword occurs after the service name, both case-insensitively. */
  ghost predicate KeywordFollows(t: String, service: String, keyword: String)
  {
    exists p: nat, q: nat :: KeywordAt(t, service, keyword, p, q)
  }

  /** A pattern matches exactly when its keyword follows the service name somewhere. */
  lemma {:induction false} CaptureFound(service: String, keyword: String, t: String)
    ensures Capture(service, keyword, t).Some? <==> KeywordFollows(t, service, keyword)
  {
    if Capture(service, keyword, t).Some? {
      var p := Leftmost(|t| + 1, 0, KeywordFound(service, keyword, t)).value;
      var q := Find(t, keyword, p + |service|, true).value;
      assert KeywordAt(t, service, keyword, p, q);
    }
    if KeywordFollows(t, service, keyword) {
      var p: nat, q: nat :| KeywordAt(t, service, keyword, p, q);
      KeywordGivesCapture(service, keyword, t, p, q);
    }
  }

  lemma {:induction false} KeywordGivesCapture(service: String, keyword: String, t: String, p: nat, q: nat)
    requires KeywordAt(t, service, keyword, p, q)
    ensures Leftmost(|t| + 1, 0, KeywordFound(service, keyword, t)).Some?
  {
    var f := KeywordFound(service, keyword, t);
    if Find(t, keyword, p + |service|, true).None? {
      FindFirst(t, keyword, p + |service|, true, q);
    }
    assert f(p);
    LeftmostFinds(|t| + 1, 0, f, p);
  }

  /** A blank line starts at `j`. */
  predicate BlankLineAt(t: String, j: nat)
  {
    j + 1 < |t| && t[j] == '\n' && t[j + 1] == '\n'
  }

  /**
   * The group runs from just after the keyword up to the first blank line after it,
   * or up to the end of the text (before a final newline), and holds no blank line.
   */
  lemma {:induction false} CaptureStops(service: String, keyword: String, t: String)
    requires Capture(service, keyword, t).Some?
    ensures var g := Capture(service, keyword, t).value;
      (BlankLineAt(t, g.1) || DollarAt(Py, t, g.1))
      && forall j :: g.0 <= j < g.1 ==> !BlankLineAt(t, j) && !DollarAt(Py, t, j)
  {
    var g := Capture(service, keyword, t).value;
    TailSearchStops(BlankLineOrEnd, t, g.0);
    forall j | g.0 <= j < g.1 ensures !BlankLineAt(t, j) && !DollarAt(Py, t, j) {
      TailSearchFirst(BlankLineOrEnd, t, g.0, j);
    }
  }

  // parse_appropriation_data

  datatype Service = Army | Navy | AirForce

  /** The services in the order their rows are appended. */
  const Services: seq<Service> := [Army, Navy, AirForce]

  function Rank(s: Service): nat
  {
    match s
    case Army => 0
    case Navy => 1
    case AirForce => 2
  }

  /** The name passed to `extract_explanation`, which is also the row's branch. */
  function ServiceName(s: Service): String
  {
    match s
    case Army => "Army"
    case Navy => "Navy"
    case AirForce => "Air Force"
  }

  /** The substring test that gates the service's row. */
  predicate Mentioned(s: Service, t: String)
  {
    match s
    case Army => Contains(t, "Army", false) || Contains(t, "ARMY", false) || Contains(t, "118,600", false)
    case Navy => Contains(t, "Navy", false) || Contains(t, "NAVY", false) || Contains(t, "105,252", false)
    case AirForce => Contains(t, "Air Force", false) || Contains(t, "AIR FORCE", false) || Contains(t, "239,026", false)
  }

  const SourcePdf: String := "25-08_IR_Israel_Security_Replacement_Transfer_Fund_Tranche_3.pdf"

  /** The fields of a row that are fixed and not the same for all three services. */
  datatype Fixed = Fixed(
    category: String, activity: String, fiscalYearStart: String, fiscalYearEnd: String,
    budgetActivityNumber: String, budgetActivityTitle: String, pem: String, budgetTitle: String,
    programBase: String, reprogrammingAmount: String, revisedProgramTotal: String)

  const ArmyFixed: Fixed := Fixed(
    "Operation and Maintenance", "", "2025", "2025", "4", "Administration and Servicewide Activities", "",
    "Environmental Restoration", "-", "118,600", "118,600")

  const NavyFixed: Fixed := Fixed(
    "Weapons Procurement", "Shipbuilding and Conversion", "2024", "2028", "5",
    "Auxiliaries, Craft, and Prior-Year Program Costs", "", "TAO Fleet Oiler", "815,420", "105,252", "105,252")

  const AirForceFixed: Fixed := Fixed(
    "RDTE", "", "2024", "2025", "4", "Advanced Component Development and Prototypes", "0604858F",
    "Tech Transition Program", "239,026", "30,000", "269,026")

  function FixedOf(s: Service): Fixed
  {
    match s
    case Army => ArmyFixed
    case Navy => NavyFixed
    case AirForce => AirForceFixed
  }

  function ServiceValue(s: Service, explanation: String, f: Field): String
  {
    var x := FixedOf(s);
    match f
    case Category => x.category
    case Code => ""
    case Activity => x.activity
    case Branch => ServiceName(s)
    case FiscalYearStart => x.fiscalYearStart
    case FiscalYearEnd => x.fiscalYearEnd
    case BudgetActivityNumber => x.budgetActivityNumber
    case BudgetActivityTitle => x.budgetActivityTitle
    case Pem => x.pem
    case BudgetTitle => x.budgetTitle
    case ProgramBaseCongressional => x.programBase
    case ProgramBaseDod => x.programBase
    case ReprogrammingAmount => x.reprogrammingAmount
    case RevisedProgramTotal => x.revisedProgramTotal
    case Explanation => explanation
    case File => SourcePdf
  }

  /** The dict literal of a service's row: all sixteen keys. */
  function ServiceRow(s: Service, explanation: String): Row
  {
    map f | f in Columns :: ServiceValue(s, explanation, f)
  }

  /** The service's row for the text, when the service is mentioned. */
  function RowOf(s: Service, t: String): Option<Row>
  {
    if Mentioned(s, t) then Some(ServiceRow(s, ExplanationOf(t, ServiceName(s)))) else None
  }

  function RowFn(t: String): Service -> Option<Row>
  {
    (s: Service) => RowOf(s, t)
  }

  function AppropriationRows(t: String): seq<Row>
  {
    Somes(Services, RowFn(t))
  }

  /** The services that have a row. */
  function PresentServices(t: String): seq<Service>
  {
    Which(Services, RowFn(t))
  }

  /** `parse_appropriation_data`: the three fixed rows in turn, each appended when its service is mentioned. */
  method ParseAppropriationData(t: String) returns (data: seq<Row>)
    ensures data == AppropriationRows(t)
  {
    data := [];
    if Contains(t, "Army", false) || Contains(t, "ARMY", false) || Contains(t, "118,600", false) {
      var explanation := ExtractExplanation(t, "Army");
      RowOfMentioned(Army, t, explanation);
      data := data + [ServiceRow(Army, explanation)];
    } else {
      RowOfUnmentioned(Army, t);
    }
    ghost var upToArmy := data;
    Pushed([], RowOf(Army, t), upToArmy);
    if Contains(t, "Navy", false) || Contains(t, "NAVY", false) || Contains(t, "105,252", false) {
      var explanation := ExtractExplanation(t, "Navy");
      RowOfMentioned(Navy, t, explanation);
      data := data + [ServiceRow(Navy, explanation)];
    } else {
      RowOfUnmentioned(Navy, t);
    }
    ghost var upToNavy := data;
    Pushed(upToArmy, RowOf(Navy, t), upToNavy);
    if Contains(t, "Air Force", false) || Contains(t, "AIR FORCE", false) || Contains(t, "239,026", false) {
      var explanation := ExtractExplanation(t, "Air Force");
      RowOfMentioned(AirForce, t, explanation);
      data := data + [ServiceRow(AirForce, explanation)];
    } else {
      RowOfUnmentioned(AirForce, t);
    }
    Pushed(upToNavy, RowOf(AirForce, t), data);
    assert upToArmy == Opt(RowOf(Army, t));
    UnrollRows(t);
  }

  lemma {:induction false} RowOfMentioned(s: Service, t: String, explanation: String)
    requires Mentioned(s, t) && explanation == ExplanationOf(t, ServiceName(s))
    ensures RowOf(s, t) == Some(ServiceRow(s, explanation))
  {
  }

  lemma {:induction false} RowOfUnmentioned(s: Service, t: String)
    requires !Mentioned(s, t)
    ensures RowOf(s, t) == None
  {
  }

  lemma {:induction false} UnrollRows(t: String)
    ensures AppropriationRows(t) == Opt(RowOf(Army, t)) + Opt(RowOf(Navy, t)) + Opt(RowOf(AirForce, t))
  {
    SomesThree(Army, Navy, AirForce, RowFn(t));
  }

  /** Every service is in the list, in rank order. */
  lemma {:induction false} ServicesAll()
    ensures forall s: Service :: s in Services
    ensures forall i, j :: 0 <= i < j < |Services| ==> Rank(Services[i]) < Rank(Services[j])
  {
    forall s: Service ensures s in Services {
      assert Services[Rank(s)] == s;
    }
  }

  /** The fields of a service's row: all sixteen, with its branch, its explanation and the document's file name. */
  predicate RowHolds(s: Service, explanation: String, row: Row)
  {
    (forall f: Field :: f in row)
    && row[Branch] == ServiceName(s) && row[Explanation] == explanation && row[File] == SourcePdf
  }

  lemma {:induction false} ServiceRowHolds(s: Service, explanation: String)
    ensures RowHolds(s, explanation, ServiceRow(s, explanation))
  {
    ServiceRowKeys(s, explanation);
    ServiceRowAt(s, explanation, Branch);
    ServiceRowAt(s, explanation, Explanation);
    ServiceRowAt(s, explanation, File);
  }

  lemma {:induction false} ServiceRowKeys(s: Service, explanation: String)
    ensures forall f: Field :: f in ServiceRow(s, explanation)
  {
    forall f: Field ensures f in ServiceRow(s, explanation) {
      ServiceRowAt(s, explanation, f);
    }
  }

  lemma {:induction false} ServiceRowAt(s: Service, explanation: String, f: Field)
    ensures f in ServiceRow(s, explanation) && ServiceRow(s, explanation)[f] == ServiceValue(s, explanation, f)
  {
    assert Columns[ColumnIndex(f)] == f;
  }

  /**
   * There are at most three rows, one per mentioned service, in the order Army, Navy,
   * Air Force. Each holds all sixteen fields, the service as its branch, the
   * explanation `extract_explanation` gives for the service and the document's name.
   */
  lemma {:induction false} AppropriationRowsShape(t: String)
    ensures var rows := AppropriationRows(t); var present := PresentServices(t);
      |rows| == |present| <= 3
      && (forall i, j :: 0 <= i < j < |present| ==> Rank(present[i]) < Rank(present[j]))
      && (forall s: Service :: s in present <==> Mentioned(s, t))
      && (forall i :: 0 <= i < |rows| ==> RowHolds(present[i], ExplanationOf(t, ServiceName(present[i])), rows[i]))
  {
    var f := RowFn(t);
    var rows := AppropriationRows(t);
    var present := PresentServices(t);
    SomesWhich(Services, f);
    ServicesAll();
    WhichOrdered(Services, f, (s: Service) => Rank(s) as int);
    PresentMentioned(t, f, present);
    RowsHold(t, f, rows, present);
  }

  lemma {:induction false} PresentMentioned(t: String, f: Service -> Option<Row>, present: seq<Service>)
    requires f == RowFn(t) && forall s: Service :: s in Services
    requires forall x :: x in Services ==> (x in present <==> f(x).Some?)
    ensures forall s: Service :: s in present <==> Mentioned(s, t)
  {
    forall s: Service ensures s in present <==> Mentioned(s, t) {
      assert s in Services && f(s) == RowOf(s, t);
    }
  }

  lemma {:induction false} RowsHold(t: String, f: Service -> Option<Row>, rows: seq<Row>, present: seq<Service>)
    requires f == RowFn(t) && |rows| == |present|
    requires forall i :: 0 <= i < |present| ==> f(present[i]) == Some(rows[i])
    ensures forall i :: 0 <= i < |rows| ==> RowHolds(present[i], ExplanationOf(t, ServiceName(present[i])), rows[i])
  {
    forall i | 0 <= i < |rows| ensures RowHolds(present[i], ExplanationOf(t, ServiceName(present[i])), rows[i]) {
      assert f(present[i]) == Some(rows[i]);
      ServiceRowHolds(present[i], ExplanationOf(t, ServiceName(present[i])));
    }
  }

  // create_csv_content

  /** The header list of the script: the sixteen column names in order. */
  const CsvHeaders: seq<String> := [
    "appropriation_category", "appropriation code", "appropriation activity", "branch",
    "fiscal_year_start", "fiscal_year_end", "budget_activity_number", "budget_activity_title",
    "pem", "budget_title", "program_base_congressional", "program_base_dod",
    "reprogramming_amount", "revised_program_total", "explanation", "file"]

  /** The header list names the schema's columns, in the schema's order. */
  lemma {:induction false} CsvHeadersAreHeader()
    ensures CsvHeaders == Header()
  {
  }

  /** `f'"{value.replace(chr(34), chr(34) * 2)}"'`. */
  function QuotedField(v: String): String
  {
    "\"" + DoubleQuotes(v) + "\""
  }

  /** A quoted field begins and ends with a quote, and its inside un-doubles back to the value. */
  lemma {:induction false} QuotedFieldInside(v: String)
    ensures var q := QuotedField(v);
      |q| >= 2 && q[0] == '"' && q[|q| - 1] == '"' && Undouble(q[1..|q| - 1]) == v
  {
    var q := QuotedField(v);
    assert q[1..|q| - 1] == DoubleQuotes(v);
    UndoubleDoubleQuotes(v);
  }

  function HeaderLine(): String
  {
    Join(Header(), ",")
  }

  /** A row's line: `row.get(header, '')` for each header, quoted, joined by commas. */
  function RecordLine(row: Row): String
  {
    Join(MapSeq(Project(row), QuotedField), ",")
  }

  function CsvContent(data: seq<Row>): String
  {
    Join([HeaderLine()] + MapSeq(data, RecordLine), "\n")
  }

  /** A key the row lacks gives the empty quoted field `""` in its column. */
  lemma {:induction false} MissingKeyField(row: Row, f: Field)
    requires f !in row
    ensures MapSeq(Project(row), QuotedField)[ColumnIndex(f)] == "\"\""
  {
    assert DoubleQuotes([]) == [];
  }

  /** The inner loop of `create_csv_content`: each header's value, or `""`, quoted with its quotes doubled. */
  method QuoteRow(row: Row) returns (csvRow: seq<String>)
    ensures csvRow == MapSeq(Project(row), QuotedField)
  {
    csvRow := [];
    var j := 0;
    while j < |Columns|
      invariant j <= |Columns|
      invariant csvRow == MapSeq(Project(row)[..j], QuotedField)
    {
      var header := Columns[j];
      var value := if header in row then row[header] else "";
      var escaped := DoubleQuotes(value);
      MapSeqSnoc(Project(row), j, QuotedField);
      csvRow := csvRow + ["\"" + escaped + "\""];
      j := j + 1;
    }
    assert Project(row)[..j] == Project(row);
  }

  /** `create_csv_content`: the header line, then one line per row built field by field, joined by newlines. */
  method CreateCsvContent(data: seq<Row>) returns (content: String)
    ensures content == CsvContent(data)
  {
    var headers := Header();
    var csvRows := [Join(headers, ",")];
    var i := 0;
    while i < |data|
      invariant i <= |data|
      invariant csvRows == [HeaderLine()] + MapSeq(data[..i], RecordLine)
    {
      var csvRow := QuoteRow(data[i]);
      MapSeqPrefix([HeaderLine()], data, i, RecordLine);
      csvRows := csvRows + [Join(csvRow, ",")];
      i := i + 1;
    }
    assert data[..i] == data;
    content := Join(csvRows, "\n");
  }

  // Reading the CSV back

  /**
   * The rest of a quoted field after its opening quote: the characters up to the
   * closing quote, each `""` read as one `"`, and what follows the closing quote.
   */
  function Unquote(s: String): (r: Option<(String, String)>)
    decreases |s|
    ensures r.Some? ==> |r.value.1| < |s|
  {
    if s == [] then None
    else if s[0] == '"' then
      if |s| >= 2 && s[1] == '"' then
        match Unquote(s[2..])
        case None => None
        case Some(vr) => Some((['"'] + vr.0, vr.1))
      else Some(([], s[1..]))
    else
      match Unquote(s[1..])
      case None => None
      case Some(vr) => Some(([s[0]] + vr.0, vr.1))
  }

  /** A line of quoted fields separated by commas, read field by field. */
  function ParseRecord(s: String): Option<seq<String>>
    decreases |s|
  {
    if s == [] || s[0] != '"' then None
    else match Unquote(s[1..])
      case None => None
      case Some(vr) =>
        if vr.1 == [] then Some([vr.0])
        else if vr.1[0] != ',' then None
        else match ParseRecord(vr.1[1..])
          case None => None
          case Some(vs) => Some([vr.0] + vs)
  }

  /** A doubled value and its closing quote are read back as the value, leaving what follows. */
  lemma {:induction false} UnquoteDoubled(v: String, rest: String)
    requires rest == [] || rest[0] != '"'
    decreases |v|
    ensures Unquote(DoubleQuotes(v) + "\"" + rest) == Some((v, rest))
  {
    var s := DoubleQuotes(v) + "\"" + rest;
    if v == [] {
      assert s == "\"" + rest;
      assert s[1..] == rest;
    } else {
      var tail := DoubleQuotes(v[1..]) + "\"" + rest;
      UnquoteDoubled(v[1..], rest);
      if v[0] == '"' {
        assert s == "\"\"" + tail;
        assert s[2..] == tail;
      } else {
        assert s == [v[0]] + tail;
        assert s[1..] == tail;
      }
      assert v == [v[0]] + v[1..];
    }
  }

  /** Quoted values joined by commas are read back as the values. */
  lemma {:induction false} ParseQuoted(vs: seq<String>)
    requires |vs| > 0
    decreases |vs|
    ensures ParseRecord(Join(MapSeq(vs, QuotedField), ",")) == Some(vs)
  {
    var fields := MapSeq(vs, QuotedField);
    var s := Join(fields, ",");
    if |vs| == 1 {
      assert s == fields[0] == "\"" + (DoubleQuotes(vs[0]) + "\"" + []);
      assert s[1..] == DoubleQuotes(vs[0]) + "\"" + [];
      UnquoteDoubled(vs[0], []);
      assert [vs[0]] == vs;
    } else {
      var rest := Join(MapSeq(vs[1..], QuotedField), ",");
      assert fields[1..] == MapSeq(vs[1..], QuotedField);
      assert s == "\"" + (DoubleQuotes(vs[0]) + "\"" + ("," + rest));
      UnquoteDoubled(vs[0], "," + rest);
      ParseQuoted(vs[1..]);
      assert ("," + rest)[1..] == rest;
      assert [vs[0]] + vs[1..] == vs;
    }
  }

  /** A row's line reads back as `row.get(header, '')` for each of the sixteen headers. */
  lemma {:induction false} RecordLineReadsBack(row: Row)
    ensures ParseRecord(RecordLine(row)) == Some(Project(row))
  {
    ParseQuoted(Project(row));
  }

  /** Joining pieces that lack a character with a separator that lacks it gives a text that lacks it. */
  lemma {:induction false} JoinLacks(parts: seq<String>, sep: String, c: char)
    requires Lacks(sep, c) && forall k :: 0 <= k < |parts| ==> Lacks(parts[k], c)
    decreases |parts|
    ensures Lacks(Join(parts, sep), c)
  {
    if |parts| > 1 {
      JoinLacks(parts[1..], sep, c);
    }
  }

  lemma {:induction false} DoubleQuotesLacks(s: String, c: char)
    requires Lacks(s, c) && c != '"'
    decreases |s|
    ensures Lacks(DoubleQuotes(s), c)
  {
    if s != [] {
      DoubleQuotesLacks(s[1..], c);
    }
  }

  /** No value of the row holds a newline. */
  predicate OneLineValues(row: Row)
  {
    forall f :: f in row ==> Lacks(row[f], '\n')
  }

  lemma {:induction false} RecordLineLacksNewline(row: Row)
    requires OneLineValues(row)
    ensures Lacks(RecordLine(row), '\n')
  {
    var fields := MapSeq(Project(row), QuotedField);
    forall k | 0 <= k < |fields| ensures Lacks(fields[k], '\n') {
      var v := Project(row)[k];
      assert Lacks(v, '\n') by {
        assert Columns[k] == Columns[ColumnIndex(Columns[k])];
      }
      DoubleQuotesLacks(v, '\n');
    }
    JoinLacks(fields, ",", '\n');
  }

  /** The header line is one line: no header name holds a newline. */
  lemma {:induction false} HeaderLineLacks()
    ensures Lacks(HeaderLine(), '\n')
  {
    forall k | 0 <= k < |Header()| ensures Lacks(Header()[k], '\n') {
      ColumnNameOneLine(Columns[k]);
    }
    JoinLacks(Header(), ",", '\n');
  }

  /**
   * The first line of the content is the sixteen header names joined by commas,
   * whatever the rows hold.
   */
  lemma {:induction false} HeaderLineFirst(data: seq<Row>)
    ensures Split(CsvContent(data), "\n")[0] == HeaderLine()
  {
    HeaderLineLacks();
    SplitHead(HeaderLine(), MapSeq(data, RecordLine), '\n');
  }

  /**
   * When no value holds a newline, the content is `len(data) + 1` lines: the header
   * line, then each row's line in order, which reads back as the row's values.
   */
  lemma {:induction false} CsvContentLines(data: seq<Row>)
    requires forall i :: 0 <= i < |data| ==> OneLineValues(data[i])
    ensures var lines := Split(CsvContent(data), "\n");
      |lines| == |data| + 1 && lines[0] == HeaderLine()
      && forall i :: 0 <= i < |data| ==> lines[i + 1] == RecordLine(data[i]) && ParseRecord(lines[i + 1]) == Some(Project(data[i]))
  {
    var lines := [HeaderLine()] + MapSeq(data, RecordLine);
    HeaderLineLacks();
    forall k | 0 <= k < |lines| ensures Lacks(lines[k], '\n') {
      if k > 0 {
        RecordLineLacksNewline(data[k - 1]);
      }
    }
    SplitJoin(lines, '\n');
    forall i | 0 <= i < |data| ensures lines[i + 1] == RecordLine(data[i]) && ParseRecord(lines[i + 1]) == Some(Project(data[i])) {
      RecordLineReadsBack(data[i]);
    }
  }
}

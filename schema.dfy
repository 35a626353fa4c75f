/**
 * The fixed 16-column schema every exact-CSV row follows, with the two spellings
 * of each field: the column header and the key of a parsed line (Python's line
 * dict, the JavaScript row object).
 */
module Schema {
  import opened Text

  datatype Field =
    | Category | Code | Activity | Branch | FiscalYearStart | FiscalYearEnd
    | BudgetActivityNumber | BudgetActivityTitle | Pem | BudgetTitle
    | ProgramBaseCongressional | ProgramBaseDod | ReprogrammingAmount
    | RevisedProgramTotal | Explanation | File

  /** The header of the field's column. */
  function ColumnName(f: Field): String
  {
    match f
    case Category => "appropriation_category"
    case Code => "appropriation code"
    case Activity => "appropriation activity"
    case Branch => "branch"
    case FiscalYearStart => "fiscal_year_start"
    case FiscalYearEnd => "fiscal_year_end"
    case BudgetActivityNumber => "budget_activity_number"
    case BudgetActivityTitle => "budget_activity_title"
    case Pem => "pem"
    case BudgetTitle => "budget_title"
    case ProgramBaseCongressional => "program_base_congressional"
    case ProgramBaseDod => "program_base_dod"
    case ReprogrammingAmount => "reprogramming_amount"
    case RevisedProgramTotal => "revised_program_total"
    case Explanation => "explanation"
    case File => "file"
  }

  /** The key under which a parsed line holds the field. */
  function KeyName(f: Field): String
  {
    match f
    case Category => "category"
    case Code => "code"
    case Activity => "activity"
    case _ => ColumnName(f)
  }

  /** The column order of the exact CSV format. */
  const Columns: seq<Field> := [
    Category, Code, Activity, Branch, FiscalYearStart, FiscalYearEnd,
    BudgetActivityNumber, BudgetActivityTitle, Pem, BudgetTitle,
    ProgramBaseCongressional, ProgramBaseDod, ReprogrammingAmount,
    RevisedProgramTotal, Explanation, File]

  /** The header row. */
  function Header(): (h: seq<String>)
    ensures |h| == |Columns| && forall i :: 0 <= i < |Columns| ==> h[i] == ColumnName(Columns[i])
  {
    seq(|Columns|, i requires 0 <= i < |Columns| => ColumnName(Columns[i]))
  }

  /** Every field has exactly one column, and the headers are sixteen different names. */
  lemma {:induction false} ColumnsAreTheSchema()
    ensures |Columns| == 16
    ensures forall f: Field :: f in Columns
    ensures forall i, j :: 0 <= i < j < |Columns| ==> ColumnName(Columns[i]) != ColumnName(Columns[j])
  {
    forall f: Field ensures f in Columns {
      match f
      case Category => assert Columns[0] == f;
      case Code => assert Columns[1] == f;
      case Activity => assert Columns[2] == f;
      case Branch => assert Columns[3] == f;
      case FiscalYearStart => assert Columns[4] == f;
      case FiscalYearEnd => assert Columns[5] == f;
      case BudgetActivityNumber => assert Columns[6] == f;
      case BudgetActivityTitle => assert Columns[7] == f;
      case Pem => assert Columns[8] == f;
      case BudgetTitle => assert Columns[9] == f;
      case ProgramBaseCongressional => assert Columns[10] == f;
      case ProgramBaseDod => assert Columns[11] == f;
      case ReprogrammingAmount => assert Columns[12] == f;
      case RevisedProgramTotal => assert Columns[13] == f;
      case Explanation => assert Columns[14] == f;
      case File => assert Columns[15] == f;
    }
  }

  /** No column name holds a newline. */
  lemma {:induction false} ColumnNameOneLine(f: Field)
    ensures '\n' !in ColumnName(f)
  {
    var i := ColumnIndex(f);
    if i < 4 {
      NamesOneLine0(f);
    } else if i < 8 {
      NamesOneLine1(f);
    } else if i < 12 {
      NamesOneLine2(f);
    } else {
      NamesOneLine3(f);
    }
  }

  lemma {:induction false} NamesOneLine0(f: Field)
    requires ColumnIndex(f) < 4
    ensures '\n' !in ColumnName(f)
  {
    match f
    case Category =>
    case Code =>
    case Activity =>
    case Branch =>
    case _ => assert false;
  }

  lemma {:induction false} NamesOneLine1(f: Field)
    requires 4 <= ColumnIndex(f) < 8
    ensures '\n' !in ColumnName(f)
  {
    match f
    case FiscalYearStart =>
    case FiscalYearEnd =>
    case BudgetActivityNumber =>
    case BudgetActivityTitle =>
    case _ => assert false;
  }

  lemma {:induction false} NamesOneLine2(f: Field)
    requires 8 <= ColumnIndex(f) < 12
    ensures '\n' !in ColumnName(f)
  {
    match f
    case Pem =>
    case BudgetTitle =>
    case ProgramBaseCongressional =>
    case ProgramBaseDod =>
    case _ => assert false;
  }

  lemma {:induction false} NamesOneLine3(f: Field)
    requires 12 <= ColumnIndex(f) < 16
    ensures '\n' !in ColumnName(f)
  {
    match f
    case ReprogrammingAmount =>
    case RevisedProgramTotal =>
    case Explanation =>
    case File =>
    case _ => assert false;
  }

  /** The index of a field's column. */
  function ColumnIndex(f: Field): (i: nat)
    ensures i < |Columns| && Columns[i] == f
  {
    match f
    case Category => 0
    case Code => 1
    case Activity => 2
    case Branch => 3
    case FiscalYearStart => 4
    case FiscalYearEnd => 5
    case BudgetActivityNumber => 6
    case BudgetActivityTitle => 7
    case Pem => 8
    case BudgetTitle => 9
    case ProgramBaseCongressional => 10
    case ProgramBaseDod => 11
    case ReprogrammingAmount => 12
    case RevisedProgramTotal => 13
    case Explanation => 14
    case File => 15
  }

  /** The fifteen keys of a parsed line: every field but `file`. */
  const LineFields: set<Field> := set f: Field | f != File

  /** A row dict of the table, keyed by field. */
  type Row = map<Field, String>

  /** A row laid out in column order; a missing column is an empty cell. */
  function Project(row: Row): (cells: seq<String>)
    ensures |cells| == |Columns|
    ensures forall f: Field :: cells[ColumnIndex(f)] == (if f in row then row[f] else "")
  {
    seq(|Columns|, i requires 0 <= i < |Columns| => if Columns[i] in row then row[Columns[i]] else "")
  }
}

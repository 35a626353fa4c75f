/**
 * Quote doubling (section 2, rule 7 of RFC 4180) and the cell sanitiser of
 * extract_pdf_to_csv.py.
 */
module CsvCell {
  import opened Text
  import opened Normalize

  /** `s.replace('"', '""')`. */
  function DoubleQuotes(s: String): (r: String)
    ensures r == [] <==> s == []
    ensures r != [] ==> r[0] == '"' || r[0] == s[0]
  {
    if s == [] then [] else (if s[0] == '"' then "\"\"" else [s[0]]) + DoubleQuotes(s[1..])
  }

  /** Reads a doubled field interior back: each `""` becomes one `"`. */
  function Undouble(s: String): String
    decreases |s|
  {
    if s == [] then []
    else if |s| >= 2 && s[0] == '"' && s[1] == '"' then ['"'] + Undouble(s[2..])
    else [s[0]] + Undouble(s[1..])
  }

  /** Un-doubling gives back the text that was doubled. */
  lemma {:induction false} UndoubleDoubleQuotes(s: String)
    ensures Undouble(DoubleQuotes(s)) == s
  {
    if s != [] {
      var rest := DoubleQuotes(s[1..]);
      UndoubleDoubleQuotes(s[1..]);
      if s[0] == '"' {
        assert DoubleQuotes(s) == ['"', '"'] + rest;
        assert (['"', '"'] + rest)[2..] == rest;
      } else {
        assert DoubleQuotes(s) == [s[0]] + rest;
        assert ([s[0]] + rest)[1..] == rest;
      }
      assert s == [s[0]] + s[1..];
    }
  }

  /** A doubled text holds quotes only in pairs: twice as many as the original. */
  lemma {:induction false} DoubleQuotesCount(s: String)
    ensures CountChar(DoubleQuotes(s), '"') == 2 * CountChar(s, '"')
  {
    if s != [] {
      DoubleQuotesCount(s[1..]);
      var head := if s[0] == '"' then "\"\"" else [s[0]];
      CountCharAppend(head, DoubleQuotes(s[1..]), '"');
    }
  }

  lemma {:induction false} DoubleQuotesAppend(a: String, b: String)
    ensures DoubleQuotes(a + b) == DoubleQuotes(a) + DoubleQuotes(b)
  {
    if a == [] {
      assert a + b == b;
    } else {
      assert (a + b)[1..] == a[1..] + b;
      DoubleQuotesAppend(a[1..], b);
    }
  }

  /** Quote doubling touches no white space, so it commutes with dropping white space. */
  lemma {:induction false} VisibleDoubleQuotes(s: String)
    ensures Visible(DoubleQuotes(s)) == DoubleQuotes(Visible(s))
  {
    if s != [] {
      VisibleDoubleQuotes(s[1..]);
      var rest := DoubleQuotes(s[1..]);
      if s[0] == '"' {
        VisibleQuotePair(rest);
        assert Visible(s) == ['"'] + Visible(s[1..]);
        DoubleQuotesAppend(['"'], Visible(s[1..]));
      } else {
        assert DoubleQuotes(s) == [s[0]] + rest;
        assert ([s[0]] + rest)[1..] == rest;
        var v := if IsPySpace(s[0]) then [] else [s[0]];
        assert Visible(s) == v + Visible(s[1..]);
        DoubleQuotesAppend(v, Visible(s[1..]));
      }
    }
  }

  lemma {:induction false} VisibleQuotePair(rest: String)
    ensures Visible(['"', '"'] + rest) == ['"', '"'] + Visible(rest)
  {
    assert !IsPySpace('"');
    var x := ['"', '"'] + rest;
    assert x[1..] == ['"'] + rest;
    assert x[1..][1..] == rest;
  }

  /** Quote doubling adds only quotes, so single spacing survives it. */
  lemma {:induction false} DoubleQuotesSingleSpaced(s: String)
    requires SingleSpaced(s)
    ensures SingleSpaced(DoubleQuotes(s))
  {
    if s != [] {
      SingleSpacedSlice(s, 1, |s|);
      DoubleQuotesSingleSpaced(s[1..]);
      var head := if s[0] == '"' then "\"\"" else [s[0]];
      var rest := DoubleQuotes(s[1..]);
      assert DoubleQuotes(s) == head + rest;
      DoubleQuotesHead(s, head, rest);
      SingleSpacedConcat(head, rest);
    }
  }

  /** The doubled first character is single-spaced and forms no white-space pair with the rest. */
  lemma {:induction false} DoubleQuotesHead(s: String, head: String, rest: String)
    requires SingleSpaced(s) && s != []
    requires head == (if s[0] == '"' then "\"\"" else [s[0]]) && rest == DoubleQuotes(s[1..])
    ensures SingleSpaced(head) && head != []
    ensures rest != [] ==> !(IsPySpace(head[|head| - 1]) && IsPySpace(rest[0]))
  {
    assert !IsPySpace('"');
    if rest != [] {
      assert rest[0] == '"' || rest[0] == s[1];
    }
  }

  /**
   * `clean_text_for_csv`: collapse white space, double the quotes, turn `\n` and
   * `\r` into spaces, strip. The result has no newline, is single-spaced with
   * nothing to strip, and its visible characters are the input's with quotes doubled.
   */
  function CleanTextForCsv(t: String): (r: String)
    ensures forall i :: 0 <= i < |r| ==> r[i] != '\n' && r[i] != '\r'
    ensures SingleSpaced(r) && (r == [] || (!IsPySpace(r[0]) && !IsPySpace(r[|r| - 1])))
    ensures Visible(r) == DoubleQuotes(Visible(t))
  {
    var collapsed := CollapseSpaces(t);
    var quoted := DoubleQuotes(collapsed);
    DoubleQuotesSingleSpaced(collapsed);
    SingleSpacedHasOnlySpaces(quoted);
    ReplaceAbsent(quoted, '\n', ' ');
    ReplaceAbsent(quoted, '\r', ' ');
    var r := Strip(Py, ReplaceChar(ReplaceChar(quoted, '\n', ' '), '\r', ' '));
    StripSingleSpacedText(quoted);
    VisibleStrip(quoted);
    VisibleDoubleQuotes(collapsed);
    r
  }

  /** Doubling the quotes acts word by word: the words of the result are the doubled words. */
  lemma {:induction false} WordsDoubleQuotes(s: String, cur: String)
    decreases |s|
    ensures WordsFrom(DoubleQuotes(s), DoubleQuotes(cur)) == MapSeq(WordsFrom(s, cur), DoubleQuotes)
  {
    if s == [] {
      assert Pending(DoubleQuotes(cur)) == MapSeq(Pending(cur), DoubleQuotes);
    } else if IsPySpace(s[0]) {
      WordsDoubleQuotes(s[1..], []);
      SpaceStep(s, cur);
    } else {
      WordsDoubleQuotes(s[1..], cur + [s[0]]);
      WordCharStep(s, cur);
    }
  }

  lemma {:induction false} SpaceStep(s: String, cur: String)
    requires s != [] && IsPySpace(s[0])
    requires WordsFrom(DoubleQuotes(s[1..]), DoubleQuotes([])) == MapSeq(WordsFrom(s[1..], []), DoubleQuotes)
    ensures WordsFrom(DoubleQuotes(s), DoubleQuotes(cur)) == MapSeq(WordsFrom(s, cur), DoubleQuotes)
  {
    var rest := DoubleQuotes(s[1..]);
    assert DoubleQuotes(s) == [s[0]] + rest && ([s[0]] + rest)[1..] == rest;
    assert Pending(DoubleQuotes(cur)) == MapSeq(Pending(cur), DoubleQuotes);
    MapSeqConcat(Pending(cur), WordsFrom(s[1..], []), DoubleQuotes);
  }

  lemma {:induction false} WordCharStep(s: String, cur: String)
    requires s != [] && !IsPySpace(s[0])
    requires WordsFrom(DoubleQuotes(s[1..]), DoubleQuotes(cur + [s[0]])) == MapSeq(WordsFrom(s[1..], cur + [s[0]]), DoubleQuotes)
    ensures WordsFrom(DoubleQuotes(s), DoubleQuotes(cur)) == MapSeq(WordsFrom(s, cur), DoubleQuotes)
  {
    var c := DoubleQuotes([s[0]]);
    assert s == [s[0]] + s[1..];
    DoubleQuotesAppend([s[0]], s[1..]);
    DoubleQuotesAppend(cur, [s[0]]);
    assert c == (if s[0] == '"' then "\"\"" else [s[0]]);
    WordsOfWordChars(c, DoubleQuotes(s[1..]), DoubleQuotes(cur));
  }

  /**
   * `clean_text_for_csv` is `' '.join` of the input's words with their quotes doubled:
   * every word is kept in order, with exactly one space between two words and none
   * elsewhere.
   */
  lemma {:induction false} CleanTextForCsvWords(t: String)
    ensures CleanTextForCsv(t) == Join(MapSeq(Words(t), DoubleQuotes), " ")
  {
    var collapsed := CollapseSpaces(t);
    var quoted := DoubleQuotes(collapsed);
    DoubleQuotesSingleSpaced(collapsed);
    SingleSpacedHasOnlySpaces(quoted);
    ReplaceAbsent(quoted, '\n', ' ');
    ReplaceAbsent(quoted, '\r', ' ');
    var r := CleanTextForCsv(t);
    assert r == Strip(Py, quoted);
    WordsStrip(quoted);
    assert DoubleQuotes([]) == [];
    WordsDoubleQuotes(collapsed, []);
    WordsCollapse(t, []);
    JoinedWords(r, []);
    assert [] + r == r;
  }

  lemma {:induction false} StripSingleSpacedText(s: String)
    requires SingleSpaced(s)
    ensures SingleSpaced(Strip(Py, s))
    ensures forall i :: 0 <= i < |Strip(Py, s)| ==> Strip(Py, s)[i] != '\n' && Strip(Py, s)[i] != '\r'
  {
    var a := StripStart(Py, s);
    SingleSpacedSlice(s, a, StripEnd(Py, s, a, |s|));
    SingleSpacedHasOnlySpaces(Strip(Py, s));
  }

  /** The sanitiser keeps every quote and doubles it. */
  lemma {:induction false} CleanTextForCsvQuotes(t: String)
    ensures CountChar(CleanTextForCsv(t), '"') == 2 * CountChar(t, '"')
  {
    assert !IsPySpace('"');
    var r := CleanTextForCsv(t);
    VisiblePreservesCount(r, '"');
    VisiblePreservesCount(t, '"');
    DoubleQuotesCount(Visible(t));
    calc {
      CountChar(r, '"');
      CountChar(Visible(r), '"');
      CountChar(DoubleQuotes(Visible(t)), '"');
      2 * CountChar(Visible(t), '"');
      2 * CountChar(t, '"');
    }
  }

  lemma {:induction false} VisiblePreservesCount(s: String, c: char)
    requires !IsPySpace(c)
    ensures CountChar(Visible(s), c) == CountChar(s, c)
  {
    if s != [] {
      VisiblePreservesCount(s[1..], c);
      var v := if IsPySpace(s[0]) then [] else [s[0]];
      CountCharAppend(v, Visible(s[1..]), c);
    }
  }

  /** Empty or all-white-space input, and only that, gives the empty cell. */
  lemma {:induction false} CleanTextForCsvEmpty(t: String)
    ensures CleanTextForCsv(t) == [] <==> AllIn(t, Space(Py))
  {
    var r := CleanTextForCsv(t);
    VisibleEmpty(t);
    VisibleEmpty(r);
    if Visible(t) != [] {
      assert DoubleQuotes(Visible(t)) != [];
    }
  }

  lemma {:induction false} VisibleEmpty(s: String)
    ensures Visible(s) == [] <==> AllIn(s, Space(Py))
  {
    if s != [] {
      VisibleEmpty(s[1..]);
      assert AllIn(s, Space(Py)) <==> IsPySpace(s[0]) && AllIn(s[1..], Space(Py)) by {
        if IsPySpace(s[0]) && AllIn(s[1..], Space(Py)) {
          forall i | 0 <= i < |s| ensures InClass(s[i], Space(Py)) {
            if i > 0 {
              assert s[i] == s[1..][i - 1];
            }
          }
        }
      }
    }
  }
}

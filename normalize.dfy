/**
 * The cleaning that both Python transformers apply to OCR text before they look
 * for anything in it: white space collapsed to single spaces, the OCR fixes `|`
 * to `I` and `0` to `O`, newline runs collapsed, and the ends stripped.
 */
module Normalize {
  import opened Text

  /** Every white-space character is a plain space and no two white-space characters are adjacent. */
  predicate SingleSpaced(s: String)
  {
    (forall i :: 0 <= i < |s| && IsPySpace(s[i]) ==> s[i] == ' ')
    && (forall i :: 0 <= i < |s| - 1 ==> !(IsPySpace(s[i]) && IsPySpace(s[i + 1])))
  }

  /** What the cleaning leaves: single spaces, no `|` and no `0`, nothing to strip. */
  predicate IsClean(s: String)
  {
    SingleSpaced(s)
    && (forall i :: 0 <= i < |s| ==> s[i] != '|' && s[i] != '0')
    && (s == [] || (!IsPySpace(s[0]) && !IsPySpace(s[|s| - 1])))
  }

  /** The characters of `s` that are not white space, in order. */
  function Visible(s: String): String
  {
    if s == [] then [] else (if IsPySpace(s[0]) then [] else [s[0]]) + Visible(s[1..])
  }

  lemma {:induction false} VisibleAppend(a: String, b: String)
    ensures Visible(a + b) == Visible(a) + Visible(b)
  {
    if a == [] {
      assert a + b == b;
    } else {
      assert (a + b)[1..] == a[1..] + b;
      VisibleAppend(a[1..], b);
    }
  }

  lemma {:induction false} VisibleOfSpaces(s: String)
    requires AllIn(s, Space(Py))
    ensures Visible(s) == []
  {
    if s != [] {
      VisibleOfSpaces(s[1..]);
    }
  }

  lemma {:induction false} VisibleAfterRun(s: String, k: nat)
    requires k <= |s| && forall i :: 0 <= i < k ==> IsPySpace(s[i])
    ensures Visible(s) == Visible(s[k..])
  {
    assert s == s[..k] + s[k..];
    VisibleAppend(s[..k], s[k..]);
    VisibleOfSpaces(s[..k]);
  }

  /** Strip removes white space only. */
  lemma {:induction false} VisibleStrip(s: String)
    ensures Visible(Strip(Py, s)) == Visible(s)
  {
    var a := StripStart(Py, s);
    var b := StripEnd(Py, s, a, |s|);
    var p, m, q := s[..a], s[a..b], s[b..];
    assert s == p + m + q;
    StripAsSlice(Py, s, a, b);
    StrippedAreSpaces(Py, s, a, b);
    VisibleBetweenSpaces(p, m, q);
  }

  /** What Strip removes at either end is white space. */
  lemma {:induction false} StrippedAreSpaces(d: Dialect, s: String, a: nat, b: nat)
    requires a == StripStart(d, s) && b == StripEnd(d, s, a, |s|)
    ensures AllIn(s[..a], Space(d)) && AllIn(s[b..], Space(d))
  {
    var p, q := s[..a], s[b..];
    forall i | 0 <= i < |p| ensures InClass(p[i], Space(d)) {
      assert p[i] == s[i];
    }
    forall i | 0 <= i < |q| ensures InClass(q[i], Space(d)) {
      assert q[i] == s[b + i];
    }
  }

  lemma {:induction false} VisibleBetweenSpaces(p: String, m: String, q: String)
    requires AllIn(p, Space(Py)) && AllIn(q, Space(Py))
    ensures Visible(p + m + q) == Visible(m)
  {
    VisibleAppend(p + m, q);
    VisibleAppend(p, m);
    VisibleOfSpaces(p);
    VisibleOfSpaces(q);
    assert Visible(p) + Visible(m) == Visible(m);
    assert Visible(p + m) + Visible(q) == Visible(p + m);
  }

  /** Replacing one visible character by another commutes with dropping white space. */
  lemma {:induction false} VisibleReplace(s: String, a: char, b: char)
    requires !IsPySpace(a) && !IsPySpace(b)
    ensures Visible(ReplaceChar(s, a, b)) == ReplaceChar(Visible(s), a, b)
  {
    if s != [] {
      VisibleReplace(s[1..], a, b);
      var r := ReplaceChar(s, a, b);
      assert r == [r[0]] + ReplaceChar(s[1..], a, b);
      assert r[1..] == ReplaceChar(s[1..], a, b);
      var v := (if IsPySpace(s[0]) then [] else [s[0]]);
      assert Visible(s) == v + Visible(s[1..]);
      ReplaceCharAppend(v, Visible(s[1..]), a, b);
    }
  }

  lemma {:induction false} ReplaceCharAppend(x: String, y: String, a: char, b: char)
    ensures ReplaceChar(x + y, a, b) == ReplaceChar(x, a, b) + ReplaceChar(y, a, b)
  {
  }

  lemma {:induction false} SingleSpacedCons(c: char, y: String)
    requires SingleSpaced(y)
    requires IsPySpace(c) ==> c == ' ' && (y == [] || !IsPySpace(y[0]))
    ensures SingleSpaced([c] + y)
  {
    var s := [c] + y;
    forall i | 0 <= i < |s| - 1 ensures !(IsPySpace(s[i]) && IsPySpace(s[i + 1])) {
      if i > 0 {
        assert s[i] == y[i - 1] && s[i + 1] == y[i];
      }
    }
    forall i | 0 <= i < |s| && IsPySpace(s[i]) ensures s[i] == ' ' {
      if i > 0 {
        assert s[i] == y[i - 1];
      }
    }
  }

  /** Two single-spaced texts that do not put white space against white space join into one. */
  lemma {:induction false} SingleSpacedConcat(x: String, y: String)
    requires SingleSpaced(x) && SingleSpaced(y)
    requires x != [] && y != [] ==> !(IsPySpace(x[|x| - 1]) && IsPySpace(y[0]))
    ensures SingleSpaced(x + y)
  {
    var s := x + y;
    forall i | 0 <= i < |s| - 1 ensures !(IsPySpace(s[i]) && IsPySpace(s[i + 1])) {
      if i + 1 < |x| {
        assert s[i] == x[i] && s[i + 1] == x[i + 1];
      } else if i >= |x| {
        assert s[i] == y[i - |x|] && s[i + 1] == y[i + 1 - |x|];
      } else {
        assert s[i] == x[|x| - 1] && s[i + 1] == y[0];
      }
    }
    forall i | 0 <= i < |s| && IsPySpace(s[i]) ensures s[i] == ' ' {
      if i < |x| {
        assert s[i] == x[i];
      } else {
        assert s[i] == y[i - |x|];
      }
    }
  }

  lemma {:induction false} SingleSpacedSlice(s: String, a: nat, b: nat)
    requires SingleSpaced(s) && a <= b <= |s|
    ensures SingleSpaced(s[a..b])
  {
    var u := s[a..b];
    forall i | 0 <= i < |u| - 1 ensures !(IsPySpace(u[i]) && IsPySpace(u[i + 1])) {
      assert u[i] == s[a + i] && u[i + 1] == s[a + i + 1];
    }
  }

  /** Single spacing leaves no white space but the plain space: in particular no `\n` or `\r`. */
  lemma {:induction false} SingleSpacedHasOnlySpaces(s: String)
    requires SingleSpaced(s)
    ensures forall i :: 0 <= i < |s| ==> s[i] != '\n' && s[i] != '\r'
  {
    assert IsPySpace('\n') && IsPySpace('\r');
  }

  /** The OCR fixes put in visible characters only, so they keep single spacing. */
  lemma {:induction false} ReplaceKeepsSingleSpaced(s: String, a: char, b: char)
    requires SingleSpaced(s) && !IsPySpace(a) && !IsPySpace(b)
    ensures SingleSpaced(ReplaceChar(s, a, b))
  {
    var r := ReplaceChar(s, a, b);
    assert forall i :: 0 <= i < |s| ==> (IsPySpace(r[i]) <==> IsPySpace(s[i]));
  }

  /** `re.sub(r'\s+', ' ', s)`: each maximal run of white space becomes one space. */
  function CollapseSpaces(s: String): (r: String)
    decreases |s|
    ensures SingleSpaced(r)
    ensures Visible(r) == Visible(s)
    ensures r == [] <==> s == []
    ensures r != [] ==> (IsPySpace(r[0]) <==> IsPySpace(s[0]))
  {
    if s == [] then []
    else if IsPySpace(s[0]) then
      var k := RunEnd(s, 0, Space(Py));
      var rest := CollapseSpaces(s[k..]);
      SingleSpacedCons(' ', rest);
      VisibleAfterRun(s, k);
      assert ([' '] + rest)[1..] == rest;
      [' '] + rest
    else
      var rest := CollapseSpaces(s[1..]);
      SingleSpacedCons(s[0], rest);
      assert ([s[0]] + rest)[1..] == rest;
      [s[0]] + rest
  }

  /** Text that is already single-spaced is left as it is. */
  lemma {:induction false} CollapseSingleSpaced(s: String)
    requires SingleSpaced(s)
    decreases |s|
    ensures CollapseSpaces(s) == s
  {
    if s != [] {
      SingleSpacedSlice(s, 1, |s|);
      CollapseSingleSpaced(s[1..]);
      if IsPySpace(s[0]) {
        assert RunEnd(s, 1, Space(Py)) == 1;
        assert RunEnd(s, 0, Space(Py)) == 1;
      }
      assert s == [s[0]] + s[1..];
    }
  }

  /** `re.sub(r'\n+', '\n', s)`: each run of newlines becomes one newline. */
  function CollapseNewlines(s: String): (r: String)
    decreases |s|
    ensures forall i :: 0 <= i < |r| - 1 ==> !(r[i] == '\n' && r[i + 1] == '\n')
    ensures r == [] <==> s == []
    ensures r != [] ==> r[0] == s[0]
  {
    if s == [] then []
    else if s[0] == '\n' then
      var rest := CollapseNewlines(s[RunEnd(s, 0, Newline)..]);
      assert forall i :: 1 <= i < |rest| + 1 ==> (['\n'] + rest)[i] == rest[i - 1];
      ['\n'] + rest
    else
      var rest := CollapseNewlines(s[1..]);
      assert forall i :: 1 <= i < |rest| + 1 ==> ([s[0]] + rest)[i] == rest[i - 1];
      [s[0]] + rest
  }

  /** Without a newline there is nothing for CollapseNewlines to do. */
  lemma {:induction false} CollapseNewlinesNoop(s: String)
    requires forall i :: 0 <= i < |s| ==> s[i] != '\n'
    decreases |s|
    ensures CollapseNewlines(s) == s
  {
    if s != [] {
      CollapseNewlinesNoop(s[1..]);
      assert s == [s[0]] + s[1..];
    }
  }

  /**
   * The cleaning of OCR text: the result is clean, and its visible characters are
   * those of the input with the two OCR fixes applied.
   */
  function CleanText(t: String): (r: String)
    ensures IsClean(r)
    ensures Visible(r) == ReplaceChar(ReplaceChar(Visible(t), '|', 'I'), '0', 'O')
  {
    var collapsed := CollapseSpaces(t);
    var fixed := ReplaceChar(ReplaceChar(collapsed, '|', 'I'), '0', 'O');
    OcrFixes(collapsed);
    StripSingleSpaced(fixed);
    Strip(Py, CollapseNewlines(fixed))
  }

  /** After the two OCR fixes a single-spaced text stays single-spaced and has no `|` or `0`. */
  lemma {:induction false} OcrFixes(s: String)
    requires SingleSpaced(s)
    ensures var fixed := ReplaceChar(ReplaceChar(s, '|', 'I'), '0', 'O');
      SingleSpaced(fixed) && (forall i :: 0 <= i < |fixed| ==> fixed[i] != '|' && fixed[i] != '0')
      && Visible(fixed) == ReplaceChar(ReplaceChar(Visible(s), '|', 'I'), '0', 'O')
  {
    var bars := ReplaceChar(s, '|', 'I');
    ReplaceKeepsSingleSpaced(s, '|', 'I');
    ReplaceKeepsSingleSpaced(bars, '0', 'O');
    VisibleReplace(s, '|', 'I');
    VisibleReplace(bars, '0', 'O');
  }

  /** The last two steps of the cleaning turn a single-spaced text into a clean one. */
  lemma {:induction false} StripSingleSpaced(s: String)
    requires SingleSpaced(s) && forall i :: 0 <= i < |s| ==> s[i] != '|' && s[i] != '0'
    ensures IsClean(Strip(Py, CollapseNewlines(s)))
    ensures Visible(Strip(Py, CollapseNewlines(s))) == Visible(s)
  {
    SingleSpacedHasOnlySpaces(s);
    CollapseNewlinesNoop(s);
    StripKeepsClean(s);
    VisibleStrip(s);
  }

  lemma {:induction false} StripKeepsClean(s: String)
    requires SingleSpaced(s) && forall i :: 0 <= i < |s| ==> s[i] != '|' && s[i] != '0'
    ensures IsClean(Strip(Py, s))
  {
    var a := StripStart(Py, s);
    var b := StripEnd(Py, s, a, |s|);
    SingleSpacedSlice(s, a, b);
    assert forall i :: 0 <= i < b - a ==> s[a..b][i] == s[a + i];
  }

  /** The newline-collapsing step of the cleaning never finds a newline: it is a no-op. */
  lemma {:induction false} CleanedHasNoNewline(t: String)
    ensures forall i :: 0 <= i < |CleanText(t)| ==> CleanText(t)[i] != '\n' && CleanText(t)[i] != '\r'
  {
    SingleSpacedHasOnlySpaces(CleanText(t));
  }

  /** Clean text is a fixed point of the cleaning. */
  lemma {:induction false} CleanTextOfClean(s: String)
    requires IsClean(s)
    ensures CleanText(s) == s
  {
    CollapseSingleSpaced(s);
    ReplaceAbsent(s, '|', 'I');
    ReplaceAbsent(s, '0', 'O');
    SingleSpacedHasOnlySpaces(s);
    CollapseNewlinesNoop(s);
    StripUnchanged(Py, s);
  }

  /** Cleaning twice is cleaning once. */
  lemma {:induction false} CleanTextIdempotent(t: String)
    ensures CleanText(CleanText(t)) == CleanText(t)
  {
    CleanTextOfClean(CleanText(t));
  }

  // The words of a text: what `str.split()` with no argument returns.

  /** `s.split()`: the maximal runs of characters that are not white space, in order. */
  function Words(s: String): seq<String>
  {
    WordsFrom(s, [])
  }

  /** The words of `s` when the word `cur` has been started just before it. */
  function WordsFrom(s: String, cur: String): seq<String>
    decreases |s|
  {
    if s == [] then Pending(cur)
    else if IsPySpace(s[0]) then Pending(cur) + WordsFrom(s[1..], [])
    else WordsFrom(s[1..], cur + [s[0]])
  }

  /** A started word, once white space or the end closes it. */
  function Pending(cur: String): seq<String>
  {
    if cur == [] then [] else [cur]
  }

  /** A word: not empty, and no white space in it. */
  predicate IsWord(w: String)
  {
    w != [] && forall i :: 0 <= i < |w| ==> !IsPySpace(w[i])
  }

  /** Every word is non-empty and holds no white space. */
  lemma {:induction false} WordsAreWords(s: String, cur: String)
    requires forall i :: 0 <= i < |cur| ==> !IsPySpace(cur[i])
    decreases |s|
    ensures forall k :: 0 <= k < |WordsFrom(s, cur)| ==> IsWord(WordsFrom(s, cur)[k])
  {
    if s != [] {
      if IsPySpace(s[0]) {
        WordsAreWords(s[1..], []);
        var ws := WordsFrom(s[1..], []);
        forall k | 0 <= k < |Pending(cur) + ws| ensures IsWord((Pending(cur) + ws)[k]) {
          if k >= |Pending(cur)| {
            assert (Pending(cur) + ws)[k] == ws[k - |Pending(cur)|];
          }
        }
      } else {
        WordsAreWords(s[1..], cur + [s[0]]);
      }
    }
  }

  /** Leading white space before a fresh word is skipped. */
  lemma {:induction false} WordsAfterSpaces(sp: String, y: String)
    requires AllIn(sp, Space(Py))
    decreases |sp|
    ensures WordsFrom(sp + y, []) == WordsFrom(y, [])
  {
    if sp == [] {
      assert sp + y == y;
    } else {
      assert InClass(sp[0], Space(Py));
      assert (sp + y)[0] == sp[0] && (sp + y)[1..] == sp[1..] + y;
      SpacesTail(sp);
      WordsAfterSpaces(sp[1..], y);
    }
  }

  lemma {:induction false} SpacesTail(sp: String)
    requires sp != [] && AllIn(sp, Space(Py))
    ensures AllIn(sp[1..], Space(Py))
  {
    forall i | 0 <= i < |sp[1..]| ensures InClass(sp[1..][i], Space(Py)) {
      assert sp[1..][i] == sp[i + 1];
    }
  }

  /** Trailing white space adds no word. */
  lemma {:induction false} WordsBeforeSpaces(x: String, sp: String, cur: String)
    requires AllIn(sp, Space(Py))
    decreases |x|
    ensures WordsFrom(x + sp, cur) == WordsFrom(x, cur)
  {
    if x == [] {
      assert x + sp == sp;
      if sp != [] {
        assert InClass(sp[0], Space(Py));
        SpacesTail(sp);
        WordsAfterSpaces(sp[1..], []);
        assert sp[1..] + [] == sp[1..];
      }
    } else {
      assert (x + sp)[0] == x[0] && (x + sp)[1..] == x[1..] + sp;
      if IsPySpace(x[0]) {
        WordsBeforeSpaces(x[1..], sp, []);
      } else {
        WordsBeforeSpaces(x[1..], sp, cur + [x[0]]);
      }
    }
  }

  /** Characters that are not white space are added to the word being read. */
  lemma {:induction false} WordsOfWordChars(x: String, y: String, cur: String)
    requires forall i :: 0 <= i < |x| ==> !IsPySpace(x[i])
    decreases |x|
    ensures WordsFrom(x + y, cur) == WordsFrom(y, cur + x)
  {
    if x == [] {
      assert x + y == y && cur + x == cur;
    } else {
      assert (x + y)[1..] == x[1..] + y;
      WordsOfWordChars(x[1..], y, cur + [x[0]]);
      assert cur + [x[0]] + x[1..] == cur + x;
    }
  }

  /** Stripping changes no word. */
  lemma {:induction false} WordsStrip(s: String)
    ensures Words(Strip(Py, s)) == Words(s)
  {
    var a := StripStart(Py, s);
    var b := StripEnd(Py, s, a, |s|);
    var p, m, q := s[..a], s[a..b], s[b..];
    assert s == p + (m + q);
    StripAsSlice(Py, s, a, b);
    StrippedAreSpaces(Py, s, a, b);
    WordsAfterSpaces(p, m + q);
    WordsBeforeSpaces(m, q, []);
  }

  /** Collapsing white space changes no word. */
  lemma {:induction false} WordsCollapse(s: String, cur: String)
    decreases |s|
    ensures WordsFrom(CollapseSpaces(s), cur) == WordsFrom(s, cur)
  {
    if s != [] {
      if IsPySpace(s[0]) {
        var k := RunEnd(s, 0, Space(Py));
        WordsCollapse(s[k..], []);
        CollapseRunStep(s, cur, k);
      } else {
        var rest := CollapseSpaces(s[1..]);
        assert CollapseSpaces(s) == [s[0]] + rest;
        assert ([s[0]] + rest)[1..] == rest;
        WordsCollapse(s[1..], cur + [s[0]]);
      }
    }
  }

  /** A white-space run collapsed to one space closes the started word and is skipped. */
  lemma {:induction false} CollapseRunStep(s: String, cur: String, k: nat)
    requires s != [] && IsPySpace(s[0]) && k == RunEnd(s, 0, Space(Py))
    requires WordsFrom(CollapseSpaces(s[k..]), []) == WordsFrom(s[k..], [])
    ensures WordsFrom(CollapseSpaces(s), cur) == WordsFrom(s, cur)
  {
    var rest := CollapseSpaces(s[k..]);
    CollapseSpacesRun(s, k);
    WordsSpaceCons(rest, cur);
    WordsSkipRun(s, cur, k);
  }

  lemma {:induction false} CollapseSpacesRun(s: String, k: nat)
    requires s != [] && IsPySpace(s[0]) && k == RunEnd(s, 0, Space(Py))
    ensures CollapseSpaces(s) == [' '] + CollapseSpaces(s[k..])
  {
  }

  lemma {:induction false} WordsSpaceCons(rest: String, cur: String)
    ensures WordsFrom([' '] + rest, cur) == Pending(cur) + WordsFrom(rest, [])
  {
    assert ([' '] + rest)[0] == ' ' && ([' '] + rest)[1..] == rest;
  }

  /** A leading white-space run of `k` characters closes the started word and is skipped. */
  lemma {:induction false} WordsSkipRun(s: String, cur: String, k: nat)
    requires 1 <= k <= |s| && forall i :: 0 <= i < k ==> InClass(s[i], Space(Py))
    ensures WordsFrom(s, cur) == Pending(cur) + WordsFrom(s[k..], [])
  {
    assert InClass(s[0], Space(Py));
    var run := s[1..k];
    forall i | 0 <= i < |run| ensures InClass(run[i], Space(Py)) {
      assert run[i] == s[i + 1];
    }
    assert s[1..] == run + s[k..];
    WordsAfterSpaces(run, s[k..]);
  }

  /** The two OCR fixes `|` to `I` and `0` to `O`. */
  function OcrFix(s: String): String
  {
    ReplaceChar(ReplaceChar(s, '|', 'I'), '0', 'O')
  }

  lemma {:induction false} OcrFixAppend(x: String, y: String)
    ensures OcrFix(x + y) == OcrFix(x) + OcrFix(y)
  {
    ReplaceCharAppend(x, y, '|', 'I');
    ReplaceCharAppend(ReplaceChar(x, '|', 'I'), ReplaceChar(y, '|', 'I'), '0', 'O');
  }

  /** The OCR fixes act word by word: the words of the fixed text are the fixed words. */
  lemma {:induction false} WordsOcrFix(s: String, cur: String)
    decreases |s|
    ensures WordsFrom(OcrFix(s), OcrFix(cur)) == MapSeq(WordsFrom(s, cur), OcrFix)
  {
    if s == [] {
      assert Pending(OcrFix(cur)) == MapSeq(Pending(cur), OcrFix);
    } else {
      assert s == [s[0]] + s[1..];
      OcrFixAppend([s[0]], s[1..]);
      var c := OcrFix([s[0]]);
      assert |c| == 1 && (IsPySpace(c[0]) <==> IsPySpace(s[0]));
      assert OcrFix(s)[1..] == OcrFix(s[1..]);
      if IsPySpace(s[0]) {
        WordsOcrFix(s[1..], []);
        assert OcrFix([]) == [];
        assert Pending(OcrFix(cur)) == MapSeq(Pending(cur), OcrFix);
        MapSeqConcat(Pending(cur), WordsFrom(s[1..], []), OcrFix);
      } else {
        WordsOcrFix(s[1..], cur + [s[0]]);
        OcrFixAppend(cur, [s[0]]);
        assert OcrFix(cur) + [OcrFix(s)[0]] == OcrFix(cur + [s[0]]);
      }
    }
  }

  /** A single-spaced text with nothing to strip is its words joined by single spaces. */
  lemma {:induction false} JoinedWords(s: String, cur: String)
    requires SingleSpaced(s) && (s == [] || !IsPySpace(s[|s| - 1]))
    requires cur == [] ==> s == [] || !IsPySpace(s[0])
    decreases |s|
    ensures Join(WordsFrom(s, cur), " ") == cur + s
  {
    if s == [] {
      assert cur + s == cur;
    } else if IsPySpace(s[0]) {
      assert s[0] == ' ' && |s| >= 2 && !IsPySpace(s[1]);
      SingleSpacedSlice(s, 1, |s|);
      JoinedWords(s[1..], []);
      var ws := WordsFrom(s[1..], []);
      PendingWords(s[2..], [s[1]]);
      assert ws == WordsFrom(s[1..][1..], [] + [s[1]]);
      assert s[1..][1..] == s[2..];
      assert ([cur] + ws)[1..] == ws;
      assert cur + s == cur + " " + s[1..];
    } else {
      SingleSpacedSlice(s, 1, |s|);
      JoinedWords(s[1..], cur + [s[0]]);
      assert cur + s == cur + [s[0]] + s[1..];
    }
  }

  /** A started word is never lost. */
  lemma {:induction false} PendingWords(s: String, cur: String)
    requires cur != []
    decreases |s|
    ensures WordsFrom(s, cur) != []
  {
    if s != [] && !IsPySpace(s[0]) {
      PendingWords(s[1..], cur + [s[0]]);
    }
  }

  /**
   * `' '.join` of the input's words, each with the OCR fixes applied, is the cleaned
   * text: the cleaning keeps every word, in order, and puts exactly one space between
   * two words and none elsewhere.
   */
  lemma {:induction false} CleanTextWords(t: String)
    ensures CleanText(t) == Join(MapSeq(Words(t), OcrFix), " ")
    ensures forall k :: 0 <= k < |Words(CleanText(t))| ==> IsWord(Words(CleanText(t))[k])
  {
    var collapsed := CollapseSpaces(t);
    var fixed := OcrFix(collapsed);
    OcrFixes(collapsed);
    SingleSpacedHasOnlySpaces(fixed);
    CollapseNewlinesNoop(fixed);
    var r := CleanText(t);
    assert r == Strip(Py, fixed);
    WordsStrip(fixed);
    WordsCollapse(t, []);
    assert OcrFix([]) == [];
    WordsOcrFix(collapsed, []);
    JoinedWords(r, []);
    assert [] + r == r;
    WordsAreWords(r, []);
  }
}

/**
 * Characters, strings and the literal searches that every regular expression of
 * the transformers is built from.
 *
 * Case-insensitive matching (Python's re.IGNORECASE, str.upper(), JavaScript's
 * /i flag) is comparison after ASCII upper-casing.
 */
module Text {

  type String = seq<char>

  datatype Option<T> = None | Some(value: T)

  /** The two regular-expression and string-method dialects of the repository. */
  datatype Dialect = Py | Js

  /**
   * Python's str.isspace(): `\s` of a str pattern and str.strip() use this set. It is
   * U+0009 to U+000D, U+001C to U+0020, U+0085, U+00A0, U+1680, U+2000 to U+200A,
   * U+2028, U+2029, U+202F, U+205F and U+3000.
   */
  predicate IsPySpace(c: char)
  {
    '\t' <= c <= '\r' || '\U{1C}' <= c <= ' ' || c == '\U{85}' || c == '\U{A0}' || c == '\U{1680}'
    || '\U{2000}' <= c <= '\U{200A}' || c == '\U{2028}' || c == '\U{2029}' || c == '\U{202F}'
    || c == '\U{205F}' || c == '\U{3000}'
  }

  /**
   * ECMAScript WhiteSpace and LineTerminator: `\s` and String.prototype.trim() use this
   * set. It is U+0009 to U+000D, U+0020, U+00A0, U+1680, U+2000 to U+200A, U+2028,
   * U+2029, U+202F, U+205F, U+3000 and U+FEFF.
   */
  predicate IsJsSpace(c: char)
  {
    '\t' <= c <= '\r' || c == ' ' || c == '\U{A0}' || c == '\U{1680}'
    || '\U{2000}' <= c <= '\U{200A}' || c == '\U{2028}' || c == '\U{2029}' || c == '\U{202F}'
    || c == '\U{205F}' || c == '\U{3000}' || c == '\U{FEFF}'
  }

  predicate IsSpace(d: Dialect, c: char)
  {
    if d == Py then IsPySpace(c) else IsJsSpace(c)
  }

  /** A JavaScript line terminator: what `.` without the s flag refuses to match. */
  predicate IsJsLineTerminator(c: char)
  {
    c == '\n' || c == '\r' || c == '\U{2028}' || c == '\U{2029}'
  }

  predicate IsDigit(c: char)
  {
    '0' <= c <= '9'
  }

  function Upper(c: char): (u: char)
    ensures 'a' <= c <= 'z' ==> u as int == c as int - 32
    ensures !('a' <= c <= 'z') ==> u == c
  {
    if 'a' <= c <= 'z' then (c as int - 32) as char else c
  }

  function UpperString(s: String): (u: String)
    ensures |u| == |s| && forall i :: 0 <= i < |s| ==> u[i] == Upper(s[i])
  {
    if s == [] then [] else [Upper(s[0])] + UpperString(s[1..])
  }

  predicate SameChar(a: char, b: char, ci: bool)
  {
    if ci then Upper(a) == Upper(b) else a == b
  }

  /** The literal `w` occurs in `t` starting at index `i` (case-insensitively when `ci`). */
  predicate OccursAt(t: String, i: nat, w: String, ci: bool)
  {
    i + |w| <= |t| && forall k :: 0 <= k < |w| ==> SameChar(t[i + k], w[k], ci)
  }

  /** Some literal of `ws` occurs at index `i`. */
  predicate AnyOccursAt(t: String, i: nat, ws: seq<String>, ci: bool)
  {
    exists k :: 0 <= k < |ws| && OccursAt(t, i, ws[k], ci)
  }

  /** Python's `w in t` (and, with `ci`, `w in t.upper()` for an upper-case `w`). */
  predicate Contains(t: String, w: String, ci: bool)
  {
    exists i :: 0 <= i <= |t| && OccursAt(t, i, w, ci)
  }

  /** The first index `j >= i` where `w` occurs: a search for a literal pattern. */
  function Find(t: String, w: String, i: nat, ci: bool): (r: Option<nat>)
    decreases |t| - i
    ensures r.Some? ==> i <= r.value && OccursAt(t, r.value, w, ci)
  {
    if i + |w| > |t| then None
    else if OccursAt(t, i, w, ci) then Some(i)
    else Find(t, w, i + 1, ci)
  }

  /** Find misses nothing: the literal occurs nowhere from `i` up to what it returns. */
  lemma {:induction false} FindFirst(t: String, w: String, i: nat, ci: bool, j: nat)
    requires i <= j && (Find(t, w, i, ci).None? || j < Find(t, w, i, ci).value)
    decreases |t| - i
    ensures !OccursAt(t, j, w, ci)
  {
    if i + |w| <= |t| && !OccursAt(t, i, w, ci) && i < j {
      FindFirst(t, w, i + 1, ci, j);
    }
  }

  /** A literal the text does not contain is not found. */
  lemma {:induction false} FindMissing(t: String, w: String, i: nat, ci: bool)
    requires !Contains(t, w, ci)
    ensures Find(t, w, i, ci).None?
  {
  }

  /** An occurrence inside a slice is an occurrence in the whole text, shifted by the slice's start. */
  lemma {:induction false} OccursInSlice(t: String, lo: nat, hi: nat, j: nat, w: String, ci: bool)
    requires lo <= hi <= |t| && OccursAt(t[lo..hi], j, w, ci)
    ensures OccursAt(t, lo + j, w, ci) && lo + j + |w| <= hi
  {
    forall k | 0 <= k < |w| ensures SameChar(t[lo + j + k], w[k], ci) {
      assert t[lo..hi][j + k] == t[lo + j + k];
    }
  }

  /** A literal that does not occur in a text does not occur in an equal one. */
  lemma {:induction false} NotOccursInSame(x: String, y: String, j: nat, w: String, ci: bool)
    requires x == y && !OccursAt(y, j, w, ci)
    ensures !OccursAt(x, j, w, ci)
  {
  }

  /** An occurrence is an occurrence at the start of the slice it covers. */
  lemma {:induction false} OccursAtStart(t: String, i: nat, w: String, ci: bool)
    requires OccursAt(t, i, w, ci)
    ensures OccursAt(t[i..i + |w|], 0, w, ci)
  {
    forall k | 0 <= k < |w| ensures SameChar(t[i..i + |w|][0 + k], w[k], ci) {
      assert t[i..i + |w|][k] == t[i + k];
    }
  }

  /** Character classes used by `[...]`, `\d` and `\s`. */
  datatype Class = Digit | DigitOrComma | Space(d: Dialect) | ColonOrSpace | Newline

  predicate InClass(c: char, k: Class)
  {
    match k
    case Digit => IsDigit(c)
    case DigitOrComma => IsDigit(c) || c == ','
    case Space(d) => IsSpace(d, c)
    case ColonOrSpace => c == ':' || IsPySpace(c)
    case Newline => c == '\n'
  }

  /** End of the longest run of class `k` starting at `i`: a greedy `[...]*`. */
  function RunEnd(t: String, i: nat, k: Class): (e: nat)
    requires i <= |t|
    decreases |t| - i
    ensures i <= e <= |t|
    ensures forall j :: i <= j < e ==> InClass(t[j], k)
    ensures e < |t| ==> !InClass(t[e], k)
  {
    if i < |t| && InClass(t[i], k) then RunEnd(t, i + 1, k) else i
  }

  predicate AllIn(s: String, k: Class)
  {
    forall i :: 0 <= i < |s| ==> InClass(s[i], k)
  }

  /** Index of the first character of `s` that is not white space (`|s|` if none). */
  function StripStart(d: Dialect, s: String): (a: nat)
    ensures a <= |s|
    ensures forall i :: 0 <= i < a ==> IsSpace(d, s[i])
    ensures a < |s| ==> !IsSpace(d, s[a])
  {
    RunEnd(s, 0, Space(d))
  }

  /** Index just after the last character at or after `lo` that is not white space (`lo` if none). */
  function StripEnd(d: Dialect, s: String, lo: nat, hi: nat): (b: nat)
    requires lo <= hi <= |s|
    decreases hi
    ensures lo <= b <= hi
    ensures forall i :: b <= i < hi ==> IsSpace(d, s[i])
    ensures b > lo ==> !IsSpace(d, s[b - 1])
  {
    if hi > lo && IsSpace(d, s[hi - 1]) then StripEnd(d, s, lo, hi - 1) else hi
  }

  /** Python's str.strip() (Py) or JavaScript's String.prototype.trim() (Js). */
  function Strip(d: Dialect, s: String): (r: String)
    ensures r == s[StripStart(d, s)..StripEnd(d, s, StripStart(d, s), |s|)]
    ensures r == [] || (!IsSpace(d, r[0]) && !IsSpace(d, r[|r| - 1]))
  {
    var a := StripStart(d, s);
    s[a..StripEnd(d, s, a, |s|)]
  }

  /** The text holds no newline. */
  predicate NoNewline(s: String)
  {
    Lacks(s, '\n')
  }

  /** Stripping a slice of a text that lacks a character gives a text that lacks it. */
  lemma {:induction false} StripSliceLacks(d: Dialect, t: String, a: nat, b: nat, c: char)
    requires Lacks(t, c) && a <= b <= |t|
    ensures Lacks(Strip(d, t[a..b]), c)
  {
    var x := t[a..b];
    var lo := StripStart(d, x);
    var hi := StripEnd(d, x, lo, |x|);
    var r := x[lo..hi];
    forall i | 0 <= i < |r| ensures r[i] != c {
      var p := lo + i;
      assert r[i] == x[p];
      assert x[p] == t[a + p];
    }
    StripAsSlice(d, x, lo, hi);
  }

  /** A string that has nothing for Strip to remove is left as it is. */
  lemma {:induction false} StripUnchanged(d: Dialect, s: String)
    requires s == [] || (!IsSpace(d, s[0]) && !IsSpace(d, s[|s| - 1]))
    ensures Strip(d, s) == s
  {
    if s != [] {
      assert StripStart(d, s) == 0;
      assert StripEnd(d, s, 0, |s|) == |s|;
    }
  }

  /** A string of white space only strips to the empty string. */
  lemma {:induction false} StripAllSpace(d: Dialect, s: String)
    requires AllIn(s, Space(d))
    ensures Strip(d, s) == []
  {
  }

  /** A run that starts inside a run of the same class ends where that run ends. */
  lemma {:induction false} RunEndSkip(t: String, i: nat, j: nat, k: Class)
    requires i <= j <= |t| && forall m :: i <= m < j ==> InClass(t[m], k)
    decreases j - i
    ensures RunEnd(t, i, k) == RunEnd(t, j, k)
  {
    if i < j {
      RunEndSkip(t, i + 1, j, k);
    }
  }

  lemma {:induction false} RunEndShift(t: String, n: nat, i: nat, k: Class)
    requires n + i <= |t|
    decreases |t| - n - i
    ensures RunEnd(t, n + i, k) == n + RunEnd(t[n..], i, k)
  {
    if n + i < |t| && InClass(t[n + i], k) {
      RunEndShift(t, n, i + 1, k);
    }
  }

  lemma {:induction false} StripEndShift(d: Dialect, s: String, n: nat, lo: nat, hi: nat)
    requires n <= |s| && lo <= hi <= |s| - n
    decreases hi
    ensures StripEnd(d, s, n + lo, n + hi) == n + StripEnd(d, s[n..], lo, hi)
  {
    if hi > lo && IsSpace(d, s[n + hi - 1]) {
      assert s[n..][hi - 1] == s[n + hi - 1];
      StripEndShift(d, s, n, lo, hi - 1);
    } else if hi > lo {
      assert s[n..][hi - 1] == s[n + hi - 1];
    }
  }

  lemma {:induction false} StripStartDrop(d: Dialect, s: String, n: nat)
    requires n <= |s| && forall i :: 0 <= i < n ==> IsSpace(d, s[i])
    ensures StripStart(d, s) == n + StripStart(d, s[n..])
  {
    RunEndSkip(s, 0, n, Space(d));
    RunEndShift(s, n, 0, Space(d));
  }

  /** Dropping leading white space does not change what Strip returns. */
  lemma {:induction false} StripDropSpaces(d: Dialect, s: String, n: nat)
    requires n <= |s| && forall i :: 0 <= i < n ==> IsSpace(d, s[i])
    ensures Strip(d, s) == Strip(d, s[n..])
  {
    StripStartDrop(d, s, n);
    StripOfSuffix(d, s, n);
  }

  lemma {:induction false} StripOfSuffix(d: Dialect, s: String, n: nat)
    requires n <= |s| && StripStart(d, s) == n + StripStart(d, s[n..])
    ensures Strip(d, s) == Strip(d, s[n..])
  {
    var u := s[n..];
    var a := StripStart(d, u);
    var hi := |u|;
    StripEndShift(d, s, n, a, hi);
    var b := StripEnd(d, u, a, hi);
    var lo := StripStart(d, s);
    var e := StripEnd(d, s, lo, |s|);
    assert |s| == n + hi;
    assert e == n + b;
    StripAsSlice(d, s, lo, e);
    StripAsSlice(d, u, a, b);
    SliceOfSuffix(s, n, a, b, lo, e);
  }

  lemma {:induction false} StripAsSlice(d: Dialect, s: String, lo: nat, e: nat)
    requires lo == StripStart(d, s) && e == StripEnd(d, s, lo, |s|)
    ensures Strip(d, s) == s[lo..e]
  {
  }

  lemma {:induction false} SliceOfSuffix(s: String, n: nat, a: nat, b: nat, lo: nat, e: nat)
    requires n <= |s| && a <= b <= |s| - n && lo == n + a && e == n + b
    ensures s[lo..e] == s[n..][a..b]
  {
  }

  /** The text of `s` with every occurrence of the character `a` replaced by `b`. */
  function ReplaceChar(s: String, a: char, b: char): (r: String)
    ensures |r| == |s|
    ensures forall i :: 0 <= i < |s| ==> r[i] == (if s[i] == a then b else s[i])
  {
    if s == [] then [] else [if s[0] == a then b else s[0]] + ReplaceChar(s[1..], a, b)
  }

  lemma {:induction false} ReplaceAbsent(s: String, a: char, b: char)
    requires forall i :: 0 <= i < |s| ==> s[i] != a
    ensures ReplaceChar(s, a, b) == s
  {
  }

  function CountChar(s: String, c: char): nat
  {
    if s == [] then 0 else (if s[0] == c then 1 else 0) + CountChar(s[1..], c)
  }

  lemma {:induction false} CountCharAppend(s: String, u: String, c: char)
    ensures CountChar(s + u, c) == CountChar(s, c) + CountChar(u, c)
  {
    if s == [] {
      assert s + u == u;
    } else {
      assert (s + u)[1..] == s[1..] + u;
      CountCharAppend(s[1..], u, c);
    }
  }

  lemma {:induction false} CountCharAbsent(s: String, c: char)
    requires forall i :: 0 <= i < |s| ==> s[i] != c
    ensures CountChar(s, c) == 0
  {
    if s != [] {
      CountCharAbsent(s[1..], c);
    }
  }

  /** Python's `sep.join(parts)`. */
  function Join(parts: seq<String>, sep: String): String
  {
    if parts == [] then [] else if |parts| == 1 then parts[0] else parts[0] + sep + Join(parts[1..], sep)
  }

  /** `[f(x) for x in xs]`. */
  function MapSeq<A, B>(xs: seq<A>, f: A -> B): (ys: seq<B>)
    ensures |ys| == |xs| && forall i :: 0 <= i < |xs| ==> ys[i] == f(xs[i])
  {
    seq(|xs|, i requires 0 <= i < |xs| => f(xs[i]))
  }

  /** Appending to the input appends the image of the new element. */
  lemma {:induction false} MapSeqAppend<A, B>(xs: seq<A>, x: A, f: A -> B)
    ensures MapSeq(xs + [x], f) == MapSeq(xs, f) + [f(x)]
  {
  }

  /** One more step of a loop that appends the image of each element after a fixed head. */
  lemma {:induction false} MapSeqPrefix<A, B>(head: seq<B>, xs: seq<A>, i: nat, f: A -> B)
    requires i < |xs|
    ensures head + MapSeq(xs[..i + 1], f) == head + MapSeq(xs[..i], f) + [f(xs[i])]
  {
    assert xs[..i + 1] == xs[..i] + [xs[i]];
    MapSeqAppend(xs[..i], xs[i], f);
  }

  /** One more step of a loop that appends the image of each element. */
  lemma {:induction false} MapSeqSnoc<A, B>(xs: seq<A>, i: nat, f: A -> B)
    requires i < |xs|
    ensures MapSeq(xs[..i + 1], f) == MapSeq(xs[..i], f) + [f(xs[i])]
  {
    assert xs[..i + 1] == xs[..i] + [xs[i]];
    MapSeqAppend(xs[..i], xs[i], f);
  }

  lemma {:induction false} LastDropped<T>(s: seq<T>, x: T)
    ensures (s + [x])[..|s + [x]| - 1] == s && (s + [x])[|s + [x]| - 1] == x
  {
    assert (s + [x])[..|s|] == s;
  }

  /** `xs.map((x, i) => f(i, x))`. */
  function MapIndexed<A, B>(xs: seq<A>, f: (nat, A) -> B): (ys: seq<B>)
    ensures |ys| == |xs| && forall i :: 0 <= i < |xs| ==> ys[i] == f(i, xs[i])
  {
    seq(|xs|, i requires 0 <= i < |xs| => f(i, xs[i]))
  }

  /** An index past the first part of a concatenation falls in the second. */
  lemma {:induction false} AppendAt<T>(a: seq<T>, b: seq<T>, n: nat, j: nat)
    requires |a| == n && j < |b|
    ensures (a + b)[n + j] == b[j]
  {
  }

  /** Past a first element, index `i + 1` is index `i` of the rest. */
  lemma {:induction false} ConsAt<T>(x: T, s: seq<T>, i: nat)
    requires i < |s|
    ensures ([x] + s)[i + 1] == s[i]
  {
  }

  /** One more step of a loop that appends the image of each element and its index. */
  lemma {:induction false} MapIndexedPrefix<A, B>(xs: seq<A>, i: nat, f: (nat, A) -> B)
    requires i < |xs|
    ensures MapIndexed(xs[..i + 1], f) == MapIndexed(xs[..i], f) + [f(i, xs[i])]
  {
    assert forall j :: 0 <= j <= i ==> xs[..i + 1][j] == xs[j];
  }

  lemma {:induction false} MapSeqConcat<A, B>(xs: seq<A>, ys: seq<A>, f: A -> B)
    ensures MapSeq(xs + ys, f) == MapSeq(xs, f) + MapSeq(ys, f)
  {
  }

  /** An optional value as a list of at most one element. */
  function Opt<T>(o: Option<T>): (r: seq<T>)
    ensures |r| <= 1
  {
    if o.Some? then [o.value] else []
  }

  /** What `f` gives for each element it gives something for, in order. */
  function Somes<A, B>(xs: seq<A>, f: A -> Option<B>): (ys: seq<B>)
    ensures |ys| <= |xs|
  {
    if xs == [] then [] else Opt(f(xs[0])) + Somes(xs[1..], f)
  }

  lemma {:induction false} SomesCons<A, B>(x: A, xs: seq<A>, f: A -> Option<B>)
    ensures Somes([x] + xs, f) == Opt(f(x)) + Somes(xs, f)
  {
    assert ([x] + xs)[1..] == xs;
  }

  lemma {:induction false} SomesThree<A, B>(a: A, b: A, c: A, f: A -> Option<B>)
    ensures Somes([a, b, c], f) == Opt(f(a)) + Opt(f(b)) + Opt(f(c))
  {
    var k3 := [c];
    var k2 := [b] + k3;
    assert [a, b, c] == [a] + k2;
    SomesCons(a, k2, f);
    SomesCons(b, k3, f);
    SomesCons(c, [], f);
    assert [c] + [] == k3;
    var oa, ob, oc := Opt(f(a)), Opt(f(b)), Opt(f(c));
    assert oa + (ob + (oc + [])) == oa + ob + oc;
  }

  /** Five lists joined from the right are the same five joined from the left. */
  lemma {:induction false} JoinFive<T>(a: seq<T>, b: seq<T>, c: seq<T>, d: seq<T>, e: seq<T>)
    ensures a + (b + (c + (d + (e + [])))) == a + b + c + d + e
  {
    assert e + [] == e;
  }

  /** `if (o) list.push(o)`: the list grows by the optional value. */
  lemma {:induction false} Pushed<T>(before: seq<T>, o: Option<T>, after: seq<T>)
    requires after == if o.Some? then before + [o.value] else before
    ensures after == before + Opt(o)
  {
    if o.None? {
      assert before + [] == before;
    }
  }

  /** The elements `f` gives something for, in order. */
  function Which<A, B>(xs: seq<A>, f: A -> Option<B>): (ws: seq<A>)
    ensures |ws| <= |xs| && forall i :: 0 <= i < |ws| ==> ws[i] in xs
  {
    if xs == [] then [] else (if f(xs[0]).Some? then [xs[0]] else []) + Which(xs[1..], f)
  }

  /** The results are those of the elements kept, one each, and an element is kept exactly when `f` gives something. */
  lemma {:induction false} SomesWhich<A, B>(xs: seq<A>, f: A -> Option<B>)
    ensures var ys := Somes(xs, f); var ws := Which(xs, f);
      |ys| == |ws|
      && (forall i :: 0 <= i < |ws| ==> f(ws[i]) == Some(ys[i]))
      && (forall x :: x in xs ==> (x in ws <==> f(x).Some?))
  {
    SomesPaired(xs, f);
    WhichKeeps(xs, f);
  }

  /** The `i`-th result is what `f` gives the `i`-th element kept. */
  lemma {:induction false} SomesPaired<A, B>(xs: seq<A>, f: A -> Option<B>)
    decreases |xs|
    ensures var ys := Somes(xs, f); var ws := Which(xs, f);
      |ys| == |ws| && forall i :: 0 <= i < |ws| ==> f(ws[i]) == Some(ys[i])
  {
    if xs != [] {
      var rest := xs[1..];
      SomesPaired(rest, f);
      if f(xs[0]).Some? {
        KeptStep(xs, f, Somes(rest, f), Which(rest, f));
        PairedCons(xs[0], f(xs[0]).value, Somes(rest, f), Which(rest, f), f);
      } else {
        SkippedStep(xs, f, Somes(rest, f), Which(rest, f));
      }
    }
  }

  /** A first element `f` gives something for heads both the results and the elements kept. */
  lemma {:induction false} KeptStep<A, B>(xs: seq<A>, f: A -> Option<B>, ys: seq<B>, ws: seq<A>)
    requires xs != [] && f(xs[0]).Some? && ys == Somes(xs[1..], f) && ws == Which(xs[1..], f)
    ensures Somes(xs, f) == [f(xs[0]).value] + ys && Which(xs, f) == [xs[0]] + ws
  {
  }

  /** A first element `f` gives nothing for adds to neither. */
  lemma {:induction false} SkippedStep<A, B>(xs: seq<A>, f: A -> Option<B>, ys: seq<B>, ws: seq<A>)
    requires xs != [] && f(xs[0]).None? && ys == Somes(xs[1..], f) && ws == Which(xs[1..], f)
    ensures Somes(xs, f) == ys && Which(xs, f) == ws
  {
    assert [] + ys == ys && [] + ws == ws;
  }

  lemma {:induction false} PairedCons<A, B>(x: A, y: B, ys: seq<B>, ws: seq<A>, f: A -> Option<B>)
    requires f(x) == Some(y) && |ys| == |ws| && forall i :: 0 <= i < |ws| ==> f(ws[i]) == Some(ys[i])
    ensures |[y] + ys| == |[x] + ws| && forall i :: 0 <= i < |[x] + ws| ==> f(([x] + ws)[i]) == Some(([y] + ys)[i])
  {
    forall i | 0 <= i < |[x] + ws| ensures f(([x] + ws)[i]) == Some(([y] + ys)[i]) {
      if i > 0 {
        assert ([x] + ws)[i] == ws[i - 1] && ([y] + ys)[i] == ys[i - 1];
      }
    }
  }

  /** An element is kept exactly when `f` gives something for it. */
  lemma {:induction false} WhichKeeps<A, B>(xs: seq<A>, f: A -> Option<B>)
    decreases |xs|
    ensures forall x :: x in xs ==> (x in Which(xs, f) <==> f(x).Some?)
  {
    if xs != [] {
      var rest := xs[1..];
      WhichKeeps(rest, f);
      var ws, ws' := Which(xs, f), Which(rest, f);
      assert ws == (if f(xs[0]).Some? then [xs[0]] else []) + ws';
      forall x | x in xs ensures x in ws <==> f(x).Some? {
        if x != xs[0] {
          assert x in rest;
        } else if x in ws' {
          assert x in rest;
        }
      }
    }
  }

  /** The elements of `xs` strictly increase in `rank`. */
  ghost predicate Ranked<A>(xs: seq<A>, rank: A -> int)
  {
    forall i, j :: 0 <= i < j < |xs| ==> rank(xs[i]) < rank(xs[j])
  }

  /** The elements kept stay in the order of a ranking that the input follows. */
  lemma {:induction false} WhichOrdered<A, B>(xs: seq<A>, f: A -> Option<B>, rank: A -> int)
    requires forall i, j :: 0 <= i < j < |xs| ==> rank(xs[i]) < rank(xs[j])
    decreases |xs|
    ensures forall i, j :: 0 <= i < j < |Which(xs, f)| ==> rank(Which(xs, f)[i]) < rank(Which(xs, f)[j])
  {
    WhichRanked(xs, f, rank);
  }

  lemma {:induction false} WhichRanked<A, B>(xs: seq<A>, f: A -> Option<B>, rank: A -> int)
    requires Ranked(xs, rank)
    decreases |xs|
    ensures Ranked(Which(xs, f), rank)
  {
    if xs != [] {
      var rest := xs[1..];
      RankedTail(xs, rest, rank);
      WhichRanked(rest, f, rank);
      var tail := Which(rest, f);
      HeadBelow(xs, rest, tail, rank);
      if f(xs[0]).Some? {
        assert Which(xs, f) == [xs[0]] + tail;
        RankedCons(xs[0], tail, rank);
      } else {
        assert Which(xs, f) == tail;
      }
    }
  }

  lemma {:induction false} RankedTail<A>(xs: seq<A>, rest: seq<A>, rank: A -> int)
    requires Ranked(xs, rank) && xs != [] && rest == xs[1..]
    ensures Ranked(rest, rank)
  {
    forall i, j | 0 <= i < j < |rest| ensures rank(rest[i]) < rank(rest[j]) {
      assert rest[i] == xs[i + 1] && rest[j] == xs[j + 1];
    }
  }

  lemma {:induction false} HeadBelow<A>(xs: seq<A>, rest: seq<A>, tail: seq<A>, rank: A -> int)
    requires Ranked(xs, rank) && xs != [] && rest == xs[1..]
    requires forall j :: 0 <= j < |tail| ==> tail[j] in rest
    ensures forall j :: 0 <= j < |tail| ==> rank(xs[0]) < rank(tail[j])
  {
    forall j | 0 <= j < |tail| ensures rank(xs[0]) < rank(tail[j]) {
      var m :| 0 <= m < |rest| && rest[m] == tail[j];
      assert xs[m + 1] == tail[j];
    }
  }

  lemma {:induction false} RankedCons<A>(x: A, tail: seq<A>, rank: A -> int)
    requires Ranked(tail, rank)
    requires forall j :: 0 <= j < |tail| ==> rank(x) < rank(tail[j])
    ensures Ranked([x] + tail, rank)
  {
    var ws := [x] + tail;
    forall i, j | 0 <= i < j < |ws| ensures rank(ws[i]) < rank(ws[j]) {
      assert ws[j] == tail[j - 1];
      if i > 0 {
        assert ws[i] == tail[i - 1];
      }
    }
  }

  /** Python's `t.split(sep)` for a non-empty separator: the pieces between its non-overlapping occurrences, left to right. */
  function Split(t: String, sep: String): (parts: seq<String>)
    requires |sep| > 0
    decreases |t|
    ensures |parts| > 0
  {
    match Find(t, sep, 0, false)
    case None => [t]
    case Some(i) => [t[..i]] + Split(t[i + |sep|..], sep)
  }

  lemma {:induction false} JoinCons(part: String, parts: seq<String>, sep: String)
    requires |parts| > 0
    ensures Join([part] + parts, sep) == part + sep + Join(parts, sep)
  {
    assert ([part] + parts)[1..] == parts;
  }

  /** Joining the pieces with the separator gives the text back. */
  lemma {:induction false} JoinSplit(t: String, sep: String)
    requires |sep| > 0
    decreases |t|
    ensures Join(Split(t, sep), sep) == t
  {
    match Find(t, sep, 0, false)
    case None =>
    case Some(i) =>
      var rest := t[i + |sep|..];
      JoinSplit(rest, sep);
      JoinCons(t[..i], Split(rest, sep), sep);
      assert t[i..i + |sep|] == sep;
      assert t == t[..i] + t[i..i + |sep|] + rest;
  }

  /** The search finds an occurrence at `k` when there is none before it. */
  lemma {:induction false} FindAt(t: String, w: String, i: nat, k: nat, ci: bool)
    requires i <= k && OccursAt(t, k, w, ci)
    requires forall j :: i <= j < k ==> !OccursAt(t, j, w, ci)
    decreases k - i
    ensures Find(t, w, i, ci) == Some(k)
  {
    if i < k {
      FindAt(t, w, i + 1, k, ci);
    }
  }

  /** The text holds no `c`. */
  predicate Lacks(s: String, c: char)
  {
    forall j :: 0 <= j < |s| ==> s[j] != c
  }

  lemma {:induction false} FirstOccurrence(t: String, p: String, c: char)
    requires Lacks(p, c) && |p| <= |t| && t[..|p|] == p
    ensures forall j :: 0 <= j < |p| ==> !OccursAt(t, j, [c], false)
  {
    forall j | 0 <= j < |p| ensures !OccursAt(t, j, [c], false) {
      assert t[j] == p[j];
      assert !SameChar(t[j + 0], [c][0], false);
    }
  }

  /** The first piece of a text that starts with a piece lacking the separator is that piece. */
  lemma {:induction false} SplitHead(h: String, rest: seq<String>, c: char)
    requires Lacks(h, c)
    ensures Split(Join([h] + rest, [c]), [c])[0] == h
  {
    var t := Join([h] + rest, [c]);
    if |rest| == 0 {
      assert t == h;
      FirstOccurrence(t, h, c);
      assert !Contains(t, [c], false);
      FindMissing(t, [c], 0, false);
    } else {
      JoinCons(h, rest, [c]);
      assert t[..|h|] == h;
      FirstOccurrence(t, h, c);
      FindAt(t, [c], 0, |h|, false);
    }
  }

  /** Splitting pieces joined by a one-character separator they do not hold gives the pieces back. */
  lemma {:induction false} SplitJoin(parts: seq<String>, c: char)
    requires |parts| > 0 && forall k :: 0 <= k < |parts| ==> Lacks(parts[k], c)
    decreases |parts|
    ensures Split(Join(parts, [c]), [c]) == parts
  {
    if |parts| == 1 {
      SplitSingle(parts[0], c);
      assert [parts[0]] == parts;
    } else {
      var rest := parts[1..];
      SplitJoin(rest, c);
      assert [parts[0]] + rest == parts;
      SplitCons(parts[0], rest, c);
    }
  }

  /** A piece without the separator splits into itself alone. */
  lemma {:induction false} SplitSingle(h: String, c: char)
    requires Lacks(h, c)
    ensures Split(Join([h], [c]), [c]) == [h]
  {
    var t := Join([h], [c]);
    assert t == h;
    FirstOccurrence(t, h, c);
    assert !Contains(t, [c], false);
    FindMissing(t, [c], 0, false);
  }

  /** Splitting a piece without the separator, the separator and more gives the piece, then the split of the rest. */
  lemma {:induction false} SplitCons(h: String, rest: seq<String>, c: char)
    requires Lacks(h, c) && |rest| > 0
    ensures Split(Join([h] + rest, [c]), [c]) == [h] + Split(Join(rest, [c]), [c])
  {
    var t := Join([h] + rest, [c]);
    JoinCons(h, rest, [c]);
    var n := |h|;
    assert t[..n] == h;
    assert t[n + 1..] == Join(rest, [c]);
    FirstOccurrence(t, h, c);
    FindAt(t, [c], 0, n, false);
  }
}

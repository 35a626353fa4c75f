/**
 * Decimal amounts: digit strings, Python's int() on a comma-free digit string,
 * str(n), and the thousands grouping of the `{:,}` format specification.
 */
module Numbers {
  import opened Text

  function DigitValue(c: char): nat
    requires IsDigit(c)
  {
    c as int - '0' as int
  }

  function DigitChar(n: nat): (c: char)
    requires n < 10
    ensures IsDigit(c) && DigitValue(c) == n
  {
    ('0' as int + n) as char
  }

  /** The value of a string of decimal digits, leading zeros allowed. */
  function DigitsValue(s: String): nat
    requires AllIn(s, Digit)
  {
    if s == [] then 0 else DigitsValue(s[..|s| - 1]) * 10 + DigitValue(s[|s| - 1])
  }

  /** str(n): the decimal digits of `n` without a leading zero. */
  function Decimal(n: nat): (s: String)
    ensures |s| > 0 && AllIn(s, Digit) && DigitsValue(s) == n
    ensures |s| > 1 ==> s[0] != '0'
  {
    if n < 10 then [DigitChar(n)]
    else
      var s := Decimal(n / 10) + [DigitChar(n % 10)];
      assert s[..|s| - 1] == Decimal(n / 10);
      s
  }

  /** `s.replace(',', '')`. */
  function RemoveCommas(s: String): (r: String)
    ensures forall i :: 0 <= i < |r| ==> r[i] != ','
    ensures |r| <= |s|
  {
    if s == [] then [] else (if s[0] == ',' then [] else [s[0]]) + RemoveCommas(s[1..])
  }

  lemma {:induction false} RemoveCommasAppend(a: String, b: String)
    ensures RemoveCommas(a + b) == RemoveCommas(a) + RemoveCommas(b)
  {
    if a == [] {
      assert a + b == b;
    } else {
      assert (a + b)[1..] == a[1..] + b;
      RemoveCommasAppend(a[1..], b);
    }
  }

  lemma {:induction false} RemoveCommasOfDigits(s: String)
    requires AllIn(s, DigitOrComma)
    ensures AllIn(RemoveCommas(s), Digit)
  {
    if s != [] {
      RemoveCommasOfDigits(s[1..]);
    }
  }

  lemma {:induction false} RemoveCommasNone(s: String)
    requires forall i :: 0 <= i < |s| ==> s[i] != ','
    ensures RemoveCommas(s) == s
  {
    if s != [] {
      RemoveCommasNone(s[1..]);
    }
  }

  /** Python's int() applied to a string over `[0-9]`: it fails (ValueError) on the empty string. */
  function ParseInt(s: String): (r: Option<nat>)
    ensures r.Some? <==> s != [] && AllIn(s, Digit)
  {
    if s != [] && AllIn(s, Digit) then Some(DigitsValue(s)) else None
  }

  /** Digits grouped by commas every three places from the right. */
  predicate Grouped(r: String)
    decreases |r|
  {
    if |r| <= 3 then |r| >= 1 && AllIn(r, Digit)
    else |r| >= 5 && r[|r| - 4] == ',' && AllIn(r[|r| - 3..], Digit) && Grouped(r[..|r| - 4])
  }

  /** Inserts a comma before every group of three digits counted from the right. */
  function Group(ds: String): (r: String)
    requires |ds| > 0 && AllIn(ds, Digit)
    decreases |ds|
    ensures Grouped(r)
    ensures RemoveCommas(r) == ds
  {
    if |ds| <= 3 then
      RemoveCommasNone(ds);
      ds
    else
      var head := Group(ds[..|ds| - 3]);
      GroupStep(ds, head);
      head + [','] + ds[|ds| - 3..]
  }

  lemma {:induction false} GroupStep(ds: String, head: String)
    requires |ds| > 3 && AllIn(ds, Digit)
    requires Grouped(head) && RemoveCommas(head) == ds[..|ds| - 3]
    ensures Grouped(head + [','] + ds[|ds| - 3..])
    ensures RemoveCommas(head + [','] + ds[|ds| - 3..]) == ds
  {
    var tail := ds[|ds| - 3..];
    GroupedStep(head, tail);
    UngroupStep(ds, head, tail);
  }

  /** A grouped head, a comma and three digits are grouped. */
  lemma {:induction false} GroupedStep(head: String, tail: String)
    requires Grouped(head) && |tail| == 3 && AllIn(tail, Digit)
    ensures Grouped(head + [','] + tail)
  {
    var r := head + [','] + tail;
    assert |head| >= 1;
    assert r[..|r| - 4] == head;
    assert r[|r| - 3..] == tail;
    assert r[|r| - 4] == ',';
  }

  /** Removing the commas of a head, a comma and the last three digits gives the digits back. */
  lemma {:induction false} UngroupStep(ds: String, head: String, tail: String)
    requires |ds| > 3 && tail == ds[|ds| - 3..] && AllIn(tail, Digit) && RemoveCommas(head) == ds[..|ds| - 3]
    ensures RemoveCommas(head + [','] + tail) == ds
  {
    var hc := head + [','];
    CommaDropped(head, hc);
    DigitsKeep(tail);
    RemoveCommasAppend(hc, tail);
    assert RemoveCommas(head) + tail == ds;
  }

  lemma {:induction false} CommaDropped(head: String, hc: String)
    requires hc == head + [',']
    ensures RemoveCommas(hc) == RemoveCommas(head)
  {
    RemoveCommasAppend(head, [',']);
    assert RemoveCommas([',']) == [] by {
      assert [','][1..] == [];
    }
    assert RemoveCommas(head) + [] == RemoveCommas(head);
  }

  /** Digits hold no comma to remove. */
  lemma {:induction false} DigitsKeep(s: String)
    requires AllIn(s, Digit)
    ensures RemoveCommas(s) == s
  {
    forall i | 0 <= i < |s| ensures s[i] != ',' {
      assert InClass(s[i], Digit);
    }
    RemoveCommasNone(s);
  }

  /**
   * `f"{n:,}"` for a non-negative integer: grouped digits which, without their commas,
   * are exactly `str(n)` (so no leading zero), and which read back as `n`.
   */
  function FormatThousands(n: nat): (r: String)
    ensures Grouped(r)
    ensures RemoveCommas(r) == Decimal(n)
    ensures ParseInt(RemoveCommas(r)) == Some(n)
  {
    Group(Decimal(n))
  }
}

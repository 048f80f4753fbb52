/**
 SortFields: every field's values are brought into menu order, and the fonts' indexes into them follow.
 No value changes, and every font still names the value it has.
 */
module SortedFields {
  import opened Common
  import opened XlfdName
  import opened FontIndex
  import Decimal

  // ---------------------------------------------------------------------------------------
  // The two comparison functions
  // ---------------------------------------------------------------------------------------

  /** strcmp: the sign of the first difference. */
  function StrCmp(a: string, b: string): int {
    if a == "" && b == "" then 0
    else if a == "" then -1
    else if b == "" then 1
    else if a[0] != b[0] then (a[0] as int) - (b[0] as int)
    else StrCmp(a[1..], b[1..])
  }

  function SkipBlanks(s: string): string {
    if s != "" && IsSpace(s[0]) then SkipBlanks(s[1..]) else s
  }

  function Digits(s: string, acc: int): int {
    if s != "" && '0' <= s[0] <= '9' then Digits(s[1..], acc * 10 + (s[0] as int - '0' as int)) else acc
  }

  function Atoi(s: string): int {
    var t := SkipBlanks(s);
    if t != "" && t[0] == '-' then -Digits(t[1..], 0)
    else if t != "" && t[0] == '+' then Digits(t[1..], 0)
    else Digits(t, 0)
  }

  const ANY: Option<string> := Some("*")

  /** AlphabeticSort and NumericSort: "*" first, then the empty value, then the rest. */
  function Compare(a: FieldValue, b: FieldValue, numeric: bool): int {
    if a.str == ANY then -1
    else if b.str == ANY then 1
    else if a.str == None then -1
    else if b.str == None then 1
    else if numeric then Atoi(a.str.value) - Atoi(b.str.value)
    else StrCmp(a.str.value, b.str.value)
  }

  predicate InOrder(a: FieldValue, b: FieldValue, numeric: bool) {
    Compare(a, b, numeric) <= 0
  }

  ghost predicate Sorted(vals: seq<FieldValue>, numeric: bool) {
    forall i, j :: 0 <= i < j < |vals| ==> InOrder(vals[i], vals[j], numeric)
  }

  lemma {:induction false} StrCmpOrder(a: string, b: string, c: string)
    ensures StrCmp(a, b) <= 0 || StrCmp(b, a) <= 0
    ensures StrCmp(a, b) <= 0 && StrCmp(b, c) <= 0 ==> StrCmp(a, c) <= 0
  {
    if a == "" || b == "" || c == "" {
      if a != "" && b != "" && a[0] == b[0] {
        StrCmpOrder(a[1..], b[1..], "");
      }
    } else {
      StrCmpOrder(a[1..], b[1..], c[1..]);
    }
  }

  /** Both comparison functions are total preorders on field values. */
  lemma CompareOrder(a: FieldValue, b: FieldValue, c: FieldValue, numeric: bool)
    ensures InOrder(a, b, numeric) || InOrder(b, a, numeric)
    ensures InOrder(a, b, numeric) && InOrder(b, c, numeric) ==> InOrder(a, c, numeric)
  {
    if a.str.Some? && b.str.Some? && c.str.Some? {
      StrCmpOrder(a.str.value, b.str.value, c.str.value);
    } else if a.str.Some? && b.str.Some? {
      StrCmpOrder(a.str.value, b.str.value, "");
    }
  }

  // ---------------------------------------------------------------------------------------
  // What the order is, without the comparison functions
  // ---------------------------------------------------------------------------------------

  /** The first difference is at k, and a has the smaller character there. */
  predicate SmallerAt(a: string, b: string, k: nat) {
    k < |a| && k < |b| && a[..k] == b[..k] && a[k] < b[k]
  }

  lemma SmallerBehind(a: string, b: string, k: nat)
    requires a != "" && b != "" && a[0] == b[0]
    ensures SmallerAt(a, b, k + 1) <==> SmallerAt(a[1..], b[1..], k)
  {
    if k < |a| - 1 && k < |b| - 1 {
      assert a[..k + 1] == [a[0]] + a[1..][..k] && b[..k + 1] == [b[0]] + b[1..][..k];
      assert a[..k + 1][1..] == a[1..][..k] && b[..k + 1][1..] == b[1..][..k];
    }
  }

  /** strcmp puts a string before the other exactly when it is the other's beginning or has the smaller character at
      the first difference. */
  lemma {:induction false} StrCmpIs(a: string, b: string)
    ensures StrCmp(a, b) <= 0 <==> a <= b || exists k: nat :: SmallerAt(a, b, k)
  {
    if a == "" || b == "" {
    } else if a[0] != b[0] {
      assert a[..0] == b[..0];
      if a[0] < b[0] {
        assert SmallerAt(a, b, 0);
      }
      forall k: nat | SmallerAt(a, b, k) ensures a[0] < b[0] {
        assert k > 0 ==> a[..k][0] == b[..k][0];
      }
    } else {
      StrCmpIs(a[1..], b[1..]);
      assert a == [a[0]] + a[1..] && b == [b[0]] + b[1..];
      if k: nat :| SmallerAt(a[1..], b[1..], k) {
        SmallerBehind(a, b, k);
      }
      if k: nat :| SmallerAt(a, b, k) {
        SmallerBehind(a, b, k - 1);
      }
    }
  }

  lemma {:induction false} BlanksSkipped(blanks: string, s: string)
    requires (forall i :: 0 <= i < |blanks| ==> IsSpace(blanks[i])) && (s == "" || !IsSpace(s[0]))
    ensures SkipBlanks(blanks + s) == s
  {
    if blanks == "" {
      assert blanks + s == s;
    } else {
      assert (blanks + s)[1..] == blanks[1..] + s;
      BlanksSkipped(blanks[1..], s);
    }
  }

  lemma {:induction false} DigitsValue(front: string, digits: string, rest: string)
    requires Decimal.AllDigits(front + digits) && Decimal.AllDigits(front)
    requires rest == "" || !Decimal.IsDigit(rest[0])
    ensures Digits(digits + rest, Decimal.Value(front)) == Decimal.Value(front + digits)
    decreases |digits|
  {
    if digits == "" {
      assert digits + rest == rest && front + digits == front;
    } else {
      assert (front + digits)[|front|] == digits[0];
      var front', digits' := front + [digits[0]], digits[1..];
      assert front' + digits' == front + digits && front'[..|front|] == front;
      assert (digits + rest)[0] == digits[0] && (digits + rest)[1..] == digits' + rest;
      DigitsValue(front', digits', rest);
    }
  }

  /** atoi reads a number behind blanks and a sign, up to the first character that is no digit. */
  lemma AtoiReads(blanks: string, sign: string, digits: string, rest: string)
    requires forall i :: 0 <= i < |blanks| ==> IsSpace(blanks[i])
    requires (sign == "" || sign == "-" || sign == "+") && Decimal.AllDigits(digits)
    requires rest == "" || !Decimal.IsDigit(rest[0])
    requires sign == "" && digits == "" ==> rest == "" || (!IsSpace(rest[0]) && rest[0] != '-' && rest[0] != '+')
    ensures Atoi(blanks + (sign + (digits + rest))) ==
      if sign == "-" then -(Decimal.Value(digits) as int) else Decimal.Value(digits)
  {
    var number := digits + rest;
    BlanksSkipped(blanks, sign + number);
    assert "" + digits == digits;
    DigitsValue("", digits, rest);
    assert sign == "" ==> sign + number == number;
    assert sign != "" ==> (sign + number)[1..] == number;
    assert digits != "" ==> number[0] == digits[0];
  }

  lemma AtoiDigits(digits: string)
    requires Decimal.AllDigits(digits)
    ensures Atoi(digits) == Decimal.Value(digits)
  {
    AtoiReads("", "", digits, "");
    assert "" + ("" + (digits + "")) == digits;
  }

  /** The menu of a field: "*" first, then the null string; sizes that are numbers by their value; in the fields that
      are no sizes, a string before those that begin with it or that have the greater character at the first
      difference. */
  lemma MenuSequence(vals: seq<FieldValue>, f: nat, i: nat, j: nat)
    requires f < FIELD_COUNT && Sorted(vals, Scales(f)) && i < j < |vals|
    ensures vals[j].str == Some("*") ==> vals[i].str == Some("*")
    ensures vals[j].str == None ==> vals[i].str == None || vals[i].str == Some("*")
    ensures vals[i].str.Some? && vals[j].str.Some? && "*" !in [vals[i].str.value, vals[j].str.value] ==>
      var a, b := vals[i].str.value, vals[j].str.value;
      if f == 6 || f == 7 || f == 8 || f == 9 || f == 11
      then Decimal.AllDigits(a) && Decimal.AllDigits(b) ==> Decimal.Value(a) <= Decimal.Value(b)
      else a <= b || exists k: nat :: SmallerAt(a, b, k)
  {
    assert InOrder(vals[i], vals[j], Scales(f));
    if vals[i].str.Some? && vals[j].str.Some? {
      var a, b := vals[i].str.value, vals[j].str.value;
      StrCmpIs(a, b);
      if Decimal.AllDigits(a) {
        AtoiDigits(a);
      }
      if Decimal.AllDigits(b) {
        AtoiDigits(b);
      }
    }
  }

  // ---------------------------------------------------------------------------------------
  // qsort: some permutation in comparator order
  // ---------------------------------------------------------------------------------------

  method QSort(vals: seq<FieldValue>, numeric: bool) returns (r: seq<FieldValue>)
    ensures multiset(r) == multiset(vals) && Sorted(r, numeric)
  {
    r := [];
    for i := 0 to |vals|
      invariant multiset(r) == multiset(vals[..i]) && Sorted(r, numeric)
    {
      r := InsertSorted(r, vals[i], numeric);
      assert vals[..i + 1] == vals[..i] + [vals[i]];
    }
    assert vals[..|vals|] == vals;
  }

  lemma InsertedSorted(a: seq<FieldValue>, v: FieldValue, b: seq<FieldValue>, numeric: bool)
    requires Sorted(a + b, numeric)
    requires forall i :: 0 <= i < |a| ==> InOrder(a[i], v, numeric)
    requires forall i :: 0 <= i < |b| ==> InOrder(v, b[i], numeric)
    ensures Sorted(a + [v] + b, numeric)
  {
    var r, r' := a + b, a + [v] + b;
    forall i, j | 0 <= i < j < |r'| ensures InOrder(r'[i], r'[j], numeric) {
      var i', j' := if i < |a| then i else i - 1, if j < |a| then j else j - 1;
      if i != |a| && j != |a| {
        assert r'[i] == r[i'] && r'[j] == r[j'];
      }
    }
  }

  method InsertSorted(r: seq<FieldValue>, v: FieldValue, numeric: bool) returns (r': seq<FieldValue>)
    requires Sorted(r, numeric)
    ensures multiset(r') == multiset(r) + multiset{v} && Sorted(r', numeric)
  {
    hide InOrder;
    var n: nat := |r|;
    while n > 0 && !InOrder(r[n - 1], v, numeric)
      invariant n <= |r|
      invariant forall i :: n <= i < |r| ==> InOrder(v, r[i], numeric)
    {
      CompareOrder(r[n - 1], v, v, numeric);
      n := n - 1;
    }
    forall i | 0 <= i < n ensures InOrder(r[i], v, numeric) {
      CompareOrder(r[i], r[n - 1], v, numeric);
    }
    assert r == r[..n] + r[n..];
    InsertedSorted(r[..n], v, r[n..], numeric);
    r' := r[..n] + [v] + r[n..];
  }

  // ---------------------------------------------------------------------------------------
  // The permutation
  // ---------------------------------------------------------------------------------------

  lemma {:induction false} DistinctCounts<T>(s: seq<T>, x: T)
    requires Distinct(s)
    ensures multiset(s)[x] <= 1
  {
    if s != [] {
      assert s == s[..|s| - 1] + [s[|s| - 1]];
      DistinctCounts(s[..|s| - 1], x);
      assert s[|s| - 1] !in s[..|s| - 1];
    }
  }

  lemma PermutedDistinct<T>(a: seq<T>, b: seq<T>)
    requires Distinct(a) && multiset(a) == multiset(b)
    ensures Distinct(b) && |a| == |b| && (forall x :: x in a <==> x in b)
  {
    assert |multiset(a)| == |a| && |multiset(b)| == |b|;
    forall x ensures x in a <==> x in b {
      assert x in a <==> x in multiset(a);
      assert x in b <==> x in multiset(b);
    }
    forall i, j | 0 <= i < j < |b| ensures b[i] != b[j] {
      if b[i] == b[j] {
        var head, tail := b[..j], b[j..];
        assert b == head + tail && head[i] == b[i] && tail[0] == b[j];
        assert multiset(head)[b[i]] >= 1 && multiset(tail)[b[i]] >= 1;
        DistinctCounts(a, b[i]);
      }
    }
  }

  /** `to` is a permutation of positions under which the values of `vals` stand in `vals'`. */
  ghost predicate Permuted(vals: seq<FieldValue>, vals': seq<FieldValue>, to: seq<int>) {
    && |vals| == |vals'| == |to| && Distinct(to)
    && (forall m :: 0 <= m < |vals| ==> 0 <= to[m] < |vals'| && vals'[to[m]] == vals[m])
  }

  /** Every position is the image of one. */
  lemma Covered(to: seq<int>, j: nat)
    requires Distinct(to) && (forall m :: 0 <= m < |to| ==> 0 <= to[m] < |to|) && j < |to|
    ensures exists m :: 0 <= m < |to| && to[m] == j
  {
    if forall m :: 0 <= m < |to| ==> to[m] != j {
      var others: set<int> := UpTo(|to|) - {j};
      DistinctFits(to, others);
    }
  }

  lemma PermutedValues(vals: seq<FieldValue>, vals': seq<FieldValue>, to: seq<int>, f: nat, rows: seq<Row>,
      scaled: bool)
    requires Permuted(vals, vals', to) && Rows(rows) && f < FIELD_COUNT && DistinctValues(vals)
    requires forall j :: 0 <= j < |vals| ==> ValueOk(vals[j], f, rows, scaled)
    ensures DistinctValues(vals')
    ensures forall j :: 0 <= j < |vals'| ==> ValueOk(vals'[j], f, rows, scaled)
  {
    forall j | 0 <= j < |vals'| ensures ValueOk(vals'[j], f, rows, scaled) {
      Covered(to, j);
      var m :| 0 <= m < |to| && to[m] == j;
      assert ValueOk(vals[m], f, rows, scaled);
    }
    forall i, j | 0 <= i < j < |vals'| ensures vals'[i].str != vals'[j].str {
      Covered(to, i);
      Covered(to, j);
      var m :| 0 <= m < |to| && to[m] == i;
      var n :| 0 <= n < |to| && to[n] == j;
      assert vals'[to[m]] == vals[m] && vals'[to[n]] == vals[n];
    }
  }

  /** The fonts' entries in field f, sent through the permutation. */
  ghost predicate Redirected(fonts: seq<seq<int>>, fonts': seq<seq<int>>, f: nat, to: seq<int>, n: nat)
    requires f < FIELD_COUNT
  {
    && |fonts| == |fonts'| && n <= |fonts| && Table(fonts) && Table(fonts')
    && (forall k, g :: 0 <= k < |fonts| && 0 <= g < FIELD_COUNT && (g != f || k >= n) ==> fonts'[k][g] == fonts[k][g])
    && (forall k :: 0 <= k < n ==> 0 <= fonts[k][f] < |to| && fonts'[k][f] == to[fonts[k][f]])
  }

  lemma SortedFieldOk(vals: seq<FieldValue>, vals': seq<FieldValue>, to: seq<int>, f: nat, rows: seq<Row>,
                      fonts: seq<seq<int>>, fonts': seq<seq<int>>, scaled: bool)
    requires FieldOk(vals, f, rows, fonts, scaled) && Permuted(vals, vals', to)
    requires Redirected(fonts, fonts', f, to, |rows|)
    ensures FieldOk(vals', f, rows, fonts', scaled)
  {
    PermutedValues(vals, vals', to, f, rows, scaled);
    forall k | 0 <= k < |rows| ensures EntryOk(vals', f, rows[k], fonts'[k][f]) {
      assert EntryOk(vals, f, rows[k], fonts[k][f]);
    }
  }

  lemma OtherSortedFieldOk(vals: seq<FieldValue>, g: nat, f: nat, to: seq<int>, rows: seq<Row>,
                           fonts: seq<seq<int>>, fonts': seq<seq<int>>, scaled: bool)
    requires FieldOk(vals, g, rows, fonts, scaled) && g != f && f < FIELD_COUNT
    requires Redirected(fonts, fonts', f, to, |rows|)
    ensures FieldOk(vals, g, rows, fonts', scaled)
  {
    forall k | 0 <= k < |rows| ensures EntryOk(vals, g, rows[k], fonts'[k][g]) {
      assert EntryOk(vals, g, rows[k], fonts[k][g]);
    }
  }

  lemma MarksDiffer(marked: seq<FieldValue>, qsorted: seq<FieldValue>)
    requires forall m :: 0 <= m < |marked| ==> marked[m].field == m
    requires Distinct(qsorted) && (forall x :: x in marked <==> x in qsorted)
    ensures forall i :: 0 <= i < |qsorted| ==>
      0 <= qsorted[i].field < |marked| && qsorted[i] == marked[qsorted[i].field]
    ensures forall i, j :: 0 <= i < j < |qsorted| ==> qsorted[i].field != qsorted[j].field
  {
    forall i | 0 <= i < |qsorted|
      ensures 0 <= qsorted[i].field < |marked| && qsorted[i] == marked[qsorted[i].field]
    {
      assert qsorted[i] in qsorted && qsorted[i] in marked;
    }
  }

  /** The positions carried along tell where each value has gone. */
  lemma SortedBack(vals: seq<FieldValue>, marked: seq<FieldValue>, qsorted: seq<FieldValue>, sorted: seq<FieldValue>,
                   indexes: seq<int>, f: nat, numeric: bool)
    requires |marked| == |vals| == |indexes| == |sorted| == |qsorted| && Sorted(qsorted, numeric)
    requires forall m :: 0 <= m < |vals| ==> vals[m].field == f && marked[m] == vals[m].(field := m)
    requires forall x :: x in marked ==> x in qsorted
    requires forall i :: 0 <= i < |sorted| ==> sorted[i] == qsorted[i].(field := f)
    requires forall i :: 0 <= i < |sorted| ==> 0 <= qsorted[i].field < |vals| && indexes[qsorted[i].field] == i
    ensures Permuted(vals, sorted, indexes) && Sorted(sorted, numeric)
  {
    forall m | 0 <= m < |vals| ensures 0 <= indexes[m] < |sorted| && sorted[indexes[m]] == vals[m] {
      assert marked[m] in marked && marked[m] in qsorted;
      var i :| 0 <= i < |qsorted| && qsorted[i] == marked[m];
    }
    forall i, j | 0 <= i < j < |sorted| ensures InOrder(sorted[i], sorted[j], numeric) {
      assert InOrder(qsorted[i], qsorted[j], numeric);
    }
    forall m, n | 0 <= m < n < |vals| ensures indexes[m] != indexes[n] {
      assert marked[m] in marked && marked[m] in qsorted;
      assert marked[n] in marked && marked[n] in qsorted;
    }
  }

  /** The `field` component carries each value's old position through the sort and is restored afterwards. */
  method SortValues(vals: seq<FieldValue>, f: nat, numeric: bool) returns (sorted: seq<FieldValue>, indexes: array<int>)
    requires forall j :: 0 <= j < |vals| ==> vals[j].field == f
    ensures fresh(indexes) && Permuted(vals, sorted, indexes[..]) && Sorted(sorted, numeric)
  {
    var marked := seq(|vals|, j requires 0 <= j < |vals| => vals[j].(field := j));
    sorted := QSort(marked, numeric);
    PermutedDistinct(marked, sorted);
    ghost var qsorted := sorted;
    MarksDiffer(marked, qsorted);
    indexes := new int[|vals|];
    for j := 0 to |vals|
      invariant |sorted| == |vals| == indexes.Length
      invariant forall i :: j <= i < |sorted| ==> sorted[i] == qsorted[i]
      invariant forall i :: 0 <= i < j ==> sorted[i] == qsorted[i].(field := f)
      invariant forall i :: 0 <= i < j ==> 0 <= qsorted[i].field < |vals| && indexes[qsorted[i].field] == i
    {
      indexes[sorted[j].field] := j;
      sorted := sorted[j := sorted[j].(field := f)];
    }
    SortedBack(vals, marked, qsorted, sorted, indexes[..], f, numeric);
  }

  /** The values in menu order, and none of them lost, added or changed. */
  ghost predicate InMenuOrder(vals: seq<FieldValue>, vals': seq<FieldValue>, f: nat) {
    Sorted(vals', Scales(f)) && exists to :: Permuted(vals, vals', to)
  }

  lemma InMenuOrderEnabled(vals: seq<FieldValue>, vals': seq<FieldValue>, f: nat)
    requires InMenuOrder(vals, vals', f) && AllEnabled(vals)
    ensures AllEnabled(vals')
  {
    var to :| Permuted(vals, vals', to);
    forall j | 0 <= j < |vals'| ensures vals'[j].enable {
      Covered(to, j);
    }
  }

  method RedirectFonts(s: FontSelector, f: nat, indexes: array<int>)
    requires f < FIELD_COUNT && Table(s.fonts[..]) && 0 <= s.numFonts <= s.fonts.Length && indexes != s.fonts as object
    requires forall k :: 0 <= k < s.numFonts ==> 0 <= s.fonts[k][f] < indexes.Length
    modifies s.fonts
    ensures Redirected(old(s.fonts[..]), s.fonts[..], f, indexes[..], s.numFonts)
  {
    for j := 0 to s.numFonts
      invariant Redirected(old(s.fonts[..]), s.fonts[..], f, indexes[..], j)
    {
      if s.fonts[j][f] >= 0 {
        s.fonts[j] := s.fonts[j][f := indexes[s.fonts[j][f]]];
      }
    }
  }

  method SortField(s: FontSelector, f: nat, ghost scaled: bool)
    requires IndexOk(s.fieldValues, s.rows, s.fonts[..], scaled) && s.numFonts == |s.rows| && f < FIELD_COUNT
    requires |s.rows| <= s.fonts.Length
    modifies s`fieldValues, s.fonts
    ensures IndexOk(s.fieldValues, s.rows, s.fonts[..], scaled)
    ensures s.fieldValues == old(s.fieldValues)[f := s.fieldValues[f]]
    ensures InMenuOrder(old(s.fieldValues[f]), s.fieldValues[f], f)
  {
    ghost var fields, rows, table := s.fieldValues, s.rows, s.fonts[..];
    assert FieldOk(fields[f], f, rows, table, scaled);
    forall k | 0 <= k < |rows| ensures 0 <= table[k][f] < |fields[f]| {
      assert EntryOk(fields[f], f, rows[k], table[k][f]);
    }
    forall j | 0 <= j < |fields[f]| ensures fields[f][j].field == f {
      assert ValueOk(fields[f][j], f, rows, scaled);
    }
    var sorted, indexes := SortValues(s.fieldValues[f], f, Scales(f));
    RedirectFonts(s, f, indexes);
    s.fieldValues := s.fieldValues[f := sorted];
    forall g | 0 <= g < FIELD_COUNT ensures FieldOk(s.fieldValues[g], g, rows, s.fonts[..], scaled) {
      assert FieldOk(fields[g], g, rows, table, scaled);
      if g == f {
        SortedFieldOk(fields[f], sorted, indexes[..], f, rows, table, s.fonts[..], scaled);
      } else {
        OtherSortedFieldOk(fields[g], g, f, indexes[..], rows, table, s.fonts[..], scaled);
      }
    }
  }

  /** Every field ends in menu order with the same values, and the index still tells the truth: value_index of
      every font names the value it has, and every value keeps its list. */
  method SortFields(s: FontSelector, ghost scaled: bool)
    requires IndexOk(s.fieldValues, s.rows, s.fonts[..], scaled) && s.numFonts == |s.rows| <= s.fonts.Length
    modifies s`fieldValues, s.fonts
    ensures IndexOk(s.fieldValues, s.rows, s.fonts[..], scaled)
    ensures forall f :: 0 <= f < FIELD_COUNT ==> InMenuOrder(old(s.fieldValues)[f], s.fieldValues[f], f)
  {
    for i := 0 to FIELD_COUNT
      invariant IndexOk(s.fieldValues, s.rows, s.fonts[..], scaled)
      invariant forall f :: i <= f < FIELD_COUNT ==> s.fieldValues[f] == old(s.fieldValues)[f]
      invariant forall f :: 0 <= f < i ==> InMenuOrder(old(s.fieldValues)[f], s.fieldValues[f], f)
    {
      SortField(s, i, scaled);
    }
  }
}

/**
 FixScalables: the scalable fonts, those whose pixel size is "0", are merged into the list of every size,
 and the sizes named in the resources are added.  Afterwards every list holds exactly the fonts that match.
 */
module ScalableFonts {
  import opened Common
  import opened XlfdName
  import opened FontIndex

  /** The merged list: sorted, each font once, exactly the fonts of the two lists. */
  ghost predicate IsUnion(r: seq<int>, a: seq<int>, b: seq<int>) {
    StrictlyIncreasing(r) && (forall k :: k in r <==> k in a || k in b)
  }

  /** The smallest unread elements of both inputs lie above what was written. */
  ghost predicate Below(r: seq<int>, a: seq<int>, i: nat)
    requires i <= |a|
  {
    i < |a| ==> forall k :: k in r ==> k < a[i]
  }

  /** i and j fonts of the inputs are read and merged into r; `count` still counts the unread ones. */
  ghost predicate Merging(r: seq<int>, a: seq<int>, i: nat, b: seq<int>, j: nat, count: int) {
    && i <= |a| && j <= |b| && StrictlyIncreasing(a) && StrictlyIncreasing(b)
    && IsUnion(r, a[..i], b[..j]) && Below(r, a, i) && Below(r, b, j)
    && count - |r| == (|a| - i) + (|b| - j) && |r| <= i + j
  }

  lemma MergeStart(a: seq<int>, b: seq<int>)
    requires StrictlyIncreasing(a) && StrictlyIncreasing(b)
    ensures Merging([], a, 0, b, 0, |a| + |b|)
  {
  }

  lemma MergeStep(r: seq<int>, a: seq<int>, i: nat, b: seq<int>, j: nat, count: int, x: int, i': nat, j': nat)
    requires Merging(r, a, i, b, j, count)
    requires i' <= |a| && j' <= |b| && (i < i' || j < j')
    requires (i' == i + 1 && a[i] == x) || (i' == i && (i < |a| ==> x < a[i]))
    requires (j' == j + 1 && b[j] == x) || (j' == j && (j < |b| ==> x < b[j]))
    ensures Merging(r + [x], a, i', b, j', if i < i' && j < j' then count - 1 else count)
  {
    var r' := r + [x];
    assert forall k :: 0 <= k < |r| ==> r[k] in r;
    forall k ensures k in r' <==> k in a[..i'] || k in b[..j'] {
      assert i' == i + 1 ==> a[..i'] == a[..i] + [x];
      assert j' == j + 1 ==> b[..j'] == b[..j] + [x];
      assert k in r' <==> k in r || k == x;
    }
  }

  /** The merge loops of AddScalables; `count` starts at the sum of the lengths and drops by one for each
      font that stands in both lists. */
  method MergeFonts(scaled: seq<int>, ofont: seq<int>) returns (nfonts: array<int>, count: nat)
    requires StrictlyIncreasing(scaled) && StrictlyIncreasing(ofont)
    ensures fresh(nfonts) && count <= nfonts.Length && IsUnion(nfonts[..count], scaled, ofont)
  {
    hide IsUnion, Below;
    nfonts := new int[|scaled| + |ofont|];
    count := nfonts.Length;
    var n, i, j := 0, 0, 0;
    ghost var out: seq<int> := [];
    MergeStart(scaled, ofont);
    while i < |scaled| && j < |ofont|
      invariant n <= nfonts.Length && nfonts[..n] == out && Merging(out, scaled, i, ofont, j, count)
      decreases |scaled| - i + |ofont| - j
    {
      var x := if scaled[i] <= ofont[j] then scaled[i] else ofont[j];
      var i' := if scaled[i] <= ofont[j] then i + 1 else i;
      var j' := if ofont[j] <= scaled[i] then j + 1 else j;
      MergeStep(out, scaled, i, ofont, j, count, x, i', j');
      if scaled[i] == ofont[j] {
        count := count - 1;
      }
      nfonts[n] := x;
      out := out + [x];
      n, i, j := n + 1, i', j';
    }
    while j < |ofont|
      invariant n <= nfonts.Length && nfonts[..n] == out && Merging(out, scaled, i, ofont, j, count)
      invariant i == |scaled| || j == |ofont|
    {
      MergeStep(out, scaled, i, ofont, j, count, ofont[j], i, j + 1);
      nfonts[n] := ofont[j];
      out := out + [ofont[j]];
      n, j := n + 1, j + 1;
    }
    while i < |scaled|
      invariant n <= nfonts.Length && nfonts[..n] == out && Merging(out, scaled, i, ofont, j, count)
      invariant j == |ofont|
    {
      MergeStep(out, scaled, i, ofont, j, count, scaled[i], i + 1, j);
      nfonts[n] := scaled[i];
      out := out + [scaled[i]];
      n, i := n + 1, i + 1;
    }
    assert scaled[..i] == scaled && ofont[..j] == ofont;
  }

  /** The count of a merged list is the size of the union. */
  lemma {:induction false} SortedSize(r: seq<int>, all: set<int>)
    requires StrictlyIncreasing(r) && (forall k :: k in r <==> k in all)
    ensures |r| == |all|
  {
    if r == [] {
      assert forall k :: k in all ==> k in r;
      assert all == {};
    } else {
      var init, last := r[..|r| - 1], r[|r| - 1];
      assert r == init + [last];
      forall k ensures k in init <==> k in all - {last} {
        assert k in r <==> k in init || k == last;
        assert last !in init;
      }
      SortedSize(init, all - {last});
    }
  }

  /** The scalable fonts: those whose pixel size is "0". */
  ghost predicate IsScaled(scaled: seq<int>, rows: seq<Row>)
    requires Rows(rows)
  {
    && StrictlyIncreasing(scaled)
    && (forall k :: k in scaled ==> 0 <= k < |rows|)
    && (forall k :: 0 <= k < |rows| ==> (k in scaled <==> rows[k][PIXEL_SIZE] == ZERO_SIZE))
  }

  lemma UnscaledValue(v: FieldValue, f: nat, rows: seq<Row>)
    requires Rows(rows) && f < FIELD_COUNT && ValueOk(v, f, rows, false)
    requires !Scales(f) || (v.str == ZERO_SIZE && Occurs(rows, f, ZERO_SIZE)) || !Occurs(rows, PIXEL_SIZE, ZERO_SIZE)
    ensures ValueOk(v, f, rows, true)
  {
    forall k | 0 <= k < |rows| ensures k in v.font <==> Means(rows, k, f, v.str, true) {
      assert k in v.font <==> Means(rows, k, f, v.str, false);
    }
  }

  lemma MergedValue(v: FieldValue, v': FieldValue, f: nat, rows: seq<Row>, scaled: seq<int>)
    requires Rows(rows) && f < FIELD_COUNT && ValueOk(v, f, rows, false) && Scales(f) && v.str != ZERO_SIZE
    requires IsScaled(scaled, rows) && v' == v.(font := v'.font) && IsUnion(v'.font, scaled, v.font)
    ensures ValueOk(v', f, rows, true)
  {
    assert v.font[0] in v.font && v.font[0] in v'.font;
    forall k | 0 <= k < |rows| ensures k in v'.font <==> Means(rows, k, f, v'.str, true) {
      assert k in v.font <==> Means(rows, k, f, v.str, false);
    }
  }

  /** A "0" value that is listed before any size is added comes from a parsed name. */
  lemma ZeroOccurs(vals: seq<FieldValue>, f: nat, rows: seq<Row>, fonts: seq<seq<int>>, i: nat)
    requires FieldOk(vals, f, rows, fonts, false) && i < |vals| && vals[i].str == ZERO_SIZE
    ensures Occurs(rows, f, ZERO_SIZE)
  {
    assert ValueOk(vals[i], f, rows, false);
    assert vals[i].font[0] in vals[i].font;
    assert Means(rows, vals[i].font[0], f, ZERO_SIZE, false);
  }

  /** If no value of the field is "0", no parsed name has it. */
  lemma ZeroMissing(vals: seq<FieldValue>, f: nat, rows: seq<Row>, fonts: seq<seq<int>>)
    requires FieldOk(vals, f, rows, fonts, false) && forall i :: 0 <= i < |vals| ==> vals[i].str != ZERO_SIZE
    ensures !Occurs(rows, f, ZERO_SIZE)
  {
    forall k | 0 <= k < |rows| ensures rows[k][f] != ZERO_SIZE {
      assert EntryOk(vals, f, rows[k], fonts[k][f]);
    }
  }

  /** Merge the scalable fonts into every value of field f but "0". */
  method AddScalables(s: FontSelector, f: nat, scaled: seq<int>)
    requires f < |s.fieldValues| && FieldOk(s.fieldValues[f], f, s.rows, s.fonts[..], false)
    requires Scales(f) && IsScaled(scaled, s.rows)
    modifies s`fieldValues
    ensures |s.fieldValues| == old(|s.fieldValues|) && s.fieldValues == old(s.fieldValues)[f := s.fieldValues[f]]
    ensures FieldOk(s.fieldValues[f], f, s.rows, s.fonts[..], true)
    ensures |s.fieldValues[f]| == |old(s.fieldValues[f])|
    ensures forall i :: 0 <= i < |s.fieldValues[f]| ==>
      && s.fieldValues[f][i].str == old(s.fieldValues[f])[i].str
      && s.fieldValues[f][i].enable == old(s.fieldValues[f])[i].enable
  {
    hide IsUnion, Occurs, Means;
    ghost var before, rows, table := s.fieldValues[f], s.rows, s.fonts[..];
    var vals := s.fieldValues[f];
    var i := 0;
    while i < |vals|
      invariant i <= |vals| == |before| && s.fieldValues == old(s.fieldValues)
      invariant forall j :: 0 <= j < |vals| ==> vals[j].str == before[j].str && vals[j].enable == before[j].enable
      invariant forall j :: 0 <= j < i ==> ValueOk(vals[j], f, rows, true)
      invariant forall j :: i <= j < |vals| ==> vals[j] == before[j]
    {
      assert ValueOk(before[i], f, rows, false);
      if vals[i].str == ZERO_SIZE {
        ZeroOccurs(before, f, rows, table, i);
        UnscaledValue(vals[i], f, rows);
      } else {
        var nfonts, count := MergeFonts(scaled, vals[i].font);
        MergedValue(vals[i], vals[i].(font := nfonts[..count]), f, rows, scaled);
        vals := vals[i := vals[i].(font := nfonts[..count])];
      }
      i := i + 1;
    }
    forall k | 0 <= k < |rows| ensures EntryOk(vals, f, rows[k], table[k][f]) {
      assert EntryOk(before, f, rows[k], table[k][f]);
    }
    s.fieldValues := s.fieldValues[f := vals];
  }

  // ---------------------------------------------------------------------------------------
  // The sizes of the resources
  // ---------------------------------------------------------------------------------------

  predicate Separates(c: char) { c == ' ' || c == ',' }

  /** The words of a list in which blanks and commas separate. */
  function Words(list: string): seq<string> {
    if list == "" then []
    else if Separates(list[0]) then Words(list[1..])
    else if |list| == 1 || Separates(list[1]) then [[list[0]]] + Words(list[1..])
    else
      var rest := Words(list[1..]);
      if rest == [] then [[list[0]]] else [[list[0]] + rest[0]] + rest[1..]
  }

  lemma {:induction false} LeadingWord(list: string, n: nat)
    requires 1 <= n <= |list| && (forall i :: 0 <= i < n ==> !Separates(list[i]))
    requires n == |list| || Separates(list[n])
    ensures Words(list) == [list[..n]] + Words(list[n..])
    decreases n
  {
    if n == 1 {
      assert list[..1] == [list[0]];
    } else {
      var tail := list[1..];
      assert !Separates(list[1]);
      LeadingWord(tail, n - 1);
      assert list[..n] == [list[0]] + tail[..n - 1];
      assert tail[n - 1..] == list[n..];
    }
  }

  /** A separator divides a list in two. */
  lemma {:induction false} WordsOfParts(a: string, c: char, b: string)
    requires Separates(c)
    ensures Words(a + [c] + b) == Words(a) + Words(b)
    decreases |a|
  {
    hide Words;
    var list := a + [c] + b;
    WordsFront(list);
    NoWords();
    if a == "" {
      assert list[1..] == b;
    } else {
      var tail := a[1..];
      WordsOfParts(tail, c, b);
      assert list[1..] == tail + [c] + b;
      WordsFront(a);
      if tail == "" {
        assert list[1] == c;
      } else {
        assert list[1] == a[1] == tail[0];
        WordsFront(tail);
        FrontOfBoth(Words(tail), Words(b));
      }
    }
  }

  lemma NoWords()
    ensures Words("") == []
  {
  }

  lemma FrontOfBoth<T>(x: seq<T>, y: seq<T>)
    ensures x != [] ==> x + y != [] && (x + y)[0] == x[0] && (x + y)[1..] == x[1..] + y
  {
  }

  /** What the first character adds. */
  lemma WordsFront(list: string)
    requires list != ""
    ensures var rest := Words(list[1..]);
      && (!Separates(list[0]) ==> Words(list) != [])
      && Words(list) ==
        if Separates(list[0]) then rest
        else if |list| == 1 || Separates(list[1]) || rest == [] then [[list[0]]] + rest
        else [[list[0]] + rest[0]] + rest[1..]
  {
  }

  /** A text without separators is one word. */
  lemma WordAlone(a: string)
    requires a != "" && forall i :: 0 <= i < |a| ==> a[i] != ' ' && a[i] != ','
    ensures Words(a) == [a]
  {
    LeadingWord(a, |a|);
    assert a[..|a|] == a && a[|a|..] == "";
  }

  lemma WordsSkip(list: string, p: nat)
    requires p <= |list|
    ensures if p == |list| then Words(list[p..]) == []
      else Separates(list[p]) ==> Words(list[p..]) == Words(list[p + 1..])
  {
    if p < |list| {
      assert list[p..][1..] == list[p + 1..];
    }
  }

  /** The word that starts here ends before p. */
  method NextWord(list: string, start: nat) returns (p: nat)
    requires start < |list| && !Separates(list[start])
    ensures start < p <= |list| && Words(list[start..]) == [list[start..p]] + Words(list[p..])
  {
    p := start;
    while p < |list| && !Separates(list[p])
      invariant start <= p <= |list|
      invariant forall i :: start <= i < p ==> !Separates(list[i])
    {
      p := p + 1;
    }
    LeadingWord(list[start..], p - start);
    assert list[start..][..p - start] == list[start..p] && list[start..][p - start..] == list[p..];
  }

  ghost predicate Listed(vals: seq<FieldValue>, word: string) {
    exists i :: 0 <= i < |vals| && vals[i].str == Some(word)
  }

  ghost predicate HasValue(vals: seq<FieldValue>, str: Option<string>) {
    exists i :: 0 <= i < |vals| && vals[i].str == str
  }

  ghost predicate SameStrings(a: seq<FieldValue>, b: seq<FieldValue>) {
    |a| == |b| && forall i :: 0 <= i < |a| ==> a[i].str == b[i].str
  }

  /** The sizes that the resources add to field f. */
  function SizesFor(f: nat, pixelSizes: string, pointSizes: string): seq<string> {
    if f == 6 then Words(pixelSizes) else if f == 7 then Words(pointSizes) else []
  }

  /** What the menu of field f has: the values that occur in some name, and, with scaling and when there are scalable
      fonts, the sizes of the resources. */
  ghost predicate Offered(vals: seq<FieldValue>, f: nat, rows: seq<Row>, scaled: bool, pixelSizes: string,
                          pointSizes: string)
    requires Rows(rows) && f < FIELD_COUNT
  {
    forall str :: HasValue(vals, str) <==>
      || Occurs(rows, f, str)
      || (scaled && Occurs(rows, 6, Some("0")) && str.Some? && str.value in SizesFor(f, pixelSizes, pointSizes))
  }

  lemma ParsedOffer(vals: seq<FieldValue>, f: nat, rows: seq<Row>, fonts: seq<seq<int>>, str: Option<string>)
    requires FieldOk(vals, f, rows, fonts, false)
    ensures HasValue(vals, str) <==> Occurs(rows, f, str)
  {
    if HasValue(vals, str) {
      var i :| 0 <= i < |vals| && vals[i].str == str;
      assert ValueOk(vals[i], f, rows, false);
      assert vals[i].font[0] in vals[i].font;
      assert Means(rows, vals[i].font[0], f, str, false);
    }
    if Occurs(rows, f, str) {
      var k :| 0 <= k < |rows| && rows[k][f] == str;
      assert EntryOk(vals, f, rows[k], fonts[k][f]);
    }
  }

  /** Without scaling, or without scalable fonts, the menus have what the names have. */
  lemma OfferedUnscaled(vals: seq<FieldValue>, f: nat, rows: seq<Row>, fonts: seq<seq<int>>, scaled: bool,
                        pixelSizes: string, pointSizes: string)
    requires FieldOk(vals, f, rows, fonts, false) && (scaled ==> !Occurs(rows, PIXEL_SIZE, ZERO_SIZE))
    ensures Offered(vals, f, rows, scaled, pixelSizes, pointSizes)
  {
    hide Occurs, HasValue, ValueOk, EntryOk;
    forall str ensures HasValue(vals, str) <==> Occurs(rows, f, str) {
      ParsedOffer(vals, f, rows, fonts, str);
    }
  }

  lemma OfferedScaled(vals: seq<FieldValue>, vals': seq<FieldValue>, f: nat, rows: seq<Row>, fonts: seq<seq<int>>,
                      pixelSizes: string, pointSizes: string)
    requires FieldOk(vals, f, rows, fonts, false) && Occurs(rows, PIXEL_SIZE, ZERO_SIZE)
    requires forall str :: HasValue(vals', str) <==>
      HasValue(vals, str) || (str.Some? && str.value in SizesFor(f, pixelSizes, pointSizes))
    ensures Offered(vals', f, rows, true, pixelSizes, pointSizes)
  {
    hide Occurs, HasValue, SizesFor, ValueOk, EntryOk;
    forall str ensures HasValue(vals, str) <==> Occurs(rows, f, str) {
      ParsedOffer(vals, f, rows, fonts, str);
    }
  }

  lemma SameStringsHave(a: seq<FieldValue>, b: seq<FieldValue>)
    requires SameStrings(a, b)
    ensures forall str :: HasValue(b, str) <==> HasValue(a, str)
  {
    forall str ensures HasValue(b, str) <==> HasValue(a, str) {
      if i :| 0 <= i < |a| && a[i].str == str {
        assert b[i].str == str;
      }
      if i :| 0 <= i < |b| && b[i].str == str {
        assert a[i].str == str;
      }
    }
  }

  /** Values with the same strings, and then those of new sizes. */
  lemma SizesAdded(before: seq<FieldValue>, mid: seq<FieldValue>, after: seq<FieldValue>, words: seq<string>)
    requires SameStrings(before, mid) && mid <= after && forall w :: w in words ==> Listed(after, w)
    requires forall i :: |mid| <= i < |after| ==> after[i].str.Some? && after[i].str.value in words
    ensures forall str :: HasValue(after, str) <==> HasValue(before, str) || (str.Some? && str.value in words)
  {
    SameStringsHave(before, mid);
    forall str ensures HasValue(after, str) <==> HasValue(mid, str) || (str.Some? && str.value in words) {
      if i :| 0 <= i < |mid| && mid[i].str == str {
        assert after[i].str == str;
      }
      if str.Some? && str.value in words {
        assert Listed(after, str.value);
      }
      if i :| 0 <= i < |after| && after[i].str == str {
        assert i < |mid| ==> mid[i].str == str;
      }
    }
  }

  lemma StaysListed(vals: seq<FieldValue>, v: FieldValue)
    ensures forall w :: Listed(vals, w) ==> Listed(vals + [v], w)
    ensures v.str.Some? ==> Listed(vals + [v], v.str.value)
  {
    forall w | Listed(vals, w) ensures Listed(vals + [v], w) {
      var i :| 0 <= i < |vals| && vals[i].str == Some(w);
      assert (vals + [v])[i].str == Some(w);
    }
    assert (vals + [v])[|vals|] == v;
  }

  /** A new size at the end of the values, with the scalable fonts as its list, keeps the field in order. */
  lemma NewSizeOk(vals: seq<FieldValue>, f: nat, rows: seq<Row>, fonts: seq<seq<int>>, scaled: seq<int>, word: string)
    requires FieldOk(vals, f, rows, fonts, true) && Scales(f) && IsScaled(scaled, rows) && scaled != []
    requires !Listed(vals, word)
    ensures FieldOk(vals + [FieldValue(f, Some(word), scaled, true)], f, rows, fonts, true)
  {
    var v := FieldValue(f, Some(word), scaled, true);
    var vals' := vals + [v];
    forall k | 0 <= k < |rows|
      ensures rows[k][f] != v.str && EntryOk(vals', f, rows[k], fonts[k][f])
    {
      assert EntryOk(vals, f, rows[k], fonts[k][f]);
      assert rows[k][f] == Some(word) ==> Listed(vals, word);
    }
    assert !Occurs(rows, f, v.str);
    forall k | 0 <= k < |rows| ensures k in v.font <==> Means(rows, k, f, v.str, true) {
    }
    assert ValueOk(v, f, rows, true);
  }

  /** Add a size unless it is there. */
  method AddSize(vals: seq<FieldValue>, f: nat, ghost rows: seq<Row>, ghost fonts: seq<seq<int>>, scaled: seq<int>,
      word: string)
      returns (r: seq<FieldValue>)
    requires FieldOk(vals, f, rows, fonts, true) && Scales(f) && IsScaled(scaled, rows) && scaled != []
    ensures FieldOk(r, f, rows, fonts, true) && vals <= r && Listed(r, word)
    ensures forall w :: Listed(vals, w) ==> Listed(r, w)
    ensures r == vals || r == vals + [FieldValue(f, Some(word), scaled, true)]
  {
    hide FieldOk, IsScaled;
    var i := 0;
    while i < |vals| && vals[i].str != Some(word)
      invariant i <= |vals| && forall j :: 0 <= j < i ==> vals[j].str != Some(word)
    {
      i := i + 1;
    }
    r := vals;
    if i == |vals| {
      NewSizeOk(vals, f, rows, fonts, scaled, word);
      StaysListed(vals, FieldValue(f, Some(word), scaled, true));
      r := vals + [FieldValue(f, Some(word), scaled, true)];
    }
  }

  /** Add every size of the list that field f does not have yet, each once. */
  method NewScalables(s: FontSelector, f: nat, list: string, scaled: seq<int>)
    requires f < |s.fieldValues| && FieldOk(s.fieldValues[f], f, s.rows, s.fonts[..], true)
    requires Scales(f) && IsScaled(scaled, s.rows) && scaled != []
    modifies s`fieldValues
    ensures |s.fieldValues| == old(|s.fieldValues|) && s.fieldValues == old(s.fieldValues)[f := s.fieldValues[f]]
    ensures FieldOk(s.fieldValues[f], f, s.rows, s.fonts[..], true)
    ensures old(s.fieldValues[f]) <= s.fieldValues[f]
    ensures forall w :: w in Words(list) ==> Listed(s.fieldValues[f], w)
    ensures forall i :: |old(s.fieldValues[f])| <= i < |s.fieldValues[f]| ==>
      && s.fieldValues[f][i].str.Some? && s.fieldValues[f][i].str.value in Words(list)
      && s.fieldValues[f][i].font == scaled && s.fieldValues[f][i].enable
  {
    hide FieldOk, IsScaled, Listed, Words;
    ghost var before := s.fieldValues[f];
    var vals := s.fieldValues[f];
    var p := 0;
    WordsSkip(list, |list|);
    assert list[0..] == list;
    while p < |list|
      invariant s.fieldValues == old(s.fieldValues)
      invariant p <= |list| && before <= vals && FieldOk(vals, f, s.rows, s.fonts[..], true)
      invariant forall w :: w in Words(list) ==> w in Words(list[p..]) || Listed(vals, w)
      invariant forall w :: w in Words(list[p..]) ==> w in Words(list)
      invariant forall i :: |before| <= i < |vals| ==>
        vals[i].str.Some? && vals[i].str.value in Words(list) && vals[i].font == scaled && vals[i].enable
    {
      if Separates(list[p]) {
        WordsSkip(list, p);
        p := p + 1;
      } else {
        var start := p;
        p := NextWord(list, start);
        vals := AddSize(vals, f, s.rows, s.fonts[..], scaled, list[start..p]);
      }
    }
    s.fieldValues := s.fieldValues[f := vals];
  }

  lemma UnscaledField(vals: seq<FieldValue>, f: nat, rows: seq<Row>, fonts: seq<seq<int>>)
    requires FieldOk(vals, f, rows, fonts, false)
    requires !Scales(f) || !Occurs(rows, PIXEL_SIZE, ZERO_SIZE)
    ensures FieldOk(vals, f, rows, fonts, true)
  {
    forall j | 0 <= j < |vals| ensures ValueOk(vals[j], f, rows, true) {
      UnscaledValue(vals[j], f, rows);
    }
  }

  lemma ZeroListIsScaled(vals: seq<FieldValue>, rows: seq<Row>, fonts: seq<seq<int>>, i: nat)
    requires FieldOk(vals, PIXEL_SIZE, rows, fonts, false) && i < |vals| && vals[i].str == ZERO_SIZE
    ensures IsScaled(vals[i].font, rows) && vals[i].font != [] && Occurs(rows, PIXEL_SIZE, ZERO_SIZE)
  {
    ZeroOccurs(vals, PIXEL_SIZE, rows, fonts, i);
    assert ValueOk(vals[i], PIXEL_SIZE, rows, false);
    forall k | 0 <= k < |rows| ensures k in vals[i].font <==> rows[k][PIXEL_SIZE] == ZERO_SIZE {
      assert k in vals[i].font <==> Means(rows, k, PIXEL_SIZE, vals[i].str, false);
    }
  }

  /** The two sizes of one field: merge, then add the sizes of the resource. */
  method ScaleSizes(s: FontSelector, f: nat, list: string, scaled: seq<int>)
    requires f < |s.fieldValues| && FieldOk(s.fieldValues[f], f, s.rows, s.fonts[..], false)
    requires Scales(f) && IsScaled(scaled, s.rows) && scaled != [] && AllEnabled(s.fieldValues[f])
    modifies s`fieldValues
    ensures |s.fieldValues| == old(|s.fieldValues|) && s.fieldValues == old(s.fieldValues)[f := s.fieldValues[f]]
    ensures FieldOk(s.fieldValues[f], f, s.rows, s.fonts[..], true) && AllEnabled(s.fieldValues[f])
    ensures forall str :: HasValue(s.fieldValues[f], str) <==>
      HasValue(old(s.fieldValues)[f], str) || (str.Some? && str.value in Words(list))
  {
    hide FieldOk, IsScaled, Listed, Words, HasValue;
    ghost var before := s.fieldValues[f];
    AddScalables(s, f, scaled);
    ghost var mid := s.fieldValues[f];
    NewScalables(s, f, list, scaled);
    SizesAdded(before, mid, s.fieldValues[f], Words(list));
  }

  /** The scalable fields without sizes of their own in the resources. */
  method ScaleFields(s: FontSelector, scaled: seq<int>)
    requires |s.fieldValues| == FIELD_COUNT && Rows(s.rows) && IsScaled(scaled, s.rows)
    requires forall f :: f == 8 || f == 9 || f == 11 ==>
      FieldOk(s.fieldValues[f], f, s.rows, s.fonts[..], false) && AllEnabled(s.fieldValues[f])
    modifies s`fieldValues
    ensures |s.fieldValues| == FIELD_COUNT
    ensures forall f :: f == 8 || f == 9 || f == 11 ==>
      FieldOk(s.fieldValues[f], f, s.rows, s.fonts[..], true) && AllEnabled(s.fieldValues[f])
    ensures forall f :: 0 <= f < FIELD_COUNT && f != 8 && f != 9 && f != 11 ==>
      s.fieldValues[f] == old(s.fieldValues)[f]
    ensures forall f :: f == 8 || f == 9 || f == 11 ==> SameStrings(old(s.fieldValues)[f], s.fieldValues[f])
  {
    AddScalables(s, 8, scaled);
    AddScalables(s, 9, scaled);
    AddScalables(s, 11, scaled);
  }

  lemma NoSizes(f: nat, pixelSizes: string, pointSizes: string)
    requires f != 6 && f != 7
    ensures SizesFor(f, pixelSizes, pointSizes) == []
  {
  }

  /** After FixScalables every list of every field holds exactly the fonts that match its value, and the menus have
      the values of the names and the sizes of the resources. */
  method FixScalables(s: FontSelector, pixelSizes: string, pointSizes: string)
    requires IndexOk(s.fieldValues, s.rows, s.fonts[..], false) && EverythingEnabled(s.fieldValues)
    modifies s`fieldValues
    ensures IndexOk(s.fieldValues, s.rows, s.fonts[..], true)
    ensures forall f :: 0 <= f < FIELD_COUNT ==> Offered(s.fieldValues[f], f, s.rows, true, pixelSizes, pointSizes)
    ensures !Occurs(s.rows, PIXEL_SIZE, ZERO_SIZE) ==> s.fieldValues == old(s.fieldValues)
    ensures EverythingEnabled(s.fieldValues)
  {
    hide FieldOk, IsScaled, Listed, Words, AllEnabled, Offered, HasValue, SameStrings, Occurs;
    ghost var before, rows, table := s.fieldValues, s.rows, s.fonts[..];
    assert FieldOk(before[PIXEL_SIZE], PIXEL_SIZE, rows, table, false);
    var i := s.FindValue(PIXEL_SIZE, ZERO_SIZE);
    if i < |s.fieldValues[PIXEL_SIZE]| {
      var scaled := s.fieldValues[PIXEL_SIZE][i].font;
      ZeroListIsScaled(before[PIXEL_SIZE], rows, table, i);
      ScaleSizes(s, 6, pixelSizes, scaled);
      assert FieldOk(before[7], 7, rows, table, false);
      ScaleSizes(s, 7, pointSizes, scaled);
      ScaleFields(s, scaled);
      forall f | 0 <= f < FIELD_COUNT
        ensures Offered(s.fieldValues[f], f, rows, true, pixelSizes, pointSizes)
      {
        assert FieldOk(before[f], f, rows, table, false);
        if f == 8 || f == 9 || f == 11 {
          SameStringsHave(before[f], s.fieldValues[f]);
        }
        OfferedScaled(before[f], s.fieldValues[f], f, rows, table, pixelSizes, pointSizes);
      }
    } else {
      ZeroMissing(before[PIXEL_SIZE], PIXEL_SIZE, rows, table);
      forall f | 0 <= f < FIELD_COUNT
        ensures Offered(s.fieldValues[f], f, rows, true, pixelSizes, pointSizes)
      {
        assert FieldOk(before[f], f, rows, table, false);
        OfferedUnscaled(before[f], f, rows, table, true, pixelSizes, pointSizes);
      }
    }
    forall f | 0 <= f < FIELD_COUNT ensures FieldOk(s.fieldValues[f], f, rows, table, true) {
      assert FieldOk(before[f], f, rows, table, false);
      if !Scales(f) || i == |before[PIXEL_SIZE]| {
        UnscaledField(before[f], f, rows, table);
      }
    }
  }
}

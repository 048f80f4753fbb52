/**
 xfontsel's font index: per field the list of distinct values, per value the list of fonts that have it,
 and per font the value it has in each field.  Parsing, adding the scalable fonts, sorting and selecting
 all agree with one plain reading of the font names.
 */
module FontIndex {
  import opened Common
  import opened XlfdName

  datatype FieldValue = FieldValue(field: int, str: Option<string>, font: seq<int>, enable: bool)

  /** The fields of one name, in order. */
  type Row = seq<Option<string>>

  const PIXEL_SIZE := 6
  const ZERO_SIZE: Option<string> := Some("0")

  function RowOf(name: string): (row: Row)
    ensures |row| == FIELD_COUNT
  {
    seq(FIELD_COUNT, f requires 0 <= f < FIELD_COUNT => FieldString(name, f))
  }

  /** The fields in which a scalable font answers to every size. */
  predicate Scales(f: nat) {
    f == 6 || f == 7 || f == 8 || f == 9 || f == 11
  }

  ghost predicate Rows(rows: seq<Row>) {
    forall k :: 0 <= k < |rows| ==> |rows[k]| == FIELD_COUNT
  }

  ghost predicate Occurs(rows: seq<Row>, f: nat, str: Option<string>)
    requires Rows(rows) && f < FIELD_COUNT
  {
    exists k :: 0 <= k < |rows| && rows[k][f] == str
  }

  /** Does font k match the value `str` of field f?  It does when its own field says so, and, once the scalable
      fonts are added, when it is scalable and `str` is a size: anything but the "0" of a parsed name. */
  ghost predicate Means(rows: seq<Row>, k: nat, f: nat, str: Option<string>, scaled: bool)
    requires Rows(rows) && k < |rows| && f < FIELD_COUNT
  {
    || rows[k][f] == str
    || (scaled && Scales(f) && rows[k][PIXEL_SIZE] == ZERO_SIZE && (str == ZERO_SIZE ==> !Occurs(rows, f, str)))
  }

  /** The font list of a value is sorted, not empty, and holds exactly the fonts that match the value. */
  ghost predicate ValueOk(v: FieldValue, f: nat, rows: seq<Row>, scaled: bool)
    requires Rows(rows) && f < FIELD_COUNT
  {
    && v.field == f
    && v.font != [] && StrictlyIncreasing(v.font)
    && (forall k :: k in v.font ==> 0 <= k < |rows|)
    && (forall k :: 0 <= k < |rows| ==> (k in v.font <==> Means(rows, k, f, v.str, scaled)))
  }

  ghost predicate DistinctValues(vals: seq<FieldValue>) {
    forall i, j :: 0 <= i < j < |vals| ==> vals[i].str != vals[j].str
  }

  /** value_index of font k in field f names the value that font has. */
  ghost predicate EntryOk(vals: seq<FieldValue>, f: nat, row: Row, entry: int)
    requires |row| == FIELD_COUNT && f < FIELD_COUNT
  {
    0 <= entry < |vals| && vals[entry].str == row[f]
  }

  ghost predicate AllEnabled(vals: seq<FieldValue>) {
    forall j :: 0 <= j < |vals| ==> vals[j].enable
  }

  ghost predicate EverythingEnabled(fields: seq<seq<FieldValue>>) {
    forall f :: 0 <= f < |fields| ==> AllEnabled(fields[f])
  }

  ghost predicate Table(fonts: seq<seq<int>>) {
    forall k :: 0 <= k < |fonts| ==> |fonts[k]| == FIELD_COUNT
  }

  ghost predicate FieldOk(vals: seq<FieldValue>, f: nat, rows: seq<Row>, fonts: seq<seq<int>>, scaled: bool) {
    && f < FIELD_COUNT && Rows(rows) && Table(fonts) && |rows| <= |fonts|
    && DistinctValues(vals)
    && (forall j :: 0 <= j < |vals| ==> ValueOk(vals[j], f, rows, scaled))
    && (forall k :: 0 <= k < |rows| ==> EntryOk(vals, f, rows[k], fonts[k][f]))
  }

  ghost predicate IndexOk(fields: seq<seq<FieldValue>>, rows: seq<Row>, fonts: seq<seq<int>>, scaled: bool) {
    && |fields| == FIELD_COUNT && Rows(rows)
    && (forall f :: 0 <= f < FIELD_COUNT ==> FieldOk(fields[f], f, rows, fonts, scaled))
  }

  /** In a parsed index a font is on the list of exactly the value its value_index names. */
  lemma ListsInvertTable(vals: seq<FieldValue>, f: nat, rows: seq<Row>, fonts: seq<seq<int>>, k: nat, j: nat)
    requires FieldOk(vals, f, rows, fonts, false) && k < |rows| && j < |vals|
    ensures k in vals[j].font <==> fonts[k][f] == j
  {
    assert EntryOk(vals, f, rows[k], fonts[k][f]);
    assert ValueOk(vals[j], f, rows, false);
  }

  // ---------------------------------------------------------------------------------------
  // Which names are accepted
  // ---------------------------------------------------------------------------------------

  /** The names a chunk contributes: the parser does not move past a name it rejects, so it takes the names
      before the first rejected one and no more. */
  function GoodPrefix(names: seq<string>): seq<string> {
    if names == [] || !IsXLFD(names[0]) then [] else [names[0]] + GoodPrefix(names[1..])
  }

  /** The names that ought to be taken. */
  function GoodNames(names: seq<string>): seq<string> {
    if names == [] then []
    else if IsXLFD(names[0]) then [names[0]] + GoodNames(names[1..])
    else GoodNames(names[1..])
  }

  lemma {:induction false} GoodNamesEmpty(names: seq<string>)
    ensures GoodNames(names) == [] <==> forall i :: 0 <= i < |names| ==> !IsXLFD(names[i])
  {
    if names != [] {
      GoodNamesEmpty(names[1..]);
      assert forall i :: 0 < i < |names| ==> names[i] == names[1..][i - 1];
      if GoodNames(names) == [] {
        assert GoodNames(names[1..]) == [];
        forall i | 0 <= i < |names| ensures !IsXLFD(names[i]) {
          assert i > 0 ==> names[i] == names[1..][i - 1];
        }
      }
    }
  }

  /** No rejected name stands before an acceptable one. */
  ghost predicate RejectedLast(names: seq<string>) {
    forall i, j :: 0 <= i < j < |names| && IsXLFD(names[j]) ==> IsXLFD(names[i])
  }

  /** A chunk loses no good name exactly when its rejected names all stand at its end. */
  lemma {:induction false} ChunkLosesNothing(names: seq<string>)
    ensures GoodPrefix(names) == GoodNames(names) <==> RejectedLast(names)
  {
    if names != [] {
      var rest := names[1..];
      ChunkLosesNothing(rest);
      GoodNamesEmpty(names);
      if IsXLFD(names[0]) {
        assert GoodPrefix(names) == GoodNames(names) <==> GoodPrefix(rest) == GoodNames(rest) by {
          assert GoodPrefix(names)[1..] == GoodPrefix(rest) && GoodNames(names)[1..] == GoodNames(rest);
        }
        assert forall i :: 0 < i < |names| ==> names[i] == rest[i - 1];
        assert forall i :: 0 <= i < |rest| ==> rest[i] == names[i + 1];
      }
    }
  }

  lemma {:induction false} GoodPrefixIsShorter(names: seq<string>)
    ensures |GoodPrefix(names)| <= |GoodNames(names)| <= |names|
  {
    if names != [] {
      GoodPrefixIsShorter(names[1..]);
    }
  }

  lemma {:induction false} GoodNamesConcat(a: seq<string>, b: seq<string>)
    ensures GoodNames(a + b) == GoodNames(a) + GoodNames(b)
  {
    if a == [] {
      assert a + b == b;
    } else {
      assert (a + b)[1..] == a[1..] + b;
      GoodNamesConcat(a[1..], b);
    }
  }

  lemma {:induction false} AllGoodNames(names: seq<string>)
    ensures GoodNames(names) == names <==> forall i :: 0 <= i < |names| ==> IsXLFD(names[i])
    ensures |GoodNames(names)| == |names| ==> GoodNames(names) == names
  {
    if names != [] {
      var rest := names[1..];
      AllGoodNames(rest);
      GoodPrefixIsShorter(rest);
      assert forall i :: 0 < i < |names| ==> names[i] == rest[i - 1];
      assert forall i :: 0 <= i < |rest| ==> rest[i] == names[i + 1];
      if IsXLFD(names[0]) {
        assert GoodNames(names)[1..] == GoodNames(rest) && names == [names[0]] + rest;
      }
    }
  }

  // ---------------------------------------------------------------------------------------
  // One field of one font
  // ---------------------------------------------------------------------------------------

  /** Font k = |rows| gets the value j of field f: an old value's list grows by k, or a new value starts with it. */
  ghost predicate Entered(vals: seq<FieldValue>, vals': seq<FieldValue>, f: nat, str: Option<string>, k: int, j: int) {
    || (0 <= j < |vals| && vals[j].str == str && vals' == vals[j := vals[j].(font := vals[j].font + [k])])
    || (j == |vals| && (forall i :: 0 <= i < |vals| ==> vals[i].str != str)
        && vals' == vals + [FieldValue(f, str, [k], true)])
  }

  lemma EnteredValue(v: FieldValue, v': FieldValue, f: nat, rows: seq<Row>, row: Row)
    requires Rows(rows) && |row| == FIELD_COUNT && f < FIELD_COUNT
    requires ValueOk(v, f, rows, false)
    requires v' == if v.str == row[f] then v.(font := v.font + [|rows|]) else v
    ensures ValueOk(v', f, rows + [row], false)
  {
    var rows' := rows + [row];
    assert forall i :: 0 <= i < |v.font| ==> v.font[i] in v.font;
    forall k | 0 <= k < |rows'| ensures k in v'.font <==> Means(rows', k, f, v'.str, false) {
      assert k < |rows| ==>
        rows'[k] == rows[k] && Means(rows', k, f, v'.str, false) == Means(rows, k, f, v'.str, false);
    }
  }

  lemma NewValue(v: FieldValue, f: nat, rows: seq<Row>, row: Row)
    requires Rows(rows) && |row| == FIELD_COUNT && f < FIELD_COUNT
    requires v.field == f && v.str == row[f] && v.font == [|rows|]
    requires forall k :: 0 <= k < |rows| ==> rows[k][f] != row[f]
    ensures ValueOk(v, f, rows + [row], false)
  {
  }

  lemma EnteredOk(vals: seq<FieldValue>, vals': seq<FieldValue>, f: nat, rows: seq<Row>, row: Row,
                  fonts: seq<seq<int>>, fonts': seq<seq<int>>, j: int)
    requires FieldOk(vals, f, rows, fonts, false) && |row| == FIELD_COUNT && |rows| < |fonts|
    requires Entered(vals, vals', f, row[f], |rows|, j)
    requires fonts' == fonts[|rows| := fonts[|rows|][f := j]]
    ensures FieldOk(vals', f, rows + [row], fonts', false)
  {
    var rows' := rows + [row];
    forall i | 0 <= i < |vals'| ensures ValueOk(vals'[i], f, rows', false) {
      if i < |vals| {
        assert ValueOk(vals[i], f, rows, false);
        EnteredValue(vals[i], vals'[i], f, rows, row);
      } else {
        forall k | 0 <= k < |rows| ensures rows[k][f] != row[f] {
          assert EntryOk(vals, f, rows[k], fonts[k][f]);
        }
        NewValue(vals'[i], f, rows, row);
      }
    }
    forall k | 0 <= k < |rows'| ensures EntryOk(vals', f, rows'[k], fonts'[k][f]) {
      if k < |rows| {
        assert EntryOk(vals, f, rows[k], fonts[k][f]);
      }
    }
  }

  /** A field that was not touched does not look at the row under construction. */
  lemma OtherFieldOk(vals: seq<FieldValue>, g: nat, rows: seq<Row>, fonts: seq<seq<int>>, fonts': seq<seq<int>>,
                     k: nat, f: nat, j: int)
    requires FieldOk(vals, g, rows, fonts, false) && k < |fonts| && f < FIELD_COUNT && f != g
    requires fonts' == fonts[k := fonts[k][f := j]]
    ensures FieldOk(vals, g, rows, fonts', false)
  {
    forall i | 0 <= i < |rows| ensures EntryOk(vals, g, rows[i], fonts'[i][g]) {
      assert EntryOk(vals, g, rows[i], fonts[i][g]);
    }
  }

  // ---------------------------------------------------------------------------------------
  // Parsing
  // ---------------------------------------------------------------------------------------

  function RowsOf(names: seq<string>): seq<Row> {
    seq(|names|, i requires 0 <= i < |names| => RowOf(names[i]))
  }

  ghost predicate Accepts(names: seq<string>) {
    forall k :: 0 <= k < |names| ==> IsXLFD(names[k])
  }

  /** The text of a field: what stands between two hyphens behind the first character, which is a hyphen itself in a
      name that is written as it should be. */
  function TextOf(name: string, f: nat): string
    requires name != "" && f < |Split(name[1..])|
  {
    Split(name[1..])[f]
  }

  lemma RowTexts(names: seq<string>, k: nat, f: nat)
    requires Accepts(names) && k < |names| && f < 14
    ensures names[k] != "" && f < |Split(names[k][1..])| && Rows(RowsOf(names))
    ensures RowsOf(names)[k][f] == if TextOf(names[k], f) == "" then None else Some(TextOf(names[k], f))
  {
    FieldsBehindFirst(names[k], f);
  }

  /** Said of the names: font k matches the text `str` of field f when its name has it there; or, with the scalable
      fonts, when the field is a size, a resolution or the average width, the name has the pixel size "0", and `str` is
      not a "0" that some name has there. */
  lemma MeansInNames(names: seq<string>, k: nat, f: nat, str: string, scaled: bool)
    requires Accepts(names) && k < |names| && f < 14 && str != ""
    ensures Rows(RowsOf(names)) && forall j :: 0 <= j < |names| ==> names[j] != "" && |Split(names[j][1..])| >= 14
    ensures Means(RowsOf(names), k, f, Some(str), scaled) <==>
      || TextOf(names[k], f) == str
      || (scaled && f in {6, 7, 8, 9, 11} && TextOf(names[k], 6) == "0"
          && !(str == "0" && exists j :: 0 <= j < |names| && TextOf(names[j], f) == "0"))
  {
    hide FieldString, Split;
    forall j | 0 <= j < |names| ensures names[j] != "" && |Split(names[j][1..])| >= 14 {
      RowTexts(names, j, 13);
    }
    forall j | 0 <= j < |names|
      ensures RowsOf(names)[j][f] == if TextOf(names[j], f) == "" then None else Some(TextOf(names[j], f))
    {
      RowTexts(names, j, f);
    }
    RowTexts(names, k, 6);
    if exists j :: 0 <= j < |names| && TextOf(names[j], f) == "0" {
      var j :| 0 <= j < |names| && TextOf(names[j], f) == "0";
      assert RowsOf(names)[j][f] == ZERO_SIZE;
    }
    if Occurs(RowsOf(names), f, ZERO_SIZE) {
      var j :| 0 <= j < |RowsOf(names)| && RowsOf(names)[j][f] == ZERO_SIZE;
      assert TextOf(names[j], f) == "0";
    }
  }

  /** While a font is parsed its row is known to the fields before f. */
  ghost predicate PartialOk(fields: seq<seq<FieldValue>>, rows: seq<Row>, row: Row, fonts: seq<seq<int>>, f: nat) {
    && |fields| == FIELD_COUNT
    && (forall g :: 0 <= g < FIELD_COUNT ==> FieldOk(fields[g], g, if g < f then rows + [row] else rows, fonts, false))
  }

  lemma EnteredPartial(fields: seq<seq<FieldValue>>, vals': seq<FieldValue>, rows: seq<Row>, row: Row,
                       fonts: seq<seq<int>>, fonts': seq<seq<int>>, f: nat, j: int)
    requires PartialOk(fields, rows, row, fonts, f) && f < FIELD_COUNT && |row| == FIELD_COUNT && |rows| < |fonts|
    requires Table(fonts) && fonts' == fonts[|rows| := fonts[|rows|][f := j]]
    requires Entered(fields[f], vals', f, row[f], |rows|, j)
    ensures PartialOk(fields[f := vals'], rows, row, fonts', f + 1)
  {
    var fields' := fields[f := vals'];
    forall g | 0 <= g < FIELD_COUNT
      ensures FieldOk(fields'[g], g, if g < f + 1 then rows + [row] else rows, fonts', false)
    {
      assert FieldOk(fields[g], g, if g < f then rows + [row] else rows, fonts, false);
      if g == f {
        EnteredOk(fields[f], vals', f, rows, row, fonts, fonts', j);
      } else {
        OtherFieldOk(fields[g], g, if g < f then rows + [row] else rows, fonts, fonts', |rows|, f, j);
      }
    }
  }

  lemma {:induction false} GoodPrefixStops(names: seq<string>, n: nat)
    requires n <= |names| && (forall i :: 0 <= i < n ==> IsXLFD(names[i]))
    requires n == |names| || !IsXLFD(names[n])
    ensures GoodPrefix(names) == names[..n]
    decreases n
  {
    if n > 0 {
      GoodPrefixStops(names[1..], n - 1);
    }
  }

  class FontSelector {
    var numFonts: int
    var numBadFonts: int
    const fonts: array<seq<int>>
    var fieldValues: seq<seq<FieldValue>>

    /** The fields of the accepted names, in order of acceptance. */
    ghost var rows: seq<Row>

    ghost predicate Parsed(done: int)
      reads this, fonts
    {
      && IndexOk(fieldValues, rows, fonts[..], false) && EverythingEnabled(fieldValues)
      && |rows| + numBadFonts == done && numBadFonts >= 0
      && numFonts + numBadFonts == fonts.Length
    }

    /** GetFontNames: room for n fonts, no values yet. */
    constructor (n: nat)
      ensures fonts.Length == n && fresh(fonts) && rows == [] && Parsed(0)
    {
      numFonts, numBadFonts := n, 0;
      fonts := new seq<int>[n](_ => seq(FIELD_COUNT, _ => 0));
      fieldValues := seq(FIELD_COUNT, _ => []);
      rows := [];
    }

    /** Look for a value of field f; the result is its index, or the number of values. */
    method FindValue(f: nat, str: Option<string>) returns (j: nat)
      requires f < |fieldValues|
      ensures j <= |fieldValues[f]|
      ensures j < |fieldValues[f]| ==> fieldValues[f][j].str == str
      ensures forall i :: 0 <= i < j ==> fieldValues[f][i].str != str
    {
      j := 0;
      while j < |fieldValues[f]| && fieldValues[f][j].str != str
        invariant j <= |fieldValues[f]|
        invariant forall i :: 0 <= i < j ==> fieldValues[f][i].str != str
      {
        j := j + 1;
      }
    }

    /** Record that font k has the value `str` in field f. */
    method EnterField(f: nat, str: Option<string>, k: nat) returns (j: nat)
      requires f < |fieldValues|
      modifies this`fieldValues
      ensures |fieldValues| == |old(fieldValues)| && Entered(old(fieldValues[f]), fieldValues[f], f, str, k, j)
      ensures fieldValues == old(fieldValues)[f := fieldValues[f]]
    {
      j := FindValue(f, str);
      var vals := fieldValues[f];
      if j == |vals| {
        vals := vals + [FieldValue(f, str, [], true)];
      }
      var v := vals[j];
      assert v.font + [k] == old(if j < |fieldValues[f]| then fieldValues[f][j].font + [k] else [k]);
      vals := vals[j := v.(font := v.font + [k])];
      assert j == |fieldValues[f]| ==> vals[..j] == fieldValues[f] && vals == vals[..j] + [vals[j]];
      fieldValues := fieldValues[f := vals];
    }

    /** Enter the value of one field of font k and note its index in the font's row of the table. */
    method IndexField(f: nat, str: Option<string>, k: nat, ghost row: Row)
      requires k == |rows| < fonts.Length && f < FIELD_COUNT == |row| && str == row[f]
      requires PartialOk(fieldValues, rows, row, fonts[..], f) && EverythingEnabled(fieldValues)
      modifies this`fieldValues, fonts
      ensures PartialOk(fieldValues, rows, row, fonts[..], f + 1) && EverythingEnabled(fieldValues)
    {
      ghost var fields, table := fieldValues, fonts[..];
      assert FieldOk(fields[f], f, rows, table, false);
      var j := EnterField(f, str, k);
      fonts[k] := fonts[k][f := j];
      EnteredPartial(fields, fieldValues[f], rows, row, table, fonts[..], f, j);
    }

    /** Cut one accepted name into its fields and enter it as font k. */
    method ParseName(name: string, k: nat)
      requires IndexOk(fieldValues, rows, fonts[..], false) && EverythingEnabled(fieldValues)
      requires k == |rows| < fonts.Length
      modifies this`fieldValues, this`rows, fonts
      ensures rows == old(rows) + [RowOf(name)]
      ensures IndexOk(fieldValues, rows, fonts[..], false) && EverythingEnabled(fieldValues)
    {
      hide FieldOk, Means, FieldEnd;
      ghost var row := RowOf(name);
      var p := 0;
      for f := 0 to FIELD_COUNT
        invariant p <= |name| && FieldTexts(name, 0, FIELD_COUNT)[f..] == FieldTexts(name, p, FIELD_COUNT - f)
        invariant rows == old(rows) && PartialOk(fieldValues, rows, row, fonts[..], f)
        invariant EverythingEnabled(fieldValues)
      {
        var start := FieldStart(name, p);
        p := FieldEnd(name, start);
        var text := name[start..p];
        assert text == FieldTexts(name, 0, FIELD_COUNT)[f..][0] == FieldText(name, f);
        assert FieldTexts(name, 0, FIELD_COUNT)[f + 1..] == FieldTexts(name, 0, FIELD_COUNT)[f..][1..];
        IndexField(f, if text == "" then None else Some(text), k, row);
      }
      rows := rows + [row];
      forall g | 0 <= g < FIELD_COUNT ensures FieldOk(fieldValues[g], g, rows, fonts[..], false) {
      }
    }

    /** One chunk: the names from start up to end.  The name pointer does not advance past a rejected name. */
    method ParseFontNames(names: seq<string>, start: nat, end: nat)
      requires start <= end <= |names| == fonts.Length && Parsed(start)
      modifies this, fonts
      ensures Parsed(end) && rows == old(rows) + RowsOf(GoodPrefix(names[start..end]))
    {
      hide IndexOk, GoodPrefix, EverythingEnabled;
      var next := start;
      var font := start;
      while font < end
        invariant start <= next <= font <= end && Parsed(font)
        invariant rows == old(rows) + RowsOf(names[start..next])
        invariant forall i :: start <= i < next ==> IsXLFD(names[i])
        invariant next == font || !IsXLFD(names[next])
      {
        var ok := IsXLFDFontName(names[next]);
        if !ok {
          numFonts := numFonts - 1;
          numBadFonts := numBadFonts + 1;
        } else {
          ParseName(names[next], font - numBadFonts);
          assert names[start..next + 1] == names[start..next] + [names[next]];
          next := next + 1;
        }
        font := font + 1;
      }
      GoodPrefixStops(names[start..end], next - start);
      assert names[start..end][..next - start] == names[start..next];
    }
  }
}

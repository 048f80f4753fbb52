/**
 A run of xfontsel: the names are parsed chunk by chunk, scalable fonts are added, the menus are sorted, and then
 values are chosen and dropped in any order.  After every event the set of matching fonts and the enabled menu
 items are those of a filter over the font names.
 */
module FontSession {
  import opened Common
  import opened XlfdName
  import opened FontIndex
  import opened FontChoice
  import opened ScalableFonts
  import opened SortedFields
  import StartUp

  function ChunkEnd(names: seq<string>, p: nat): (end: nat)
    requires p < |names|
    ensures p < end <= |names|
  {
    if |names| - p > StartUp.PARSE_QUANTUM then p + StartUp.PARSE_QUANTUM else |names|
  }

  /** The names taken from position p on when the list is read in chunks of PARSE_QUANTUM. */
  function Accepted(names: seq<string>, p: nat): seq<string>
    requires p <= |names|
    decreases |names| - p
  {
    if p == |names| then [] else GoodPrefix(names[p..ChunkEnd(names, p)]) + Accepted(names, ChunkEnd(names, p))
  }

  /** In every chunk from p on, no rejected name stands before an acceptable one. */
  ghost predicate ChunksLoseNothing(names: seq<string>, p: nat)
    requires p <= |names|
    decreases |names| - p
  {
    p == |names| || (RejectedLast(names[p..ChunkEnd(names, p)]) && ChunksLoseNothing(names, ChunkEnd(names, p)))
  }

  lemma {:induction false} AcceptedIsShorter(names: seq<string>, p: nat)
    requires p <= |names|
    ensures |Accepted(names, p)| <= |GoodNames(names[p..])|
    decreases |names| - p
  {
    if p < |names| {
      var end := ChunkEnd(names, p);
      AcceptedIsShorter(names, end);
      GoodPrefixIsShorter(names[p..end]);
      GoodNamesConcat(names[p..end], names[end..]);
      assert names[p..] == names[p..end] + names[end..];
    }
  }

  lemma SplitEqual<T>(a: seq<T>, b: seq<T>, c: seq<T>, d: seq<T>)
    requires |a| <= |c| && |b| <= |d|
    ensures a + b == c + d <==> a == c && b == d
  {
    if a + b == c + d {
      assert |a + b| == |c + d|;
      assert a == (a + b)[..|a|] && c == (c + d)[..|a|];
      assert b == (a + b)[|a|..] && d == (c + d)[|a|..];
    }
  }

  /** Every acceptable name gets into the index exactly when in no chunk a rejected name stands before an
      acceptable one. */
  lemma {:induction false} AcceptedAreGood(names: seq<string>, p: nat)
    requires p <= |names|
    ensures Accepted(names, p) == GoodNames(names[p..]) <==> ChunksLoseNothing(names, p)
    decreases |names| - p
  {
    if p < |names| {
      var end := ChunkEnd(names, p);
      AcceptedAreGood(names, end);
      AcceptedIsShorter(names, end);
      GoodPrefixIsShorter(names[p..end]);
      ChunkLosesNothing(names[p..end]);
      GoodNamesConcat(names[p..end], names[end..]);
      assert names[p..] == names[p..end] + names[end..];
      SplitEqual(GoodPrefix(names[p..end]), Accepted(names, end), GoodNames(names[p..end]), GoodNames(names[end..]));
    }
  }

  /** A rejected name hides an acceptable one behind it. */
  lemma RejectedHidesGood(bad: string, good: string)
    requires !IsXLFD(bad) && IsXLFD(good)
    ensures Accepted([bad, good], 0) == [] && GoodNames([bad, good]) == [good]
    ensures !IsXLFD("fixed") && IsXLFD("--------------")
  {
    var names := [bad, good];
    assert names[0..2] == names && names[1..] == [good];
    assert Accepted(names, 2) == [] && GoodNames([good][1..]) == [];
  }

  lemma AllGoodChunk(names: seq<string>, p: nat)
    requires p < |names| && forall i :: p <= i < |names| ==> IsXLFD(names[i])
    ensures GoodPrefix(names[p..ChunkEnd(names, p)]) == names[p..ChunkEnd(names, p)]
  {
    GoodPrefixStops(names[p..ChunkEnd(names, p)], ChunkEnd(names, p) - p);
  }

  lemma AllGoodFrom(names: seq<string>, p: nat)
    requires p <= |names|
    ensures GoodNames(names[p..]) == names[p..] <==> forall i :: p <= i < |names| ==> IsXLFD(names[i])
    ensures GoodNames(names[p..]) != names[p..] ==> |GoodNames(names[p..])| < |names[p..]|
  {
    var rest := names[p..];
    AllGoodNames(rest);
    GoodPrefixIsShorter(rest);
    assert forall i :: 0 <= i < |rest| ==> rest[i] == names[p + i];
    assert forall i :: p <= i < |names| ==> names[i] == rest[i - p];
  }

  /** The list is taken as it is exactly when all its names are acceptable. */
  lemma {:induction false} AllGoodAccepted(names: seq<string>, p: nat)
    requires p <= |names|
    ensures Accepted(names, p) == names[p..] <==> forall i :: p <= i < |names| ==> IsXLFD(names[i])
    decreases |names| - p
  {
    hide IsXLFD, GoodNames, GoodPrefix;
    var rest := names[p..];
    AllGoodFrom(names, p);
    AcceptedIsShorter(names, p);
    if p < |names| && GoodNames(rest) == rest {
      AllGoodAccepted(names, ChunkEnd(names, p));
      AllGoodChunk(names, p);
      assert rest == names[p..ChunkEnd(names, p)] + names[ChunkEnd(names, p)..];
    }
  }

  lemma AllSet(bits: seq<bool>)
    requires forall k :: 0 <= k < |bits| ==> bits[k]
    ensures |Members(bits)| == |bits|
  {
    var all: set<int> := UpTo(|bits|);
    assert Members(bits) == all;
  }

  /** Enabling and disabling does not move the filter. */
  lemma FilterIgnoresEnable(rows: seq<Row>, k: nat, current: seq<int>, fields: seq<seq<FieldValue>>,
                            fields': seq<seq<FieldValue>>, scaled: bool)
    requires Rows(rows) && k < |rows| && Choices(current, fields) && |fields'| == FIELD_COUNT
    requires forall f :: 0 <= f < FIELD_COUNT ==> SameButEnable(fields[f], fields'[f])
    ensures Choices(current, fields')
    ensures MatchesAll(rows, k, current, fields, scaled) <==> MatchesAll(rows, k, current, fields', scaled)
  {
    forall f | 0 <= f < FIELD_COUNT && current[f] != NO_CHOICE
      ensures fields'[f][current[f]].str == fields[f][current[f]].str
    {
      assert SameButEnable(fields[f], fields'[f]);
    }
  }

  class Session {
    const index: FontSelector
    const menus: MenuState
    const scaled: bool

    ghost predicate Valid()
      reads this, index, index.fonts, menus, menus.fontInSet
    {
      && index.numFonts == |index.rows| <= index.fonts.Length == menus.fontInSet.Length
      && IndexOk(index.fieldValues, index.rows, index.fonts[..], scaled)
      && Choices(menus.currentFont, index.fieldValues)
      && menus.EnableInv(index)
    }

    /** The bit set is the filter, and the count its size. */
    ghost predicate Filtered()
      reads this, index, index.fonts, menus, menus.fontInSet
      requires Valid()
    {
      && (forall k :: 0 <= k < |index.rows| ==>
            (menus.fontInSet[k] <==> MatchesAll(index.rows, k, menus.currentFont, index.fieldValues, scaled)))
      && menus.matchingFontCount == |menus.Matching(|index.rows|)|
    }

    /** The menu of field f offers exactly the values that leave a font. */
    ghost predicate Offers(f: nat)
      reads this, index, index.fonts, menus, menus.fontInSet
      requires Valid() && f < FIELD_COUNT
    {
      if menus.matchingFontCount == 0 || menus.matchingFontCount == |index.rows| then AllEnabled(index.fieldValues[f])
      else EnabledByFilter(index.fieldValues[f], f, index.rows, menus.currentFont, index.fieldValues, scaled)
    }

    /** The menu of field f, from which a value has just been chosen, stays as it was, unless everything is enabled. */
    ghost predicate Left(f: nat, before: seq<seq<FieldValue>>)
      reads this, index, index.fonts, menus, menus.fontInSet
      requires Valid() && f < FIELD_COUNT
    {
      if menus.matchingFontCount == 0 || menus.matchingFontCount == |index.rows| then AllEnabled(index.fieldValues[f])
      else |before| == FIELD_COUNT && index.fieldValues[f] == before[f]
    }

    constructor (names: seq<string>, scaledFonts: bool, pixelSizes: string, pointSizes: string)
      ensures Valid() && Filtered() && index.rows == RowsOf(Accepted(names, 0))
      ensures forall f :: 0 <= f < FIELD_COUNT ==> Sorted(index.fieldValues[f], Scales(f)) && Offers(f)
      ensures scaled == scaledFonts
      ensures forall f :: 0 <= f < FIELD_COUNT ==>
        Offered(index.fieldValues[f], f, index.rows, scaled, pixelSizes, pointSizes)
    {
      var s := BuildIndex(names, scaledFonts, pixelSizes, pointSizes);
      var m := new MenuState(|names|);
      m.SetCurrentFont(s, scaledFonts);
      AllSet(m.fontInSet[..s.numFonts]);
      index, menus, scaled := s, m, scaledFonts;
    }

    method ResetItems(f: nat)
      requires Valid() && f < FIELD_COUNT
      modifies index`fieldValues
      ensures Valid()
      ensures forall g :: 0 <= g < FIELD_COUNT ==> SameButEnable(old(index.fieldValues)[g], index.fieldValues[g])
    {
      ghost var before := index.fieldValues;
      menus.EnableAllItems(index, f);
      EnableKeepsIndex(before, index.fieldValues, index.rows, index.fonts[..], scaled);
    }

    /** Recompute the set and then the menus for the choices as they stand; `reset` is a field whose items are
        first all enabled. */
    method Refresh(skip: Option<nat>, reset: Option<nat>)
      requires Valid() && (reset.Some? ==> reset.value < FIELD_COUNT)
      requires index != menus as object && index.fonts != menus.fontInSet as object
      modifies index`fieldValues, menus`matchingFontCount, menus`anyDisabled, menus.fontInSet
      ensures Valid() && Filtered() && index.rows == old(index.rows)
      ensures forall g :: 0 <= g < FIELD_COUNT && Some(g) != skip ==> Offers(g)
      ensures forall f :: 0 <= f < FIELD_COUNT ==> SameButEnable(old(index.fieldValues)[f], index.fieldValues[f])
      ensures skip.Some? && skip.value < FIELD_COUNT && reset.None? ==> Left(skip.value, old(index.fieldValues))
    {
      hide MatchesAll, Means, EnabledByFilter, AllEnabled;
      menus.SetCurrentFont(index, scaled);
      ghost var before, bits := index.fieldValues, menus.fontInSet[..];
      if reset.Some? {
        ResetItems(reset.value);
      }
      menus.EnableRemainingItems(index, skip, scaled);
      forall k | 0 <= k < |index.rows|
        ensures menus.fontInSet[k] <==> MatchesAll(index.rows, k, menus.currentFont, index.fieldValues, scaled)
      {
        FilterIgnoresEnable(index.rows, k, menus.currentFont, before, index.fieldValues, scaled);
      }
      forall g | 0 <= g < FIELD_COUNT && Some(g) != skip ensures Offers(g) {
        assert FieldOk(index.fieldValues[g], g, index.rows, index.fonts[..], scaled);
        if menus.matchingFontCount != 0 && menus.matchingFontCount != |index.rows| {
          ListIsFilter(index.fieldValues[g], g, index.rows, index.fonts[..], bits, menus.currentFont,
                       index.fieldValues, scaled);
        }
      }
    }

    /** A value is chosen from the menu of field f. */
    method SelectValue(f: nat, j: nat)
      requires Valid() && f < FIELD_COUNT && j < |index.fieldValues[f]|
      modifies index`fieldValues, menus, menus.fontInSet
      ensures Valid() && Filtered() && menus.currentFont == old(menus.currentFont)[f := j]
      ensures (forall g :: 0 <= g < FIELD_COUNT && g != f ==> Offers(g)) && Left(f, old(index.fieldValues))
      ensures forall g :: 0 <= g < FIELD_COUNT ==> SameButEnable(old(index.fieldValues)[g], index.fieldValues[g])
    {
      menus.currentFont := menus.currentFont[f := j];
      Refresh(Some(f), None);
    }

    /** The choice in field f is dropped. */
    method AnyValue(f: nat)
      requires Valid() && f < FIELD_COUNT
      modifies index`fieldValues, menus, menus.fontInSet
      ensures Valid() && Filtered() && menus.currentFont == old(menus.currentFont)[f := NO_CHOICE]
      ensures forall g :: 0 <= g < FIELD_COUNT ==> Offers(g)
      ensures forall g :: 0 <= g < FIELD_COUNT ==> SameButEnable(old(index.fieldValues)[g], index.fieldValues[g])
    {
      menus.currentFont := menus.currentFont[f := NO_CHOICE];
      Refresh(None, Some(f));
    }
  }

  lemma RowsConcat(head: seq<string>, tail: seq<string>)
    ensures RowsOf(head + tail) == RowsOf(head) + RowsOf(tail)
  {
  }

  /** The rows found so far, and those still to come, are those of the accepted names. */
  ghost predicate ParsedUpTo(rows: seq<Row>, names: seq<string>, p: nat)
    requires p <= |names|
  {
    rows + RowsOf(Accepted(names, p)) == RowsOf(Accepted(names, 0))
  }

  lemma ParseStep(rows: seq<Row>, names: seq<string>, p: nat, end: nat)
    requires p < |names| && ParsedUpTo(rows, names, p)
    requires end == ChunkEnd(names, p)
    ensures ParsedUpTo(rows + RowsOf(GoodPrefix(names[p..end])), names, end)
  {
    RowsConcat(GoodPrefix(names[p..end]), Accepted(names, end));
  }

  /** Parse the whole list, chunk after chunk. */
  method ParseAll(names: seq<string>) returns (s: FontSelector)
    ensures fresh(s) && fresh(s.fonts) && s.fonts.Length == |names| && s.Parsed(|names|)
    ensures s.rows == RowsOf(Accepted(names, 0))
  {
    s := new FontSelector(|names|);
    var start := 0;
    while start < |names|
      invariant start <= |names| == s.fonts.Length && fresh(s) && fresh(s.fonts) && s.Parsed(start)
      invariant ParsedUpTo(s.rows, names, start)
    {
      var end := ChunkEnd(names, start);
      ParseStep(s.rows, names, start, end);
      s.ParseFontNames(names, start, end);
      start := end;
    }
  }

  /** Sorting keeps what a menu has. */
  lemma SortedMenu(vals: seq<FieldValue>, vals': seq<FieldValue>, f: nat, rows: seq<Row>, scaled: bool,
                   pixelSizes: string, pointSizes: string)
    requires InMenuOrder(vals, vals', f) && AllEnabled(vals) && Rows(rows) && f < FIELD_COUNT
    requires Offered(vals, f, rows, scaled, pixelSizes, pointSizes)
    ensures AllEnabled(vals') && Sorted(vals', Scales(f)) && Offered(vals', f, rows, scaled, pixelSizes, pointSizes)
  {
    hide Occurs, SizesFor;
    InMenuOrderEnabled(vals, vals', f);
    var to :| Permuted(vals, vals', to);
    forall str ensures HasValue(vals', str) <==> HasValue(vals, str) {
      PermutedHave(vals, vals', to, str);
    }
  }

  lemma PermutedHave(vals: seq<FieldValue>, vals': seq<FieldValue>, to: seq<int>, str: Option<string>)
    requires Permuted(vals, vals', to)
    ensures HasValue(vals', str) <==> HasValue(vals, str)
  {
    if m :| 0 <= m < |vals| && vals[m].str == str {
      assert vals'[to[m]].str == str;
    }
    if j :| 0 <= j < |vals'| && vals'[j].str == str {
      Covered(to, j);
      var m :| 0 <= m < |to| && to[m] == j;
      assert vals[m].str == str;
    }
  }

  method BuildIndex(names: seq<string>, scaledFonts: bool, pixelSizes: string, pointSizes: string)
      returns (s: FontSelector)
    ensures fresh(s) && fresh(s.fonts) && s.fonts.Length == |names| && s.numFonts == |s.rows| <= |names|
    ensures s.rows == RowsOf(Accepted(names, 0))
    ensures IndexOk(s.fieldValues, s.rows, s.fonts[..], scaledFonts) && EverythingEnabled(s.fieldValues)
    ensures forall f :: 0 <= f < FIELD_COUNT ==> Sorted(s.fieldValues[f], Scales(f))
    ensures forall f :: 0 <= f < FIELD_COUNT ==>
      Offered(s.fieldValues[f], f, s.rows, scaledFonts, pixelSizes, pointSizes)
  {
    hide FieldOk, Offered, Occurs, AllEnabled, Sorted;
    s := ParseAll(names);
    if scaledFonts {
      FixScalables(s, pixelSizes, pointSizes);
    } else {
      forall f | 0 <= f < FIELD_COUNT ensures Offered(s.fieldValues[f], f, s.rows, false, pixelSizes, pointSizes) {
        assert FieldOk(s.fieldValues[f], f, s.rows, s.fonts[..], false);
        OfferedUnscaled(s.fieldValues[f], f, s.rows, s.fonts[..], false, pixelSizes, pointSizes);
      }
    }
    ghost var before := s.fieldValues;
    SortFields(s, scaledFonts);
    forall f | 0 <= f < FIELD_COUNT
      ensures AllEnabled(s.fieldValues[f]) && Sorted(s.fieldValues[f], Scales(f))
      ensures Offered(s.fieldValues[f], f, s.rows, scaledFonts, pixelSizes, pointSizes)
    {
      SortedMenu(before[f], s.fieldValues[f], f, s.rows, scaledFonts, pixelSizes, pointSizes);
    }
  }
}

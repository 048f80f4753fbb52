/**
 Choosing values in xfontsel's menus: the set of matching fonts is found by walking the sorted lists, and the
 menus are enabled from that set.  Both agree with filtering the font names one by one.
 */
module FontChoice {
  import opened Common
  import opened XlfdName
  import opened FontIndex

  const NO_CHOICE := -1

  /** A choice is a value of the field or none. */
  ghost predicate Choices(current: seq<int>, fields: seq<seq<FieldValue>>) {
    && |current| == FIELD_COUNT == |fields|
    && (forall f :: 0 <= f < FIELD_COUNT ==> current[f] == NO_CHOICE || 0 <= current[f] < |fields[f]|)
  }

  /** The brute-force filter: font k matches every chosen value of the first n fields. */
  ghost predicate MatchesFirst(rows: seq<Row>, k: nat, current: seq<int>, fields: seq<seq<FieldValue>>, n: nat,
      scaled: bool)
    requires Rows(rows) && k < |rows| && Choices(current, fields) && n <= FIELD_COUNT
  {
    forall f :: 0 <= f < n && current[f] != NO_CHOICE ==> Means(rows, k, f, fields[f][current[f]].str, scaled)
  }

  ghost predicate MatchesAll(rows: seq<Row>, k: nat, current: seq<int>, fields: seq<seq<FieldValue>>, scaled: bool)
    requires Rows(rows) && k < |rows| && Choices(current, fields)
  {
    MatchesFirst(rows, k, current, fields, FIELD_COUNT, scaled)
  }

  /** Between the fonts before position i, which lie below k, and the font there, there is none on the list. */
  lemma NoneBetween(fonts: seq<int>, i: nat, k: int)
    requires StrictlyIncreasing(fonts) && i < |fonts| && forall j :: j in fonts[..i] ==> j < k
    ensures forall j :: k <= j < fonts[i] ==> j !in fonts
  {
    assert forall j :: 0 <= j < i ==> fonts[j] in fonts[..i];
  }

  method ClearBits(bits: array<bool>, from: nat, to: nat)
    requires from <= to <= bits.Length
    modifies bits
    ensures forall k :: 0 <= k < bits.Length ==> bits[k] == if from <= k < to then false else old(bits[k])
  {
    for fi := from to to
      invariant forall k :: 0 <= k < bits.Length ==> bits[k] == if from <= k < fi then false else old(bits[k])
    {
      bits[fi] := false;
    }
  }

  /** Clear the bits of the fonts that are not on the value's list, in one pass over both. */
  method MarkInvalidFonts(bits: array<bool>, val: FieldValue, numFonts: nat)
    requires StrictlyIncreasing(val.font) && numFonts <= bits.Length
    requires forall k :: k in val.font ==> 0 <= k < numFonts
    modifies bits
    ensures forall k :: 0 <= k < numFonts ==> (bits[k] <==> old(bits[k]) && k in val.font)
    ensures forall k :: numFonts <= k < bits.Length ==> bits[k] == old(bits[k])
  {
    var fi, vi := 0, 0;
    assert forall i :: 0 <= i < |val.font| ==> val.font[i] in val.font;
    while vi < |val.font|
      invariant vi <= |val.font| && 0 <= fi <= numFonts
      invariant forall k :: k in val.font[..vi] ==> k < fi
      invariant forall i :: vi <= i < |val.font| ==> fi <= val.font[i]
      invariant forall k :: 0 <= k < fi ==> (bits[k] <==> old(bits[k]) && k in val.font)
      invariant forall k :: fi <= k < bits.Length ==> bits[k] == old(bits[k])
    {
      var fp := val.font[vi];
      assert fp in val.font;
      NoneBetween(val.font, vi, fi);
      ClearBits(bits, fi, fp);
      fi := fp + 1;
      vi := vi + 1;
    }
    assert val.font[..vi] == val.font;
    ClearBits(bits, fi, numFonts);
  }

  /** The fonts whose bit is set. */
  ghost function Members(bits: seq<bool>): set<int> {
    set k | 0 <= k < |bits| && bits[k]
  }

  lemma MembersStep(bits: seq<bool>, b: bool)
    ensures |Members(bits + [b])| == |Members(bits)| + if b then 1 else 0
  {
    assert Members(bits + [b]) == Members(bits) + if b then {|bits|} else {};
  }

  ghost predicate SameButEnable(a: seq<FieldValue>, b: seq<FieldValue>) {
    |a| == |b| && forall j :: 0 <= j < |a| ==> b[j] == a[j].(enable := b[j].enable)
  }

  /** A value is enabled exactly when its list holds a font of the set. */
  ghost predicate EnabledByList(vals: seq<FieldValue>, bits: seq<bool>) {
    forall j :: 0 <= j < |vals| ==> (vals[j].enable <==> exists k :: k in vals[j].font && 0 <= k < |bits| && bits[k])
  }

  /** A value is enabled exactly when some font matches both the choices made and the value. */
  ghost predicate EnabledByFilter(vals: seq<FieldValue>, f: nat, rows: seq<Row>, current: seq<int>,
                                  fields: seq<seq<FieldValue>>, scaled: bool)
    requires Rows(rows) && Choices(current, fields) && f < FIELD_COUNT
  {
    forall j :: 0 <= j < |vals| ==>
      (vals[j].enable <==>
       exists k ::
         0 <= k < |rows| && MatchesAll(rows, k, current, fields, scaled) && Means(rows, k, f, vals[j].str, scaled))
  }

  lemma EnableKeepsIndex(fields: seq<seq<FieldValue>>, fields': seq<seq<FieldValue>>, rows: seq<Row>,
                         fonts: seq<seq<int>>, scaled: bool)
    requires IndexOk(fields, rows, fonts, scaled) && |fields'| == |fields|
    requires forall f :: 0 <= f < |fields| ==> SameButEnable(fields[f], fields'[f])
    ensures IndexOk(fields', rows, fonts, scaled)
  {
    forall f | 0 <= f < FIELD_COUNT ensures FieldOk(fields'[f], f, rows, fonts, scaled) {
      assert FieldOk(fields[f], f, rows, fonts, scaled) && SameButEnable(fields[f], fields'[f]);
      forall j | 0 <= j < |fields'[f]| ensures ValueOk(fields'[f][j], f, rows, scaled) {
        assert ValueOk(fields[f][j], f, rows, scaled);
      }
      forall k | 0 <= k < |rows| ensures EntryOk(fields'[f], f, rows[k], fonts[k][f]) {
        assert EntryOk(fields[f], f, rows[k], fonts[k][f]);
      }
    }
  }

  /** With a set that equals the filter, enabling by list is enabling by filter. */
  lemma ListIsFilter(vals: seq<FieldValue>, f: nat, rows: seq<Row>, fonts: seq<seq<int>>, bits: seq<bool>,
                     current: seq<int>, fields: seq<seq<FieldValue>>, scaled: bool)
    requires FieldOk(vals, f, rows, fonts, scaled) && Choices(current, fields) && |rows| <= |bits|
    requires forall k :: 0 <= k < |rows| ==> (bits[k] <==> MatchesAll(rows, k, current, fields, scaled))
    requires EnabledByList(vals, bits)
    ensures EnabledByFilter(vals, f, rows, current, fields, scaled)
  {
    forall j | 0 <= j < |vals|
      ensures vals[j].enable <==>
        exists k ::
          0 <= k < |rows| && MatchesAll(rows, k, current, fields, scaled) && Means(rows, k, f, vals[j].str, scaled)
    {
      assert ValueOk(vals[j], f, rows, scaled);
      if vals[j].enable {
        var k :| k in vals[j].font && 0 <= k < |bits| && bits[k];
        assert MatchesAll(rows, k, current, fields, scaled) && Means(rows, k, f, vals[j].str, scaled);
      }
      if k :|
        0 <= k < |rows| && MatchesAll(rows, k, current, fields, scaled) && Means(rows, k, f, vals[j].str, scaled)
      {
        assert k in vals[j].font && bits[k];
      }
    }
  }

  class MenuState {
    const fontInSet: array<bool>
    var currentFont: seq<int>
    var matchingFontCount: int
    var anyDisabled: bool

    constructor (n: nat)
      ensures fontInSet.Length == n && fresh(fontInSet) && !anyDisabled && matchingFontCount == n
      ensures currentFont == seq(FIELD_COUNT, _ => NO_CHOICE)
    {
      fontInSet := new bool[n](_ => true);
      currentFont := seq(FIELD_COUNT, _ => NO_CHOICE);
      matchingFontCount := n;
      anyDisabled := false;
    }

    ghost function Matching(n: nat): set<int>
      reads fontInSet
      requires n <= fontInSet.Length
    {
      Members(fontInSet[..n])
    }

    /** The set part of SetCurrentFont: exactly the fonts that pass the filter stay in the set. */
    method SetCurrentFont(s: FontSelector, ghost scaled: bool)
      requires IndexOk(s.fieldValues, s.rows, s.fonts[..], scaled) && s.numFonts == |s.rows| <= fontInSet.Length
      requires Choices(currentFont, s.fieldValues)
      modifies fontInSet, this`matchingFontCount
      ensures forall k :: 0 <= k < s.numFonts ==>
        (fontInSet[k] <==> MatchesAll(s.rows, k, currentFont, s.fieldValues, scaled))
      ensures matchingFontCount == |Matching(s.numFonts)|
    {
      for f := 0 to s.numFonts
        invariant forall k :: 0 <= k < f ==> fontInSet[k]
      {
        fontInSet[f] := true;
      }
      for f := 0 to FIELD_COUNT
        invariant forall k :: 0 <= k < s.numFonts ==>
          (fontInSet[k] <==> MatchesFirst(s.rows, k, currentFont, s.fieldValues, f, scaled))
      {
        var i := currentFont[f];
        if i != NO_CHOICE {
          var val := s.fieldValues[f][i];
          ghost var before := fontInSet[..];
          assert FieldOk(s.fieldValues[f], f, s.rows, s.fonts[..], scaled);
          assert ValueOk(val, f, s.rows, scaled);
          MarkInvalidFonts(fontInSet, val, s.numFonts);
          forall k | 0 <= k < s.numFonts
            ensures fontInSet[k] <==> MatchesFirst(s.rows, k, currentFont, s.fieldValues, f + 1, scaled)
          {
            assert fontInSet[k] <==> before[k] && Means(s.rows, k, f, val.str, scaled);
          }
        }
      }
      CountMatching(s.numFonts);
    }

    method CountMatching(numFonts: nat)
      requires numFonts <= fontInSet.Length
      modifies this`matchingFontCount
      ensures matchingFontCount == |Matching(numFonts)|
    {
      matchingFontCount := 0;
      for f := 0 to numFonts
        invariant matchingFontCount == |Matching(f)|
      {
        assert fontInSet[..f + 1] == fontInSet[..f] + [fontInSet[f]];
        MembersStep(fontInSet[..f], fontInSet[f]);
        if fontInSet[f] {
          matchingFontCount := matchingFontCount + 1;
        }
      }
    }

    /** Is there a font of the set on the value's list? */
    method AnyInSet(v: FieldValue) returns (found: bool)
      requires forall k :: k in v.font ==> 0 <= k < fontInSet.Length
      ensures found <==> exists k :: k in v.font && 0 <= k < fontInSet.Length && fontInSet[k]
    {
      assert forall i :: 0 <= i < |v.font| ==> v.font[i] in v.font;
      for i := 0 to |v.font|
        invariant forall j :: 0 <= j < i ==> !fontInSet[v.font[j]]
      {
        if fontInSet[v.font[i]] {
          return true;
        }
      }
      return false;
    }

    method EnableItems(s: FontSelector, f: nat)
      requires f < |s.fieldValues|
      requires forall j :: 0 <= j < |s.fieldValues[f]| ==>
        forall k :: k in s.fieldValues[f][j].font ==> 0 <= k < fontInSet.Length
      modifies s`fieldValues
      ensures |s.fieldValues| == |old(s.fieldValues)|
      ensures s.fieldValues == old(s.fieldValues)[f := s.fieldValues[f]]
      ensures SameButEnable(old(s.fieldValues[f]), s.fieldValues[f])
      ensures EnabledByList(s.fieldValues[f], fontInSet[..])
    {
      var vals := s.fieldValues[f];
      for j := 0 to |vals|
        invariant s.fieldValues == old(s.fieldValues) && SameButEnable(s.fieldValues[f], vals)
        invariant EnabledByList(vals[..j], fontInSet[..])
      {
        var found := AnyInSet(vals[j]);
        ghost var done := vals[..j];
        vals := vals[j := vals[j].(enable := found)];
        assert vals[..j + 1] == done + [vals[j]];
      }
      assert vals[..|vals|] == vals;
      s.fieldValues := s.fieldValues[f := vals];
    }

    method EnableAllItems(s: FontSelector, f: nat)
      requires f < |s.fieldValues|
      modifies s`fieldValues
      ensures |s.fieldValues| == |old(s.fieldValues)|
      ensures s.fieldValues == old(s.fieldValues)[f := s.fieldValues[f]]
      ensures SameButEnable(old(s.fieldValues[f]), s.fieldValues[f])
      ensures AllEnabled(s.fieldValues[f])
    {
      var vals := s.fieldValues[f];
      for j := 0 to |vals|
        invariant s.fieldValues == old(s.fieldValues) && SameButEnable(s.fieldValues[f], vals)
        invariant AllEnabled(vals[..j])
      {
        vals := vals[j := vals[j].(enable := true)];
      }
      s.fieldValues := s.fieldValues[f := vals];
    }

    /** Until something is disabled, everything is enabled. */
    ghost predicate EnableInv(s: FontSelector)
      reads this, s
    {
      !anyDisabled ==> EverythingEnabled(s.fieldValues)
    }

    /** After a choice: a value of a visited field is enabled exactly when choosing it leaves a matching font; with
        no matching font, or all of them, everything is enabled.  `skip` is the field just chosen from. */
    method EnableRemainingItems(s: FontSelector, skip: Option<nat>, ghost scaled: bool)
      requires IndexOk(s.fieldValues, s.rows, s.fonts[..], scaled) && s.numFonts == |s.rows| <= fontInSet.Length
      requires EnableInv(s)
      modifies s`fieldValues, this`anyDisabled
      ensures IndexOk(s.fieldValues, s.rows, s.fonts[..], scaled) && EnableInv(s)
      ensures |s.fieldValues| == |old(s.fieldValues)|
      ensures forall f :: 0 <= f < FIELD_COUNT ==> SameButEnable(old(s.fieldValues)[f], s.fieldValues[f])
      ensures matchingFontCount == 0 || matchingFontCount == s.numFonts ==>
        forall f :: 0 <= f < FIELD_COUNT ==> AllEnabled(s.fieldValues[f])
      ensures matchingFontCount != 0 && matchingFontCount != s.numFonts ==>
        && (forall f :: 0 <= f < FIELD_COUNT && Some(f) != skip ==> EnabledByList(s.fieldValues[f], fontInSet[..]))
        && (skip.Some? && skip.value < FIELD_COUNT ==> s.fieldValues[skip.value] == old(s.fieldValues)[skip.value])
    {
      ghost var before, rows, table := s.fieldValues, s.rows, s.fonts[..];
      if matchingFontCount == 0 || matchingFontCount == s.numFonts {
        if anyDisabled {
          for field := 0 to FIELD_COUNT
            invariant |s.fieldValues| == FIELD_COUNT
            invariant forall f :: 0 <= f < FIELD_COUNT ==> SameButEnable(before[f], s.fieldValues[f])
            invariant forall f :: 0 <= f < field ==> AllEnabled(s.fieldValues[f])
          {
            EnableAllItems(s, field);
          }
          anyDisabled := false;
        }
      } else {
        for field := 0 to FIELD_COUNT
          invariant |s.fieldValues| == FIELD_COUNT
          invariant forall f :: 0 <= f < FIELD_COUNT ==> SameButEnable(before[f], s.fieldValues[f])
          invariant forall f :: 0 <= f < FIELD_COUNT && (field <= f || Some(f) == skip) ==>
            s.fieldValues[f] == before[f]
          invariant forall f :: 0 <= f < field && Some(f) != skip ==> EnabledByList(s.fieldValues[f], fontInSet[..])
        {
          if skip != Some(field) {
            assert FieldOk(before[field], field, rows, table, scaled);
            forall j | 0 <= j < |before[field]| ensures ValueOk(before[field][j], field, rows, scaled) {
            }
            EnableItems(s, field);
          }
        }
        anyDisabled := true;
      }
      EnableKeepsIndex(before, s.fieldValues, rows, table, scaled);
    }
  }
}

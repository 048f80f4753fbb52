/**
 XFontName.c: font names of fifteen fields between hyphens, taken apart into a record with an attribute mask and put
 together again.  A field that reads "*" is not attributed.
 */
module FontName {
  import opened Decimal
  import opened XlfdName

  const FIELDS := 15
  const ENCODING := 14
  const MAX_NAME := 255
  const STAR := "*"

  /** A member of the record: a string buffer's contents or an unsigned number. */
  datatype Member = Text(chars: string) | Number(n: nat)

  predicate IsNumber(i: nat) {
    7 <= i <= 10 || i == 12
  }

  /** The size of a field's buffer; numbers are read through a buffer as well. */
  function Size(i: nat): nat {
    if i == 4 then 3 else if i == 11 then 2 else 256
  }

  predicate MemberOk(i: nat, m: Member) {
    if IsNumber(i) then m.Number? && m.n < UNSIGNED
    else m.Text? && |m.chars| < Size(i)
  }

  /** A record whose attributed members are of their fields' kind and size. */
  predicate IsRecord(name: seq<Member>, attributes: seq<bool>) {
    && |name| == |attributes| == FIELDS
    && forall i :: 0 <= i < FIELDS && attributes[i] ==> MemberOk(i, name[i])
  }

  // ---------------------------------------------------------------------------------------
  // Cutting a string at its hyphens, and joining the parts
  // ---------------------------------------------------------------------------------------

  function Join(parts: seq<string>): string
    requires |parts| > 0
  {
    if |parts| == 1 then parts[0] else parts[0] + [DELIM] + Join(parts[1..])
  }

  ghost predicate NoDelims(parts: seq<string>) {
    forall i :: 0 <= i < |parts| ==> DELIM !in parts[i]
  }

  lemma {:induction false} SplitPart(part: string, rest: string)
    requires DELIM !in part
    ensures Split(part) == [part]
    ensures Split(part + [DELIM] + rest) == [part] + Split(rest)
    decreases |part|
  {
    var s := part + [DELIM] + rest;
    if part == "" {
      assert s[1..] == rest;
    } else {
      SplitPart(part[1..], rest);
      assert s[1..] == part[1..] + [DELIM] + rest;
      assert part == [part[0]] + part[1..];
    }
  }

  /** Joining and then cutting gives the parts back. */
  lemma {:induction false} SplitJoin(parts: seq<string>)
    requires |parts| > 0 && NoDelims(parts)
    ensures Split(Join(parts)) == parts
  {
    if |parts| == 1 {
      SplitPart(parts[0], "");
    } else {
      var rest := parts[1..];
      assert forall i :: 0 <= i < |rest| ==> rest[i] == parts[i + 1];
      SplitJoin(rest);
      SplitPart(parts[0], Join(rest));
    }
  }

  lemma JoinGrow(x: char, rest: seq<string>)
    requires |rest| > 0
    ensures Join([[x] + rest[0]] + rest[1..]) == [x] + Join(rest)
  {
    var first, tail := rest[0], rest[1..];
    JoinFirst([x] + first, tail);
    JoinFirst(first, tail);
    assert rest == [first] + tail;
    if tail != [] {
      Associate([x], first, [DELIM] + Join(tail));
    }
  }

  /** Joining a first part and others. */
  lemma JoinFirst(first: string, tail: seq<string>)
    ensures Join([first] + tail) == if tail == [] then first else first + ([DELIM] + Join(tail))
  {
    var parts := [first] + tail;
    assert parts[0] == first && parts[1..] == tail;
    if tail != [] {
      assert first + [DELIM] + Join(tail) == first + ([DELIM] + Join(tail));
    }
  }

  lemma {:induction false} SplitNoDelims(s: string)
    ensures NoDelims(Split(s))
  {
    if s != "" {
      SplitNoDelims(s[1..]);
    }
  }

  /** Cutting and then joining gives the string back. */
  lemma {:induction false} JoinSplit(s: string)
    ensures Join(Split(s)) == s
  {
    if s != "" {
      JoinSplit(s[1..]);
      var rest := Split(s[1..]);
      assert s == [s[0]] + s[1..];
      if s[0] == DELIM {
        assert ([""] + rest)[1..] == rest;
      } else {
        JoinGrow(s[0], rest);
      }
    }
  }

  // ---------------------------------------------------------------------------------------
  // What parsing means
  // ---------------------------------------------------------------------------------------

  /** The text of field i: part i of the string, and nothing once the string has ended. */
  function FieldOf(s: string, i: nat): string {
    if i < |Split(s)| then Split(s)[i] else ""
  }

  /** Nothing is left of the string where field i should start. */
  predicate AtEnd(s: string, i: nat) {
    i >= |Split(s)| || (i == |Split(s)| - 1 && Split(s)[i] == "")
  }

  predicate FieldAccepted(i: nat, t: string) {
    |t| < Size(i) && (IsNumber(i) ==> t == STAR || AllDigits(t))
  }

  /** The strings that parse: only the encoding may be missing, and every field fits. */
  predicate Parses(s: string) {
    forall i :: 0 <= i < FIELDS ==> (i < ENCODING ==> !AtEnd(s, i)) && FieldAccepted(i, FieldOf(s, i))
  }

  function MemberFor(i: nat, t: string): Member
    requires FieldAccepted(i, t) && t != STAR
  {
    if IsNumber(i) then Number(Value(t) % UNSIGNED) else Text(t)
  }

  /** The record and mask a string parses to; members that are not attributed may hold anything. */
  ghost predicate ParsesTo(s: string, name: seq<Member>, attributes: seq<bool>) {
    && Parses(s) && |name| == |attributes| == FIELDS
    && forall i :: 0 <= i < FIELDS ==>
        && attributes[i] == (FieldOf(s, i) != STAR)
        && (attributes[i] ==> name[i] == MemberFor(i, FieldOf(s, i)))
  }

  /** What part i of a name may be: '*' or digits where a number is read, at most two characters for the slant and one
      for the spacing, and at most 255 of any kind elsewhere. */
  predicate PartFits(i: nat, t: string) {
    if i in {7, 8, 9, 10, 12} then |t| <= 255 && (t == "*" || forall j :: 0 <= j < |t| ==> '0' <= t[j] <= '9')
    else if i == 4 then |t| <= 2
    else if i == 11 then |t| <= 1
    else |t| <= 255
  }

  lemma FitsWhenAccepted(i: nat, t: string)
    requires i < FIELDS
    ensures FieldAccepted(i, t) <==> PartFits(i, t)
  {
    if PartFits(i, t) && IsNumber(i) && t != "*" {
      assert AllDigits(t);
    }
    if FieldAccepted(i, t) && IsNumber(i) && t != "*" {
      assert forall j :: 0 <= j < |t| ==> IsDigit(t[j]);
    }
  }

  /** Exactly these names parse: those of fourteen parts, the last one not empty, or of more, whose first fifteen parts
      fit. */
  lemma WhichPartsParse(parts: seq<string>)
    requires |parts| > 0 && NoDelims(parts)
    ensures Parses(Join(parts)) <==>
      && |parts| >= 14 && (|parts| == 14 ==> parts[13] != "")
      && forall i :: 0 <= i < |parts| && i < 15 ==> PartFits(i, parts[i])
  {
    var s := Join(parts);
    SplitJoin(parts);
    forall i | 0 <= i < 15
      ensures FieldAccepted(i, FieldOf(s, i)) <==> i < |parts| ==> PartFits(i, parts[i])
    {
      FitsWhenAccepted(i, FieldOf(s, i));
    }
    if Parses(s) {
      assert !AtEnd(s, 13);
      forall i | 0 <= i < |parts| && i < 15 ensures PartFits(i, parts[i]) {
        assert FieldAccepted(i, FieldOf(s, i));
      }
    }
  }

  /** And this is what such a name parses to. */
  lemma WhatPartsMean(parts: seq<string>, name: seq<Member>, attributes: seq<bool>, i: nat)
    requires |parts| > 0 && NoDelims(parts) && ParsesTo(Join(parts), name, attributes) && i < 15
    ensures i < |parts| ==> (attributes[i] <==> parts[i] != "*")
    ensures i >= |parts| ==> i == 14 && attributes[i] && name[i] == Text("")
    ensures i < |parts| && attributes[i] && i !in {7, 8, 9, 10, 12} ==> name[i] == Text(parts[i])
    ensures i < |parts| && attributes[i] && i in {7, 8, 9, 10, 12} ==>
      AllDigits(parts[i]) && name[i] == Number(Value(parts[i]) % 0x1_0000_0000)
  {
    var s := Join(parts);
    SplitJoin(parts);
    assert FieldAccepted(i, FieldOf(s, i));
    assert i < 14 ==> !AtEnd(s, i);
  }

  // ---------------------------------------------------------------------------------------
  // What formatting means
  // ---------------------------------------------------------------------------------------

  function Written(m: Member, attributed: bool): string {
    if !attributed then STAR
    else match m
      case Text(c) => c
      case Number(n) => Numeral(n)
  }

  function WrittenFields(name: seq<Member>, attributes: seq<bool>): (parts: seq<string>)
    requires |name| == |attributes| == FIELDS
    ensures |parts| == FIELDS
  {
    seq(FIELDS, i requires 0 <= i < FIELDS => Written(name[i], attributes[i]))
  }

  function Formatted(name: seq<Member>, attributes: seq<bool>): string
    requires |name| == |attributes| == FIELDS
  {
    Join(WrittenFields(name, attributes))
  }

  /** A record is written when no attributed text holds a hyphen and all fits. */
  ghost predicate Formats(name: seq<Member>, attributes: seq<bool>) {
    && IsRecord(name, attributes)
    && NoDelims(WrittenFields(name, attributes)) && |Formatted(name, attributes)| <= MAX_NAME
  }

  // ---------------------------------------------------------------------------------------
  // The two undo each other
  // ---------------------------------------------------------------------------------------

  lemma WrittenAccepted(i: nat, m: Member, attributed: bool)
    requires i < FIELDS && (attributed ==> MemberOk(i, m))
    ensures FieldAccepted(i, Written(m, attributed))
    ensures Written(m, attributed) == STAR <==> !attributed || m == Text(STAR)
    ensures Written(m, attributed) != STAR ==> MemberFor(i, Written(m, attributed)) == m
  {
    if attributed && m.Number? {
      UnsignedFits(m.n);
      Unwrapped(m.n);
    }
  }

  /** Parsing a formatted record always succeeds; it gives back every attributed member, except that a text "*" is
      taken for a field without attribute. */
  lemma ParseUndoesFormat(name: seq<Member>, attributes: seq<bool>, name': seq<Member>, attributes': seq<bool>)
    requires Formats(name, attributes)
    ensures Parses(Formatted(name, attributes))
    ensures ParsesTo(Formatted(name, attributes), name', attributes') ==>
      forall i :: 0 <= i < FIELDS ==>
        && attributes'[i] == (attributes[i] && name[i] != Text(STAR))
        && (attributes'[i] ==> name'[i] == name[i])
  {
    var parts, s := WrittenFields(name, attributes), Formatted(name, attributes);
    SplitJoin(parts);
    forall i | 0 <= i < FIELDS
      ensures FieldOf(s, i) == Written(name[i], attributes[i]) && FieldAccepted(i, FieldOf(s, i))
      ensures FieldOf(s, i) == STAR <==> !attributes[i] || name[i] == Text(STAR)
      ensures FieldOf(s, i) != STAR ==> MemberFor(i, FieldOf(s, i)) == name[i]
    {
      WrittenAccepted(i, name[i], attributes[i]);
    }
  }

  /** The mask survives formatting and parsing exactly when no attributed text is "*". */
  lemma MaskSurvives(name: seq<Member>, attributes: seq<bool>, name': seq<Member>, attributes': seq<bool>)
    requires Formats(name, attributes) && ParsesTo(Formatted(name, attributes), name', attributes')
    ensures attributes' == attributes <==> forall i :: 0 <= i < FIELDS && attributes[i] ==> name[i] != Text(STAR)
  {
    ParseUndoesFormat(name, attributes, name', attributes');
    if forall i :: 0 <= i < FIELDS && attributes[i] ==> name[i] != Text(STAR) {
      assert attributes' == attributes;
    }
  }

  /** The strings formatting can give back: fifteen parts, no more than 255 characters, numerals as they are written. */
  predicate IsWritten(s: string) {
    && Delims(s) == FIELDS - 1 && |s| <= MAX_NAME
    && forall i :: 0 <= i < FIELDS && IsNumber(i) ==>
        var t := FieldOf(s, i); t == STAR || (Canonical(t) && Value(t) < UNSIGNED)
  }

  lemma WrittenBack(i: nat, t: string, m: Member)
    requires i < FIELDS && FieldAccepted(i, t) && (t != STAR ==> m == MemberFor(i, t))
    ensures Written(m, t != STAR) == t <==>
      IsNumber(i) ==> t == STAR || (Canonical(t) && Value(t) < UNSIGNED)
  {
    if t != STAR && IsNumber(i) {
      ReadThenWritten(t);
    }
  }

  /** Formatting what a string parsed to gives the string back exactly when it is of the form formatting writes; in
      every other case formatting fails or writes another string. */
  lemma FormatUndoesParse(s: string, name: seq<Member>, attributes: seq<bool>)
    requires ParsesTo(s, name, attributes)
    ensures (Formats(name, attributes) && Formatted(name, attributes) == s) <==> IsWritten(s)
  {
    var parts := WrittenFields(name, attributes);
    forall i | 0 <= i < FIELDS
      ensures parts[i] == FieldOf(s, i) <==>
        IsNumber(i) ==> var t := FieldOf(s, i); t == STAR || (Canonical(t) && Value(t) < UNSIGNED)
    {
      WrittenBack(i, FieldOf(s, i), name[i]);
    }
    if IsWritten(s) {
      assert parts == Split(s);
      JoinSplit(s);
      SplitNoDelims(s);
    }
    if Formats(name, attributes) && Formatted(name, attributes) == s {
      SplitJoin(parts);
    }
  }

  // ---------------------------------------------------------------------------------------
  // Comparing
  // ---------------------------------------------------------------------------------------

  /** The members the mask attributes are the same. */
  predicate Agree(name1: seq<Member>, name2: seq<Member>, attributes: seq<bool>)
    requires |name1| == |name2| == |attributes| == FIELDS
  {
    forall i :: 0 <= i < FIELDS && attributes[i] ==> name1[i] == name2[i]
  }

  method XCompareFontName(name1: seq<Member>, name2: seq<Member>, attributes: seq<bool>) returns (same: bool)
    requires |name1| == |name2| == |attributes| == FIELDS
    ensures same <==> Agree(name1, name2, attributes)
  {
    var i := 0;
    while i < FIELDS
      invariant i <= FIELDS
      invariant forall j :: 0 <= j < i && attributes[j] ==> name1[j] == name2[j]
    {
      if attributes[i] {
        if name1[i] != name2[i] {
          return false;
        }
      }
      i := i + 1;
    }
    return true;
  }

  /** Two records compare as equal under a mask exactly when they are written as the same string under it. */
  lemma SameWhenWrittenTheSame(name1: seq<Member>, name2: seq<Member>, attributes: seq<bool>)
    requires Formats(name1, attributes) && Formats(name2, attributes)
    ensures Agree(name1, name2, attributes) <==> Formatted(name1, attributes) == Formatted(name2, attributes)
  {
    var parts1, parts2 := WrittenFields(name1, attributes), WrittenFields(name2, attributes);
    SplitJoin(parts1);
    SplitJoin(parts2);
    if Agree(name1, name2, attributes) {
      assert parts1 == parts2;
    }
    if parts1 == parts2 {
      forall i | 0 <= i < FIELDS && attributes[i] ensures name1[i] == name2[i] {
        assert parts1[i] == parts2[i];
        SameMember(i, name1[i], name2[i]);
      }
    }
  }

  lemma SameMember(i: nat, m1: Member, m2: Member)
    requires MemberOk(i, m1) && MemberOk(i, m2) && Written(m1, true) == Written(m2, true)
    ensures m1 == m2
  {
    if m1.Number? {
      assert Value(Numeral(m1.n)) == m1.n;
    }
  }
}

/** The pointer walks of XFontName.c, proved to compute what FontName says. */
module FontNameCode {
  import opened Decimal
  import opened XlfdName
  import opened FontName

  // ---------------------------------------------------------------------------------------
  // Where the parser stands
  // ---------------------------------------------------------------------------------------

  /** Where the walk stands when it starts on field i. */
  function Standing(s: string, i: nat): (p: nat)
    ensures p <= |s|
  {
    if i == 0 then 0 else FieldStart(s, FieldEnd(s, Standing(s, i - 1)))
  }

  function TextAt(s: string, p: nat): string
    requires p <= |s|
  {
    s[p..FieldEnd(s, p)]
  }

  /** One field further in the parts. */
  lemma PartsFrom(s: string, p: nat)
    requires p <= |s|
    ensures var q := FieldEnd(s, p);
      Split(s[p..]) == [TextAt(s, p)] + (if q == |s| then [] else Split(s[q + 1..]))
  {
    hide FieldEnd, Split;
    var rest := s[p..];
    SplitAtFieldEnd(rest);
    FieldEndShift(s, p, 0);
    var r := FieldEnd(rest, 0);
    SliceOfSlice(s, p, r);
    assert TextAt(s, p) == rest[..r];
    if r < |rest| {
      SliceOfSlice(s, p, r + 1);
      assert s[FieldEnd(s, p) + 1..] == rest[r + 1..];
    }
  }

  lemma {:induction false} StandingAtPart(s: string, i: nat)
    ensures i < |Split(s)| ==> Split(s[Standing(s, i)..]) == Split(s)[i..]
    ensures i >= |Split(s)| ==> Standing(s, i) == |s|
  {
    hide FieldEnd, Split;
    if i == 0 {
      assert s[0..] == s;
    } else {
      StandingAtPart(s, i - 1);
      if i - 1 < |Split(s)| {
        PartsFrom(s, Standing(s, i - 1));
        assert Split(s)[i - 1..][1..] == Split(s)[i..];
      }
    }
  }

  /** What the walk reads as field i is part i, and it is at the end of the string when nothing is left of it. */
  lemma StandingIsField(s: string, i: nat)
    ensures TextAt(s, Standing(s, i)) == FieldOf(s, i)
    ensures Standing(s, i) == |s| <==> AtEnd(s, i)
  {
    var p := Standing(s, i);
    StandingAtPart(s, i);
    if i < |Split(s)| {
      PartsFrom(s, p);
      JoinSplit(s[p..]);
      assert Split(s)[i..][0] == Split(s)[i];
    }
  }

  // ---------------------------------------------------------------------------------------
  // Parsing
  // ---------------------------------------------------------------------------------------

  /** One field is copied into a buffer of the given size; the walk goes on behind the hyphen. */
  method ExtractStringField(name: string, p: nat, size: nat) returns (ok: bool, q: nat, known: bool, text: string)
    requires p <= |name| && '\0' !in name && size >= 2
    ensures ok <==> p < |name| && |TextAt(name, p)| < size
    ensures ok ==> text == TextAt(name, p) && q == FieldStart(name, FieldEnd(name, p)) && (known <==> text != STAR)
  {
    var buffer := new char[size];
    var k, left := 0, size;
    ok, q, known, text := false, p, false, "";
    if p == |name| {
      return;
    }
    while q < |name| && name[q] != '-' && left > 0
      invariant p <= q <= |name| && k == q - p && left == size - k && 0 <= left
      invariant FieldEnd(name, q) == FieldEnd(name, p)
      invariant buffer[..k] == name[p..q]
    {
      assert FieldEnd(name, q) == FieldEnd(name, q + 1);
      buffer[k] := name[q];
      assert buffer[..k + 1] == buffer[..k] + [name[q]] && name[p..q + 1] == name[p..q] + [name[q]];
      k, q, left := k + 1, q + 1, left - 1;
    }
    if left <= 0 {
      return;
    }
    buffer[k] := '\0';
    assert buffer[..k] == name[p..q];
    assert k > 1 ==> buffer[1] == buffer[..k][1] == name[p..q][1] == name[p + 1];
    known := buffer[0] != '*' || buffer[1] != '\0';
    text := buffer[..k];
    ok := true;
    if q < |name| {
      q := q + 1;
    }
  }

  method ExtractUnsignedField(name: string, p: nat) returns (ok: bool, q: nat, known: bool, result: nat)
    requires p <= |name| && '\0' !in name
    ensures ok <==> p < |name| && |TextAt(name, p)| < 256 && (TextAt(name, p) == STAR || AllDigits(TextAt(name, p)))
    ensures ok ==> q == FieldStart(name, FieldEnd(name, p)) && (known <==> TextAt(name, p) != STAR)
    ensures ok && known ==> result == Value(TextAt(name, p)) % UNSIGNED
  {
    var buf;
    result := 0;
    ok, q, known, buf := ExtractStringField(name, p, 256);
    if !ok || !known {
      return;
    }
    var c := 0;
    while c < |buf|
      invariant c <= |buf| && AllDigits(buf[..c]) && result == Value(buf[..c]) % UNSIGNED
    {
      if !('0' <= buf[c] <= '9') {
        return false, q, known, result;
      }
      var d := buf[c] as int - '0' as int;
      WrappedStep(buf[..c], result, d);
      assert buf[..c + 1][..c] == buf[..c];
      result := (result * 10 + d) % UNSIGNED;
      c := c + 1;
    }
    assert buf[..c] == buf;
  }

  /** Field i, as a string or as a number. */
  method GetField(s: string, p: nat, i: nat) returns (ok: bool, q: nat, known: bool, m: Member)
    requires p <= |s| && '\0' !in s && i < FIELDS
    ensures ok <==> p < |s| && FieldAccepted(i, TextAt(s, p))
    ensures ok ==> q == FieldStart(s, FieldEnd(s, p)) && (known <==> TextAt(s, p) != STAR)
    ensures ok && known ==> m == MemberFor(i, TextAt(s, p))
  {
    if IsNumber(i) {
      var n;
      ok, q, known, n := ExtractUnsignedField(s, p);
      m := Number(n);
    } else {
      var text;
      ok, q, known, text := ExtractStringField(s, p, Size(i));
      m := Text(text);
    }
  }

  /** What is known of field i once it is read. */
  ghost predicate Read(s: string, i: nat, known: bool, m: Member) {
    && (i < ENCODING ==> !AtEnd(s, i)) && FieldAccepted(i, FieldOf(s, i))
    && known == (FieldOf(s, i) != STAR) && (known ==> m == MemberFor(i, FieldOf(s, i)))
  }

  /** At the end of the string the last field is empty. */
  lemma NothingLeft(s: string)
    requires Standing(s, ENCODING) == |s|
    ensures Read(s, ENCODING, true, Text(""))
  {
    hide FieldEnd, Split, Standing;
    StandingIsField(s, ENCODING);
  }

  lemma AllRead(s: string, name: seq<Member>, attributes: seq<bool>)
    requires |name| == |attributes| == FIELDS
    requires forall j :: 0 <= j < FIELDS ==> Read(s, j, attributes[j], name[j])
    ensures ParsesTo(s, name, attributes)
  {
    forall j | 0 <= j < FIELDS
      ensures (j < ENCODING ==> !AtEnd(s, j)) && FieldAccepted(j, FieldOf(s, j))
    {
      assert Read(s, j, attributes[j], name[j]);
    }
  }

  /** The whole name: it succeeds exactly on the strings that parse. */
  method XParseFontName(s: string) returns (ok: bool, name: seq<Member>, attributes: seq<bool>)
    requires '\0' !in s
    ensures ok <==> Parses(s)
    ensures ok ==> ParsesTo(s, name, attributes)
  {
    hide FieldEnd, FieldAccepted, MemberFor, TextAt, FieldOf, AtEnd, ParsesTo;
    var p, known, m := 0, false, Text("");
    name, attributes := [], [];
    var i := 0;
    while i < ENCODING
      invariant i <= ENCODING && p == Standing(s, i) && |name| == |attributes| == i
      invariant forall j :: 0 <= j < i ==> Read(s, j, attributes[j], name[j])
    {
      StandingIsField(s, i);
      ok, p, known, m := GetField(s, p, i);
      if !ok {
        return;
      }
      name, attributes := name + [m], attributes + [known];
      i := i + 1;
    }
    StandingIsField(s, ENCODING);
    if p == |s| {
      m, known := Text(""), true;
      NothingLeft(s);
    } else {
      ok, p, known, m := GetField(s, p, ENCODING);
      if !ok {
        return;
      }
    }
    name, attributes := name + [m], attributes + [known];
    ok := true;
    AllRead(s, name, attributes);
  }

  // ---------------------------------------------------------------------------------------
  // Formatting
  // ---------------------------------------------------------------------------------------

  /** Copies f behind what stands in tmp; a hyphen in a string is refused, in a number there is none. */
  method Put(tmp: array<char>, at: nat, left: int, f: string, number: bool) returns (ok: bool, end: nat, rest: int)
    requires at + left == MAX_NAME && 0 <= left && tmp.Length == MAX_NAME + 1
    requires number ==> DELIM !in f
    modifies tmp
    ensures ok <==> |f| <= left && DELIM !in f
    ensures ok ==> end == at + |f| && rest == left - |f| && tmp[..end] == old(tmp[..at]) + f
  {
    ok, end, rest := false, at, left - |f|;
    if rest < 0 {
      return;
    }
    var k := 0;
    while k < |f|
      invariant k <= |f| && end == at + k && DELIM !in f[..k]
      invariant tmp[..end] == old(tmp[..at]) + f[..k]
    {
      tmp[end] := f[k];
      if f[k] == '-' && !number {
        return;
      }
      k, end := k + 1, end + 1;
    }
    assert f[..k] == f;
    ok := true;
  }

  method PutHyphen(tmp: array<char>, at: nat, left: int) returns (ok: bool, end: nat, rest: int)
    requires at + left == MAX_NAME && 0 <= left && tmp.Length == MAX_NAME + 1
    modifies tmp
    ensures ok <==> 1 <= left
    ensures ok ==> end == at + 1 && rest == left - 1 && tmp[..end] == old(tmp[..at]) + [DELIM]
  {
    ok, end, rest := false, at, left - 1;
    if rest < 0 {
      return;
    }
    tmp[at] := '-';
    ok, end := true, at + 1;
  }

  /** One member, by its attribute and kind. */
  method PutMember(tmp: array<char>, at: nat, left: int, i: nat, m: Member, attributed: bool)
      returns (ok: bool, end: nat, rest: int)
    requires at + left == MAX_NAME && 0 <= left && tmp.Length == MAX_NAME + 1
    requires attributed ==> MemberOk(i, m)
    modifies tmp
    ensures ok <==> |Written(m, attributed)| <= left && DELIM !in Written(m, attributed)
    ensures ok ==> end == at + |Written(m, attributed)| && rest == left - |Written(m, attributed)|
    ensures ok ==> tmp[..end] == old(tmp[..at]) + Written(m, attributed)
  {
    var f := STAR;
    if attributed {
      if IsNumber(i) {
        f := Utoa(m.n, 32);
      } else {
        f := m.chars;
      }
    }
    ok, end, rest := Put(tmp, at, left, f, IsNumber(i));
  }

  /** The parts before part i, each with a hyphen behind it. */
  ghost function Front(parts: seq<string>, i: nat): string
    requires i <= |parts|
  {
    if i == 0 then "" else Front(parts, i - 1) + parts[i - 1] + [DELIM]
  }

  lemma {:induction false} JoinFront(parts: seq<string>, i: nat)
    requires i < |parts|
    ensures Front(parts, i) + Join(parts[i..]) == Join(parts)
    ensures |Front(parts, i)| + |parts[i]| <= |Join(parts)|
    ensures i + 1 < |parts| ==> |Front(parts, i)| + |parts[i]| + 1 <= |Join(parts)|
    ensures i + 1 == |parts| ==> Front(parts, i) + parts[i] == Join(parts)
  {
    if i == 0 {
      assert parts[0..] == parts;
    } else {
      JoinFront(parts, i - 1);
      var before, rest := Front(parts, i - 1), parts[i - 1..];
      assert rest[1..] == parts[i..];
      assert before + (parts[i - 1] + [DELIM] + Join(parts[i..]))
        == before + parts[i - 1] + [DELIM] + Join(parts[i..]);
    }
    assert parts[i..][1..] == parts[i + 1..];
  }

  /** Field i and the hyphen behind it. */
  method PutPart(tmp: array<char>, at: nat, left: int, i: nat, m: Member, attributed: bool, ghost parts: seq<string>)
      returns (ok: bool, end: nat, rest: int)
    requires at + left == MAX_NAME && 0 <= left && tmp.Length == MAX_NAME + 1
    requires attributed ==> MemberOk(i, m)
    requires i + 1 < |parts| && parts[i] == Written(m, attributed) && tmp[..at] == Front(parts, i)
    modifies tmp
    ensures ok ==> DELIM !in parts[i] && 0 <= rest && end + rest == MAX_NAME && tmp[..end] == Front(parts, i + 1)
    ensures !ok ==> DELIM in parts[i] || |Join(parts)| > MAX_NAME
  {
    JoinFront(parts, i);
    ok, end, rest := PutMember(tmp, at, left, i, m, attributed);
    if ok {
      ok, end, rest := PutHyphen(tmp, end, rest);
    }
  }

  /** The string of a record: it is written exactly when it formats. */
  method XFormatFontName(name: seq<Member>, attributes: seq<bool>) returns (ok: bool, s: string)
    requires IsRecord(name, attributes)
    ensures ok <==> Formats(name, attributes)
    ensures ok ==> s == Formatted(name, attributes)
  {
    var tmp := new char[MAX_NAME + 1];
    var at: nat, left: int := 0, MAX_NAME;
    ghost var parts := WrittenFields(name, attributes);
    s := "";
    var i := 0;
    while i < ENCODING
      invariant i <= ENCODING && 0 <= left && at + left == MAX_NAME && tmp[..at] == Front(parts, i)
      invariant forall j :: 0 <= j < i ==> DELIM !in parts[j]
    {
      ok, at, left := PutPart(tmp, at, left, i, name[i], attributes[i], parts);
      if !ok {
        return;
      }
      i := i + 1;
    }
    JoinFront(parts, ENCODING);
    ok, at, left := PutMember(tmp, at, left, ENCODING, name[ENCODING], attributes[ENCODING]);
    if !ok {
      return;
    }
    tmp[at] := '\0';
    s := tmp[..at];
  }
}

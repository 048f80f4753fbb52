/**
 Font names as xfontsel reads them: which names it accepts and how ParseFontNames cuts them into fields,
 against the plain reading "the text between one hyphen and the next".
 */
module XlfdName {
  import opened Common

  const FIELD_COUNT := 14
  const DELIM := '-'

  function Delims(name: string): nat {
    if name == "" then 0 else Delims(name[1..]) + (if name[0] == DELIM then 1 else 0)
  }

  /** IsXLFDFontName counts the hyphens with a walk over the string. */
  predicate IsXLFD(name: string) {
    Delims(name) == FIELD_COUNT
  }

  method IsXLFDFontName(name: string) returns (ok: bool)
    ensures ok <==> IsXLFD(name)
  {
    var f, p := 0, 0;
    while p < |name|
      invariant p <= |name|
      invariant f + Delims(name[p..]) == Delims(name)
    {
      if name[p] == DELIM {
        f := f + 1;
      }
      p := p + 1;
    }
    return f == FIELD_COUNT;
  }

  /** The count is that of the hyphens in the name: an accepted name has fourteen. */
  lemma {:induction false} DelimsAreHyphens(name: string)
    ensures Delims(name) == multiset(name)['-']
    ensures IsXLFD(name) <==> multiset(name)['-'] == 14
  {
    if name != "" {
      DelimsAreHyphens(name[1..]);
      assert name == [name[0]] + name[1..];
    }
  }

  /** The first position at or after p that holds a hyphen or ends the name. */
  function FieldEnd(name: string, p: nat): (q: nat)
    requires p <= |name|
    ensures p <= q <= |name| && (q < |name| ==> name[q] == DELIM) && DELIM !in name[p..q]
    decreases |name| - p
  {
    if p == |name| || name[p] == DELIM then p else FieldEnd(name, p + 1)
  }

  /** Where the field starts when the parser stands at p: one past it, unless the name has ended. */
  function FieldStart(name: string, p: nat): nat
    requires p <= |name|
  {
    if p < |name| then p + 1 else p
  }

  /** The texts ParseFontNames takes for the next n fields when it stands at p. */
  function FieldTexts(name: string, p: nat, n: nat): (texts: seq<string>)
    requires p <= |name|
    ensures |texts| == n
    decreases n
  {
    if n == 0 then []
    else
      var start := FieldStart(name, p);
      var end := FieldEnd(name, start);
      [name[start..end]] + FieldTexts(name, end, n - 1)
  }

  /** The text ParseFontNames takes for field f. */
  function FieldText(name: string, f: nat): string
    requires f < FIELD_COUNT
  {
    FieldTexts(name, 0, FIELD_COUNT)[f]
  }

  /** A field value's string: the null pointer stands for an empty field. */
  function FieldString(name: string, f: nat): Option<string>
    requires f < FIELD_COUNT
  {
    if FieldText(name, f) == "" then None else Some(FieldText(name, f))
  }

  /** The name cut at its hyphens. */
  function Split(name: string): (parts: seq<string>)
    ensures |parts| == Delims(name) + 1
  {
    if name == "" then [""]
    else
      var rest := Split(name[1..]);
      if name[0] == DELIM then [""] + rest else [[name[0]] + rest[0]] + rest[1..]
  }

  lemma {:induction false} SplitAtFieldEnd(name: string)
    ensures var q := FieldEnd(name, 0);
      Split(name) == [name[..q]] + (if q == |name| then [] else Split(name[q + 1..]))
    decreases |name|
  {
    if name == "" || name[0] == DELIM {
    } else {
      var tail := name[1..];
      SplitAtFieldEnd(tail);
      FieldEndShift(name, 1, 0);
      var q := FieldEnd(tail, 0);
      assert name[..q + 1] == [name[0]] + tail[..q];
      if q < |tail| {
        assert name[q + 2..] == tail[q + 1..];
      }
    }
  }

  lemma {:induction false} FieldEndShift(name: string, d: nat, p: nat)
    requires d + p <= |name|
    ensures FieldEnd(name, d + p) == d + FieldEnd(name[d..], p)
    decreases |name| - p
  {
    if d + p == |name| || name[d + p] == DELIM {
    } else {
      FieldEndShift(name, d, p + 1);
    }
  }

  lemma {:induction false} DelimsFieldEnd(name: string)
    ensures Delims(name) == Delims(name[FieldEnd(name, 0)..])
    ensures FieldEnd(name, 0) == |name| ==> Delims(name) == 0
  {
    if name == "" || name[0] == DELIM {
      assert name[0..] == name;
    } else {
      DelimsFieldEnd(name[1..]);
      FieldEndShift(name, 1, 0);
      var q := FieldEnd(name[1..], 0);
      assert name[1..][q..] == name[q + 1..];
    }
  }

  lemma SplitAtHyphen(name: string, p: nat)
    requires p < |name| && name[p] == DELIM
    ensures var parts := Split(name[p..]);
      && parts == [""] + Split(name[p + 1..]) && parts[1] == Split(name[p + 1..])[0]
      && parts[2..] == Split(name[p + 1..])[1..]
  {
    assert name[p..][1..] == name[p + 1..];
  }

  /** The first part, and what is left from the hyphen that ends it. */
  lemma FirstPart(rest: string)
    ensures var q := FieldEnd(rest, 0);
      && Split(rest)[0] == rest[..q]
      && (q < |rest| ==> Split(rest)[1..] == Split(rest[q..])[1..])
      && Delims(rest) == Delims(rest[q..])
  {
    hide FieldEnd, Delims, Split;
    SplitAtFieldEnd(rest);
    DelimsFieldEnd(rest);
    var q := FieldEnd(rest, 0);
    if q < |rest| {
      SplitAtHyphen(rest, q);
      var tail := Split(rest[q + 1..]);
      assert ([rest[..q]] + tail)[1..] == tail && ([""] + tail)[1..] == tail;
    }
  }

  /** One field read from a hyphen: its text is the first part behind the hyphen, and the parser stands at the next. */
  lemma OneField(name: string, p: nat)
    requires p < |name| && name[p] == DELIM
    ensures var q, parts := FieldEnd(name, p + 1), Split(name[p..]);
      && |parts| >= 2 && parts[1] == name[p + 1..q]
      && (q < |name| ==> parts[2..] == Split(name[q..])[1..] && |parts| == 1 + |Split(name[q..])|)
      && (q == |name| ==> |parts| == 2)
  {
    hide FieldEnd, Delims, Split;
    var rest := name[p + 1..];
    SplitAtHyphen(name, p);
    FirstPart(rest);
    FieldEndShift(name, p + 1, 0);
    var r := FieldEnd(rest, 0);
    SliceOfSlice(name, p + 1, r);
    if r == |rest| {
      SplitEmpty(rest[r..]);
    }
  }

  lemma SplitEmpty(name: string)
    requires name == ""
    ensures |Split(name)| == 1
  {
  }

  lemma SliceOfSlice(name: string, p: nat, r: nat)
    requires p + r <= |name|
    ensures name[p..][..r] == name[p..p + r] && name[p..][r..] == name[p + r..]
  {
  }

  /** The first of two lists that agree from there on. */
  lemma SharedTail(parts: seq<string>, rest: seq<string>, n: nat)
    requires 1 <= n < |parts| && (n > 1 ==> n - 1 < |rest| && parts[2..] == rest[1..])
    ensures n == 1 ==> parts[1..2] == [parts[1]]
    ensures n > 1 ==> parts[1..1 + n] == [parts[1]] + rest[1..n]
  {
    assert parts[1..1 + n] == [parts[1]] + parts[2..1 + n];
    if n > 1 {
      assert parts[2..1 + n] == parts[2..][..n - 1] == rest[1..][..n - 1] == rest[1..n];
    }
  }

  /** From a hyphen on, the fields are the parts behind it. */
  lemma {:induction false} FieldsFrom(name: string, p: nat, n: nat)
    requires p < |name| && name[p] == DELIM && n < |Split(name[p..])|
    ensures FieldTexts(name, p, n) == Split(name[p..])[1..1 + n]
    decreases n
  {
    hide Split, FieldEnd;
    if n > 0 {
      var parts := Split(name[p..]);
      OneField(name, p);
      var q := FieldEnd(name, p + 1);
      if n == 1 {
        SharedTail(parts, [], n);
        assert FieldTexts(name, q, 0) == [];
      } else {
        FieldsFrom(name, q, n - 1);
        SharedTail(parts, Split(name[q..]), n);
      }
    }
  }

  /** On an accepted name field f is part f of what follows the first character, whatever that character is. */
  lemma FieldsBehindFirst(name: string, f: nat)
    requires IsXLFD(name) && f < FIELD_COUNT
    ensures name != "" && f < |Split(name[1..])| && FieldText(name, f) == Split(name[1..])[f]
  {
    var rest := name[1..];
    var q, n := FieldEnd(name, 1), FIELD_COUNT - 1;
    FirstPart(rest);
    FieldEndShift(name, 1, 0);
    SliceOfSlice(name, 1, q - 1);
    assert FieldTexts(name, 0, FIELD_COUNT) == [name[1..q]] + FieldTexts(name, q, n);
    assert |Split(rest)| >= 14 && |Split(rest[q - 1..])| == |Split(rest)|;
    assert q < |name|;
    FieldsFrom(name, q, n);
    assert rest[q - 1..] == name[q..];
    assert Split(rest)[1..] == Split(name[q..])[1..];
    assert f > 0 ==> Split(name[q..])[1..1 + n][f - 1] == Split(name[q..])[1..][f - 1];
  }

  /** On an accepted name that starts with a hyphen, field f is the text between hyphen f and the next. */
  lemma FieldsAreParts(name: string, f: nat)
    requires IsXLFD(name) && name[0] == DELIM && f < FIELD_COUNT
    ensures FieldText(name, f) == Split(name)[f + 1]
  {
    assert name[0..] == name;
    FieldsFrom(name, 0, FIELD_COUNT);
  }
}

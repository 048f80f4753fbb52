/**
 xditview's replay file: what is read from an input that cannot be searched is copied to a temporary file, and going
 back to a page reads the copy until it is used up, then the input again.
 */
module ReplayFile {
  import opened Common
  import opened Decimal

  /** What the character EOF becomes when it is written to the replay file. */
  const EOF_BYTE: char := 255 as char

  function Junk(n: nat): string {
    seq(n, _ => EOF_BYTE)
  }

  /** The kinds of characters the lexer reads runs of. */
  datatype Kind = Space | NonSpace | Digit

  predicate Is(kind: Kind, c: char) {
    match kind
    case Space => IsSpace(c)
    case NonSpace => !IsSpace(c)
    case Digit => IsDigit(c)
  }

  /** The longest run of a kind that s begins with. */
  function Leading(kind: Kind, s: string): string {
    if s != "" && Is(kind, s[0]) then [s[0]] + Leading(kind, s[1..]) else ""
  }

  /** What follows the longest run of a kind. */
  function AfterLeading(kind: Kind, s: string): string {
    if s != "" && Is(kind, s[0]) then AfterLeading(kind, s[1..]) else s
  }

  /** The run is all of the kind, and the rest does not begin with one of it. */
  lemma {:induction false} LeadingIs(kind: Kind, s: string)
    ensures s == Leading(kind, s) + AfterLeading(kind, s)
    ensures forall i :: 0 <= i < |Leading(kind, s)| ==> Is(kind, Leading(kind, s)[i])
    ensures AfterLeading(kind, s) != "" ==> !Is(kind, AfterLeading(kind, s)[0])
  {
    if s != "" && Is(kind, s[0]) {
      LeadingIs(kind, s[1..]);
    }
  }

  lemma LeadingStep(kind: Kind, t: string, c: char, rest: string)
    ensures Is(kind, c) ==>
      && t + Leading(kind, [c] + rest) == (t + [c]) + Leading(kind, rest)
      && AfterLeading(kind, [c] + rest) == AfterLeading(kind, rest)
    ensures !Is(kind, c) ==> Leading(kind, [c] + rest) == "" && AfterLeading(kind, [c] + rest) == [c] + rest
  {
    var s := [c] + rest;
    assert s[0] == c && s[1..] == rest;
    if Is(kind, c) {
      assert t + ([c] + Leading(kind, rest)) == (t + [c]) + Leading(kind, rest);
    }
  }

  /** The digits that follow spaces. */
  function NumberText(s: string): (d: string)
    ensures AllDigits(d) && AfterLeading(Space, s) == d + AfterLeading(Digit, AfterLeading(Space, s))
  {
    LeadingIs(Digit, AfterLeading(Space, s));
    Leading(Digit, AfterLeading(Space, s))
  }

  lemma OneDigitMore(d: string, c: char)
    requires AllDigits(d) && IsDigit(c)
    ensures AllDigits(d + [c]) && Value(d + [c]) == Value(d) * 10 + (c as int - '0' as int)
  {
    assert (d + [c])[..|d|] == d;
  }

  /** A stream of input with its replay file.  Pushing back the character just read steps back by one. */
  class Reader {
    const input: string
    const copying: bool
    var filePos: nat
    var tmp: string
    var tmpPos: nat
    var readingTmp: bool
    var ungot: bool

    /** How much of the input has been read from its file, a pushed back character included. */
    ghost function Taken(): nat
      reads this
    {
      if copying && ungot then filePos + 1 else filePos
    }

    /** The replay file is what has been read so far; once the end of the input has been met, it also holds a
        character for every time the end was read.  Outside of replaying it is written at its end. */
    ghost predicate Valid()
      reads this
    {
      && Taken() <= |input|
      && (if copying then
            && Taken() <= |tmp| && tmp == input[..Taken()] + Junk(|tmp| - Taken())
            && (|tmp| > Taken() ==> filePos == |input|)
            && (if readingTmp then tmpPos <= |tmp| else tmpPos == |tmp|)
          else !readingTmp)
    }

    /** The end of the input has not been read yet. */
    ghost predicate BeforeEnd()
      reads this
    {
      copying ==> |tmp| == Taken()
    }

    ghost predicate NothingPushedBack()
      reads this
    {
      copying ==> !ungot
    }

    /** What reading will deliver before the end of the file is reported. */
    ghost function Stream(): string
      reads this
      requires Valid()
    {
      (if readingTmp then tmp[tmpPos..] else "") + input[filePos..]
    }

    /** c is the character read last. */
    ghost predicate JustRead(c: char)
      reads this
    {
      if readingTmp then 0 < tmpPos <= |tmp| && tmp[tmpPos - 1] == c
      else 0 < filePos <= |input| && input[filePos - 1] == c && NothingPushedBack() && BeforeEnd()
    }

    constructor (input: string, copying: bool)
      ensures Valid() && Stream() == input && this.input == input && this.copying == copying
      ensures NothingPushedBack() && BeforeEnd() && Taken() == 0
    {
      this.input, this.copying := input, copying;
      filePos, tmp, tmpPos, readingTmp, ungot := 0, "", 0, false, false;
    }

    method GetFile() returns (c: Option<char>)
      requires filePos <= |input|
      modifies `filePos
      ensures old(filePos) < |input| ==> c == Some(input[old(filePos)]) && filePos == old(filePos) + 1
      ensures old(filePos) == |input| ==> c == None && filePos == old(filePos)
    {
      if filePos == |input| {
        return None;
      }
      filePos := filePos + 1;
      return Some(input[filePos - 1]);
    }

    /** The next character of the input, copied unless it was pushed back. */
    method GetAndPut() returns (c: Option<char>)
      requires Valid() && copying && !readingTmp
      modifies `filePos, `tmp, `tmpPos, `ungot
      ensures Valid() && NothingPushedBack()
      ensures c.Some? ==> old(Stream()) == [c.value] + Stream() && JustRead(c.value)
      ensures c.None? ==> old(Stream()) == Stream() == "" && |tmp| == old(|tmp|) + 1
    {
      if ungot {
        ungot := false;
        c := GetFile();
      } else {
        c := GetFile();
        tmp := tmp + [if c.Some? then c.value else EOF_BYTE];
        tmpPos := tmpPos + 1;
      }
    }

    method GetIn() returns (c: Option<char>)
      requires Valid() && !readingTmp
      modifies `filePos, `tmp, `tmpPos, `ungot
      ensures Valid()
      ensures c.Some? ==> old(Stream()) == [c.value] + Stream() && JustRead(c.value)
      ensures c.None? ==> old(Stream()) == Stream() == ""
    {
      if copying {
        c := GetAndPut();
      } else {
        c := GetFile();
      }
    }

    /** The next character of the stream; the end is reported exactly when the stream is empty. */
    method GetC() returns (c: Option<char>)
      requires Valid()
      modifies this
      ensures Valid()
      ensures c.Some? ==> old(Stream()) == [c.value] + Stream() && JustRead(c.value)
      ensures c.None? ==> old(Stream()) == Stream() == ""
    {
      if readingTmp {
        if tmpPos < |tmp| {
          tmpPos := tmpPos + 1;
          return Some(tmp[tmpPos - 1]);
        }
        tmpPos := |tmp|;
        readingTmp := false;
      }
      c := GetIn();
    }

    /** The character read last is put back. */
    method UngetC(c: char)
      requires Valid() && JustRead(c)
      modifies `filePos, `tmpPos, `ungot
      ensures Valid() && Stream() == [c] + old(Stream()) && (copying ==> Taken() == old(Taken()))
    {
      if readingTmp {
        tmpPos := tmpPos - 1;
      } else {
        ungot := true;
        filePos := filePos - 1;
      }
    }

    /** The position to remember for a page. */
    method Tell() returns (position: nat)
      requires Valid()
      ensures position == (if copying then tmpPos else filePos)
      ensures NothingPushedBack() && BeforeEnd() ==> position <= Taken() && Stream() == input[position..]
    {
      if copying {
        position := tmpPos;
      } else {
        position := filePos;
      }
    }

    /** Going back to a position.  Reading delivers the input from there, without loss or repetition, exactly when
        nothing is pushed back and the end of the input has not been read; otherwise the pushed back character comes
        twice, or the copies of the end follow. */
    method FileSeek(position: nat)
      requires Valid() && position <= Taken()
      modifies `readingTmp, `tmpPos, `filePos
      ensures Valid()
      ensures Stream() == input[position..] <==> NothingPushedBack() && BeforeEnd()
      ensures BeforeEnd() && !NothingPushedBack() ==>
        Stream() == input[position..filePos + 1] + [input[filePos]] + input[filePos + 1..]
      ensures NothingPushedBack() ==> Stream() == input[position..] + (if copying then Junk(|tmp| - Taken()) else "")
    {
      if copying {
        readingTmp := true;
        tmpPos := position;
      } else {
        filePos := position;
      }
    }

    /** All characters of a kind there are, up to the first of another, which is put back. */
    method GetAll(kind: Kind) returns (t: string)
      requires Valid()
      modifies this
      ensures Valid() && t == Leading(kind, old(Stream())) && Stream() == AfterLeading(kind, old(Stream()))
    {
      t := "";
      while true
        invariant Valid() && t + Leading(kind, Stream()) == Leading(kind, old(Stream()))
        invariant AfterLeading(kind, Stream()) == AfterLeading(kind, old(Stream()))
        decreases |Stream()|
      {
        var c := GetC();
        if c.None? {
          break;
        }
        LeadingStep(kind, t, c.value, Stream());
        if !Is(kind, c.value) {
          UngetC(c.value);
          break;
        }
        t := t + [c.value];
      }
    }

    /** A number: after spaces, the digits there are, none counting as 0; the rest of the stream stays. */
    method GetNumber() returns (n: nat)
      requires Valid()
      modifies this
      ensures Valid() && n == Value(NumberText(old(Stream())))
      ensures Stream() == AfterLeading(Digit, AfterLeading(Space, old(Stream())))
    {
      var _ := GetAll(Space);
      n := GetDigits();
    }

    method GetDigits() returns (n: nat)
      requires Valid()
      modifies this
      ensures Valid() && Stream() == AfterLeading(Digit, old(Stream()))
      ensures AllDigits(Leading(Digit, old(Stream()))) && n == Value(Leading(Digit, old(Stream())))
    {
      ghost var d := "";
      n := 0;
      while true
        invariant Valid() && d + Leading(Digit, Stream()) == Leading(Digit, old(Stream()))
        invariant AfterLeading(Digit, Stream()) == AfterLeading(Digit, old(Stream()))
        invariant AllDigits(d) && n == Value(d)
        decreases |Stream()|
      {
        var c := GetC();
        if c.None? {
          break;
        }
        LeadingStep(Digit, d, c.value, Stream());
        if !Is(Digit, c.value) {
          UngetC(c.value);
          break;
        }
        OneDigitMore(d, c.value);
        d := d + [c.value];
        n := n * 10 + (c.value as int - '0' as int);
      }
      assert d + Leading(Digit, Stream()) == d;
    }

    /** A word: after spaces, what comes before the next space or the end; the rest of the stream stays. */
    method GetWord() returns (w: string)
      requires Valid()
      modifies this
      ensures Valid() && w == Leading(NonSpace, AfterLeading(Space, old(Stream())))
      ensures Stream() == AfterLeading(NonSpace, AfterLeading(Space, old(Stream())))
    {
      var _ := GetAll(Space);
      w := GetAll(NonSpace);
    }
  }
}

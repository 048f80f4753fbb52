/** xman's PrintText: the formatter's loop over the text of a manual page, with its buffer, style and position. */
module ManPage {
  import opened Common
  import opened Overstrike
  import opened TextPlaces
  import opened TextStyles

  /** Whether a text consists of capitals and spaces. */
  method Boldify(text: string) returns (bold: bool)
    ensures bold <==> forall i :: 0 <= i < |text| ==> IsCapital(text[i])
  {
    for i := 0 to |text|
      invariant forall j :: 0 <= j < i ==> IsCapital(text[j])
    {
      if !IsUpper(text[i]) && !IsSpace(text[i]) {
        return false;
      }
    }
    return true;
  }

  lemma SameFront<T>(a: seq<T>, b: seq<T>, last: T)
    requires a + [last] == b + [last]
    ensures a == b
  {
    assert a == (a + [last])[..|a|];
    assert b == (b + [last])[..|b|];
  }

  class Printer {
    const height: int
    const text: string
    const width: (char, Style) -> nat
    const blankWidth: nat
    const left: int
    const buf: array<char>
    var n: nat
    var c: nat
    var italic: bool
    var first: bool
    var x: int
    var y: int
    var column: nat
    var out: seq<Event>

    /** Characters have width, the buffer has room, and the position never falls behind the margin. */
    ghost predicate Valid()
      reads this
    {
      && (forall ch, style :: width(ch, style) > 0) && blankWidth > 0
      && n <= buf.Length && c <= |text| && left <= x
    }

    /** The buffered characters. */
    ghost function Pending(): string
      reads this, buf
      requires n <= buf.Length
    {
      buf[..n]
    }

    /** What has been drawn and what the buffer will add in the style at hand. */
    ghost function Inked(): seq<Ink>
      reads this, buf
      requires n <= buf.Length
    {
      Drawn(out) + Shown(buf[..n], Which(italic, false), y)
    }

    /** Nothing of the line has been drawn or skipped: the position is the margin. */
    ghost predicate AtMargin()
      reads this
    {
      x == left
    }

    ghost function Now(): State
      reads this, buf
      requires n <= buf.Length
    {
      State(Inked(), Drawn(out), column + n, n, c, AtMargin(), italic, first)
    }

    ghost function Here(): Place
      reads this, buf
      requires n <= buf.Length
    {
      Place(Lettered(out, width), buf[..n], x)
    }

    ghost function Measures(): Metrics {
      Metrics(left, blankWidth, width)
    }

    method DumpText(t: string, style: Style)
      requires Valid()
      modifies `x, `out
      ensures Valid() && Drawn(out) == old(Drawn(out)) + Shown(t, style, y)
      ensures x >= old(x) && (t != "" ==> x > old(x))
      ensures Lettered(out, width) == old(Lettered(out, width)) + LettersOf(t, style, old(x), y, width)
      ensures x == old(x) + TextWidth(t, style, width)
    {
      DrawnOneMore(out, Event(x, y, t, style));
      LetteredOneMore(out, Event(x, y, t, style), width);
      out := out + [Event(x, y, t, style)];
      x := x + TextWidth(t, style, width);
    }

    /** The buffer is drawn and emptied. */
    method Flush(style: Style)
      requires Valid()
      modifies `x, `out, `column, `n
      ensures Valid() && n == 0 && column == old(column) + old(n)
      ensures Drawn(out) == old(Drawn(out)) + Shown(old(Pending()), style, y)
      ensures x >= old(x) && (old(n) > 0 ==> x > old(x))
      ensures Here() == Emptied(old(Here()), style, y, width)
    {
      DumpText(buf[..n], style);
      column := column + n;
      n := 0;
    }

    method Put(ch: char)
      requires Valid() && n < buf.Length
      modifies `n, buf
      ensures Valid() && n == old(n) + 1 && Pending() == old(Pending()) + [ch]
      ensures Inked() == old(Inked()) + if ch == ' ' then [] else [Ink(ch, Which(italic, false), y)]
      ensures Here() == Typed(old(Here()), ch)
    {
      ShownOneMore(buf[..n], ch, Which(italic, false), y);
      buf[n] := ch;
      n := n + 1;
      assert buf[..n] == old(buf[..n]) + [ch];
    }

    /** A change of font: what the buffer holds is drawn in the style it was read in. */
    method ChangeFont(toItalic: bool)
      requires Valid()
      modifies `x, `out, `column, `n, `italic
      ensures Valid() && italic == toItalic && n <= old(n) && column + n == old(column) + old(n)
      ensures Inked() == old(Inked()) && old(Drawn(out)) <= Drawn(out) <= Inked()
      ensures AtMargin() <==> old(AtMargin()) && (old(italic) == toItalic || old(n) == 0)
      ensures AtMargin() ==> Drawn(out) == old(Drawn(out))
      ensures Here() ==
        if old(italic) == toItalic then old(Here()) else Emptied(old(Here()), Which(old(italic), false), y, width)
    {
      if italic != toItalic {
        if n != 0 {
          Flush(Which(italic, false));
        }
        assert buf[..n] == "";
        italic := toItalic;
      }
    }

    /** A character without style; an italic run before it ends. */
    method PlainChar(ghost ch: char)
      requires Valid() && n < buf.Length && c < |text| && text[c] == ch != ' '
      modifies `x, `out, `column, `n, `italic, `c, buf
      ensures Valid() && Read(old(Now()), Now(), false, [Ink(ch, NORMAL, y)], 1) && buf[n - 1] == ch
      ensures Here() == TypedIn(old(Here()), old(italic), false, ch, y, width)
    {
      hide Lettered, LettersOf, TextWidth, Emptied, Typed, Drawn, Shown;
      ChangeFont(false);
      Put(text[c]);
      assert buf[n - 1] == buf[..n][n - 1];
      c := c + 1;
    }

    /** An underscore struck over: an italic run begins or goes on. */
    method UnderlinedChar(ghost ch: char)
      requires Valid() && n < buf.Length && c + 2 < |text| && text[c] == '_' && text[c + 1] == BACKSPACE
      requires text[c + 2] == ch != ' '
      modifies `x, `out, `column, `n, `italic, `c, buf
      ensures Valid() && Read(old(Now()), Now(), true, [Ink(ch, ITALIC, y)], 3)
      ensures Here() == TypedIn(old(Here()), old(italic), true, ch, y, width)
    {
      hide Lettered, LettersOf, TextWidth, Emptied, Typed, Drawn, Shown;
      ChangeFont(true);
      c := c + 2;
      Put(text[c]);
      c := c + 1;
    }

    /** The character read last leaves the buffer, what is left there is drawn, and then the character in bold. */
    method Embolden(ghost before: seq<Ink>, ghost ch: char)
      requires Valid() && 0 < n && !italic && buf[n - 1] == ch != ' ' && c + 1 < |text| && text[c + 1] == ch
      requires Inked() == before + [Ink(ch, NORMAL, y)]
      modifies `x, `out, `column, `n, buf
      ensures Valid() && n == 0 && column == old(column) + old(n) && x > left
      ensures Drawn(out) == before + [Ink(ch, BOLD, y)] && StruckOn(old(Here()), Here(), ch, y, width)
    {
      hide Shown, Drawn, Lettered, LettersOf, TextWidth, Emptied, Typed;
      ghost var h := Here();
      assert h.pending[n - 1] == buf[n - 1];
      Unput(before, ch);
      ghost var h0 := Here();
      Flush(Which(italic, false));
      assert Here() == Emptied(h0, Which(italic, false), y, width);
      assert Drawn(out) == before;
      DrawBold(text[c + 1]);
    }

    /** A character struck over itself: it is drawn in bold, and the other strikes are skipped. */
    method BoldChar(ghost before: seq<Ink>, ghost ch: char, ghost strikes: nat)
      requires Valid() && 0 < n && !italic && buf[n - 1] == ch != ' ' && strikes > 0
      requires 0 < c && text[c - 1] == ch && Struck(text, c, ch, strikes)
      requires Inked() == before + [Ink(ch, NORMAL, y)]
      modifies `x, `out, `column, `n, `first, `c, buf
      ensures Valid() && c == old(c) + 2 * strikes && n == 0 && column == old(column) + old(n) && !first
      ensures Inked() == Drawn(out) == before + [Ink(ch, BOLD, y)] && x > left
      ensures StruckOn(old(Here()), Here(), ch, y, width)
    {
      hide Drawn, Lettered, StruckOn;
      Embolden(before, ch);
      first := false;
      SkipStrikes(ch, strikes);
      assert buf[..n] == "";
    }

    method SkipStrikes(ghost ch: char, ghost strikes: nat)
      requires 0 < c <= |text| && text[c - 1] == ch && Struck(text, c, ch, strikes)
      modifies `c
      ensures c == old(c) + 2 * strikes && c < |text|
    {
      ghost var m: nat := strikes;
      while text[c] == BACKSPACE && text[c - 1] == text[c + 1]
        invariant m <= strikes && c == old(c) + 2 * (strikes - m) && c < |text|
        invariant text[c - 1] == ch && Struck(text, c, ch, m)
        decreases m
      {
        c := c + 2;
        m := m - 1;
      }
    }

    /** The character put last is taken out of the buffer. */
    method Unput(ghost before: seq<Ink>, ghost ch: char)
      requires Valid() && 0 < n && buf[n - 1] == ch != ' ' && !italic
      requires Inked() == before + [Ink(ch, NORMAL, y)]
      modifies `n
      ensures Valid() && n == old(n) - 1 && Inked() == before
      ensures Here() == old(Here()).(pending := old(Pending())[..n])
    {
      ShownOneMore(buf[..n - 1], ch, NORMAL, y);
      assert buf[..n] == buf[..n - 1] + [ch];
      SameFront(Drawn(out) + Shown(buf[..n - 1], NORMAL, y), before, Ink(ch, NORMAL, y));
      n := n - 1;
    }

    /** One character by itself in bold. */
    method DrawBold(ch: char)
      requires Valid() && n == 0 && buf.Length > 0 && ch != ' '
      modifies `x, `out, `column, `n, buf
      ensures Valid() && n == 0 && column == old(column) + 1 && x > old(x)
      ensures Drawn(out) == old(Drawn(out)) + [Ink(ch, BOLD, y)]
      ensures Here() == Emptied(Typed(old(Here()), ch), BOLD, y, width)
    {
      ShownOneMore("", ch, BOLD, y);
      buf[0] := ch;
      n := 1;
      assert buf[..n] == "" + [ch];
      Flush(BOLD);
    }

    /** The position behind a number of blank columns from the margin. */
    method Jump()
      requires Valid() && column > 0
      modifies `x, `italic
      ensures Valid() && !italic && x == left + blankWidth * column && x > left
    {
      italic := false;
      x := left;
      x := x + blankWidth * column;
      assert blankWidth * column > 0;
    }

    /** The buffer is drawn before columns are skipped; in the first line of a page in bold. */
    method FlushBeforeSkip(k: nat)
      requires Valid() && column + n + k > 0
      modifies `x, `out, `column, `n, `italic
      ensures Valid() && n == 0 && !italic && column == old(column + n) + k
      ensures x == left + blankWidth * column && x > left
      ensures Inked() == Drawn(out) && old(Drawn(out)) <= Drawn(out) && Agree(!first, Inked(), old(Inked()))
      ensures Here() == Skipped(old(Here()), Which(old(italic), first), column, y, Measures())
    {
      hide Shown, Restyled, Marks, Drawn;
      ShownInStyles(buf[..n], Which(italic, false), BOLD, y);
      NothingShown(NORMAL, y);
      MarksConcat(Drawn(out), Shown(buf[..n], Which(italic, false), y));
      MarksConcat(Drawn(out), Shown(buf[..n], BOLD, y));
      Flush(Which(italic, first));
      column := column + k;
      Jump();
      assert buf[..n] == "" && Drawn(out) + [] == Drawn(out);
    }

    method TabStop()
      requires Valid() && c < |text|
      modifies `x, `out, `column, `n, `italic, `c
      ensures Valid() && Redrawn(old(Now()), Now()) && x == left + blankWidth * column && !italic
      ensures c == old(c) + 1 && column == old(column + n) + 8 - old(column + n) % 8
      ensures Here() == Skipped(old(Here()), Which(old(italic), first), column, y, Measures())
    {
      FlushBeforeSkip(8 - (column + n) % 8);
      c := c + 1;
    }

    /** A space: one of fewer than four is text, a run of four or more is skipped as blank columns. */
    method Blank(ghost m: nat)
      requires Valid() && n < buf.Length && m > 0 && c + m < |text| && text[c + m] != ' '
      requires forall j :: c <= j < c + m ==> text[j] == ' '
      modifies `x, `out, `column, `n, `italic, `c, buf
      ensures Valid()
      ensures m < 4 ==>
        Now() == old(Now()).(column := old(column + n) + 1, buffered := old(n) + 1, c := old(c) + 1)
        && Here() == Typed(old(Here()), ' ')
      ensures m >= 4 ==>
        && Redrawn(old(Now()), Now()) && x == left + blankWidth * column && !italic
        && c == old(c) + m && column == old(column + n) + m
        && Here() == Skipped(old(Here()), Which(old(italic), first), column, y, Measures())
    {
      var h := c + 1;
      while text[h] == ' '
        invariant c < h <= c + m
        decreases c + m - h
      {
        assert h < c + m;
        h := h + 1;
      }
      assert h == c + m;
      if h - c < 4 {
        assert Inked() + [] == Inked();
        Put(text[c]);
        c := c + 1;
        return;
      }
      FlushBeforeSkip(h - c);
      c := h;
    }

    // -------------------------------------------------------------------------------------
    // A line
    // -------------------------------------------------------------------------------------

    /** The loop is at glyph i of a line. */
    ghost predicate InLine(l: Line, i: nat, mid: nat, line: seq<Ink>)
      reads this, buf
    {
      && Valid() && LineFits(l.gs, buf.Length - 10) && HoldsLine(text, l.start, l.gs)
      && l.y == y && At(l, i, mid, line, Now())
      && (mid > 0 && l.gs[i].Bold? ==> !italic && n > 0 && buf[n - 1] == l.gs[i].ch)
      && PlacedAt(Here(), l.letters, l.gs, i, mid, Measures())
      && StyledAt(Here(), italic, l.letters, l.gs, i, mid, l.top, l.first)
    }

    /** Any other character, whether or not it will be struck over. */
    method OnDefault(ghost l: Line, ghost i: nat, ghost line: seq<Ink>)
        returns (ghost j: nat, ghost k: nat, ghost line': seq<Ink>)
      requires InLine(l, i, 0, line) && i < |l.gs| && (l.gs[i].Plain? || l.gs[i].Bold?)
      modifies `x, `out, `column, `n, `italic, `c, buf
      ensures InLine(l, j, k, line') && c > old(c)
    {
      hide At, HoldsLine, Cells, Offset, PlacedAt, StyledAt, TypedIn, Lettered;
      PlaceAndRoom(l, i, 0, line, Now());
      RoomFor(l.gs, i, 0);
      GlyphAhead(text, l.start, l.gs, i, 0);
      ghost var s, h, was := Now(), Here(), italic;
      PlainChar(l.gs[i].ch);
      StyledChar(h, was, false, l.letters, l.gs, i, l.top, l.first, y, width);
      if l.gs[i].Plain? {
        line' := AfterChar(l, i, line, s, Now());
        PlacedChar(h, was, false, l.letters, l.gs, i, y, Measures());
        j, k := i + 1, 0;
      } else {
        AfterFirstStrike(l, i, line, s, Now());
        PlacedChar(h, was, false, l.letters, l.gs, i, y, Measures());
        j, k, line' := i, 1, line;
      }
    }

    method OnUnderscore(ghost l: Line, ghost i: nat, ghost line: seq<Ink>) returns (ghost line': seq<Ink>)
      requires InLine(l, i, 0, line) && i < |l.gs| && l.gs[i].Underlined?
      modifies `x, `out, `column, `n, `italic, `c, buf
      ensures InLine(l, i + 1, 0, line') && c > old(c)
    {
      hide At, HoldsLine, Cells, Offset, PlacedAt, StyledAt, TypedIn, Lettered;
      PlaceAndRoom(l, i, 0, line, Now());
      RoomFor(l.gs, i, 0);
      UnderscoreAhead(text, l.start, l.gs, i, c);
      ghost var s, h, was := Now(), Here(), italic;
      UnderlinedChar(l.gs[i].ch);
      PlacedChar(h, was, true, l.letters, l.gs, i, y, Measures());
      StyledChar(h, was, true, l.letters, l.gs, i, l.top, l.first, y, width);
      line' := AfterChar(l, i, line, s, Now());
    }

    method OnBackspace(ghost l: Line, ghost i: nat, ghost line: seq<Ink>) returns (ghost line': seq<Ink>)
      requires InLine(l, i, 1, line) && i < |l.gs| && l.gs[i].Bold?
      modifies `x, `out, `column, `n, `first, `c, buf
      ensures InLine(l, i + 1, 0, line') && c > old(c)
    {
      hide PlacedAt, StyledAt, StruckOn, Lettered;
      ghost var s, h, was := Now(), Here(), italic;
      ghost var before, ch, m := Striking(text, l, i, line, s);
      BoldChar(before, ch, m);
      PlacedStrikes(h, Here(), l.letters, l.gs, i, y, Measures());
      StyledStrikes(h, Here(), l.letters, l.gs, i, l.top, l.first, y, width);
      line' := AfterStrikes(l, i, line, before, s, Now());
    }

    method OnTab(ghost l: Line, ghost i: nat, ghost line: seq<Ink>) returns (ghost line': seq<Ink>)
      requires InLine(l, i, 0, line) && i < |l.gs| && l.gs[i].Tab? && (l.top ==> first)
      modifies `x, `out, `column, `n, `italic, `c
      ensures InLine(l, i + 1, 0, line') && c > old(c)
    {
      hide At, LineOk, HoldsLine, Offset, Redrawn, PlacedAt, StyledAt, Skipped, Lettered;
      PlaceAndRoom(l, i, 0, line, Now());
      NextAhead(text, l.start, l.gs, i);
      ghost var s, h := Now(), Here();
      TabStop();
      line' := GapSkipped(l, i, line, s, Now(), h, column, Measures());
    }

    method OnSpace(ghost l: Line, ghost i: nat, ghost mid: nat, ghost line: seq<Ink>)
        returns (ghost j: nat, ghost k: nat, ghost line': seq<Ink>)
      requires InLine(l, i, mid, line) && i < |l.gs| && l.gs[i].Gap? && mid < l.gs[i].n && (l.top ==> first)
      modifies `x, `out, `column, `n, `italic, `c, buf
      ensures InLine(l, j, k, line') && c > old(c)
    {
      hide At, LineOk, HoldsLine, Cells, Offset, PlacedAt, StyledAt, Skipped, Typed, Lettered, Redrawn, Drawn;
      PlaceAndRoom(l, i, mid, line, Now());
      RoomFor(l.gs, i, mid);
      SpacesAhead(text, l.start, l.gs, i, mid, c);
      ghost var s, h := Now(), Here();
      Blank(l.gs[i].n - mid);
      if l.gs[i].n - mid < 4 {
        j, k := SpaceTyped(l, i, mid, line, s, Now(), h, Measures());
        line' := line;
      } else {
        line' := GapSkipped(l, i, line, s, Now(), h, column, Measures());
        j, k := i + 1, 0;
      }
    }

    /** Every turn of the loop begins with the test for the first line of a page. */
    method StartTurn(currentLine: nat, ghost l: Line, ghost i: nat, ghost mid: nat, ghost line: seq<Ink>)
      requires InLine(l, i, mid, line) && l.top == (currentLine % NLINES == 0)
      modifies `first
      ensures Here() == old(Here())
      ensures InLine(l, i, mid, line) && first == (old(first) || l.top)
    {
      hide At, PlacedAt, StyledAt, Lettered, Drawn, HoldsLine, LineFits, Shown;
      ghost var s := Now();
      if currentLine % NLINES == 0 {
        first := true;
        OnTop(l, i, mid, line, s);
      }
    }

    /** One turn of the loop. */
    method Step(currentLine: nat, ghost l: Line, ghost i: nat, ghost mid: nat, ghost line: seq<Ink>)
        returns (ghost j: nat, ghost k: nat, ghost line': seq<Ink>)
      requires InLine(l, i, mid, line) && c < |text| && text[c] != '\n' && l.top == (currentLine % NLINES == 0)
      modifies `x, `out, `column, `n, `italic, `first, `c, buf
      ensures InLine(l, j, k, line') && old(c) < c < |text| && (text[c] == '\n' <==> j == |l.gs|)
    {
      hide PlacedAt, StyledAt, Lettered, Drawn, Shown, Laid, Partial, HoldsLine, Offset, Cells, Column, Target, NoBold,
        Agree;
      StartTurn(currentLine, l, i, mid, line);
      WhetherAtEnd(text, l, i, mid, line, Now());
      WhichGlyph(text, l.start, l.gs, i, mid, c);
      if text[c] == '\t' {
        line' := OnTab(l, i, line);
        j, k := i + 1, 0;
      } else if text[c] == ' ' {
        j, k, line' := OnSpace(l, i, mid, line);
      } else if text[c] == BACKSPACE {
        line' := OnBackspace(l, i, line);
        j, k := i + 1, 0;
      } else if text[c] == '_' {
        line' := OnUnderscore(l, i, line);
        j, k := i + 1, 0;
      } else {
        j, k, line' := OnDefault(l, i, line);
      }
      WhetherAtEnd(text, l, j, k, line', Now());
    }

    /** The loop up to the end of a line. */
    method ReadLine(currentLine: nat, ghost l: Line) returns (ghost line: seq<Ink>)
      requires InLine(l, 0, 0, []) && l.top == (currentLine % NLINES == 0)
      modifies `x, `out, `column, `n, `italic, `first, `c, buf
      ensures InLine(l, |l.gs|, 0, line) && c < |text| && text[c] == '\n'
    {
      ghost var i: nat, mid: nat := 0, 0;
      line := [];
      WhetherAtEnd(text, l, i, mid, line, Now());
      while text[c] != '\n'
        invariant InLine(l, i, mid, line) && c < |text| && (text[c] == '\n' <==> i == |l.gs|)
        decreases |text| - c
      {
        i, mid, line := Step(currentLine, l, i, mid, line);
      }
      assert i == |l.gs| && mid == 0;
    }

    /** The turn at the end of the line: the rest of it is drawn, in bold in a heading or the first line of a page. */
    method EndLine(currentLine: nat, ghost l: Line, ghost line: seq<Ink>)
        returns (ghost ink: seq<Ink>, ghost ls: seq<Letter>)
      requires InLine(l, |l.gs|, 0, line) && l.top == (currentLine % NLINES == 0)
      modifies `x, `out, `first
      ensures Valid() && Drawn(out) == l.base + ink && LineShows(ink, l.gs, l.top, l.first, l.y)
      ensures Lettered(out, width) == l.letters + ls && LinePlaced(ls, Spots(l.gs, |l.gs|), Measures())
      ensures LineStyled(ls, Owners(l.gs, |l.gs|), l.gs, l.top, l.first)
      ensures first == FirstAfter(l.gs, l.top, l.first)
    {
      hide At, LineShows, FirstAfter, Shown, HoldsLine, LineFits, IsCapital, PlacedAt, Lettered, LinePlaced, Spots,
        StyledAt, LineStyled, Owners, NoBold, IsHeading, LettersOf, TextWidth;
      StartTurn(currentLine, l, |l.gs|, 0, line);
      FirstAtEnd(l, line, Now());
      ghost var s, h, pending := Now(), Here(), buf[..n];
      var bold := false;
      NothingShown(Which(italic, false), y);
      if n != 0 {
        var caps := Boldify(buf[..n]);
        bold := first || (x == left && caps);
        DumpText(buf[..n], Which(italic, bold));
        if bold {
          first := false;
        }
      }
      ls := PlacedAtEnd(h, l.letters, l.gs, Which(italic, bold), y, Measures());
      FirstHere(l, |l.gs|, 0, line, s);
      HeadingAtEnd(l, line, s, pending, Which(italic, false));
      LettersStyle(h.pending, Which(italic, bold), h.x, y, width);
      assert n == 0 ==> h.letters + LettersOf(h.pending, Which(italic, bold), h.x, y, width) == h.letters;
      StyledAtEnd(h, italic, bold, l.letters, l.gs, l.top, l.first, y, width, ls);
      ink := AfterLine(l, line, s, pending, Which(italic, false), bold, Drawn(out));
    }

    /** All lines above line n on its page are empty. */
    ghost predicate NothingAbove(topLine: seq<nat>, n: nat)
      requires n < |topLine| && forall i :: 0 <= i < |topLine| ==> topLine[i] < |text|
    {
      forall i :: n - n % NLINES <= i < n ==> text[topLine[i]] == '\n'
    }

    /** Printing starts in the first line of a page unless a line above it on the page is not empty. */
    method OnFirstLine(topLine: seq<nat>, startLine: nat) returns (r: bool)
      requires startLine < |topLine| && forall i :: 0 <= i < |topLine| ==> topLine[i] < |text|
      ensures r <==> NothingAbove(topLine, startLine)
    {
      var h := 1;
      while h <= startLine % NLINES
        invariant 1 <= h <= startLine % NLINES + 1
        invariant forall i :: startLine - h < i < startLine ==> text[topLine[i]] == '\n'
      {
        if text[topLine[startLine - h]] != '\n' {
          return false;
        }
        h := h + 1;
      }
      return true;
    }

    /** The line at hand, from the margin on. */
    method PrintLine(currentLine: nat, ghost gs: seq<Glyph>) returns (ghost ink: seq<Ink>, ghost ls: seq<Letter>)
      requires Valid() && n == 0 && column == 0 && x == left && !italic
      requires LineFits(gs, buf.Length - 10) && HoldsLine(text, c, gs)
      modifies `x, `out, `column, `n, `italic, `first, `c, buf
      ensures Valid() && c < |text| && c + 1 == old(c) + |LineFrom(gs, 0)|
      ensures Drawn(out) == old(Drawn(out)) + ink
      ensures LineShows(ink, gs, currentLine % NLINES == 0, old(first), y)
      ensures Lettered(out, width) == old(Lettered(out, width)) + ls && LinePlaced(ls, Spots(gs, |gs|), Measures())
      ensures LineStyled(ls, Owners(gs, |gs|), gs, currentLine % NLINES == 0, old(first))
      ensures first == FirstAfter(gs, currentLine % NLINES == 0, old(first))
    {
      ghost var l := Line(gs, c, y, Drawn(out), Lettered(out, width), first, currentLine % NLINES == 0);
      assert buf[..n] == "" && l.base + [] == l.base;
      AtTheBeginning(l, Now());
      PlacedAtStart(l.letters, gs, Measures());
      StyledAtStart(l.letters, left, gs, l.top, l.first);
      ghost var line := ReadLine(currentLine, l);
      LineLength(gs);
      ink, ls := EndLine(currentLine, l, line);
    }

    /** Line k of the page, below those that `above` shows. */
    method PrintNext(currentLine: nat, ghost page: seq<seq<Glyph>>, ghost n0: nat, ghost first0: bool, ghost y0: int,
        ghost k: nat, ghost above: seq<Ink>, ghost lettersAbove: seq<Letter>)
        returns (ghost ink: seq<Ink>, ghost ls: seq<Letter>)
      requires Valid() && n == 0 && column == 0 && x == left && !italic
      requires k < |page| && currentLine == n0 + k && HoldsPage(text, c, page[k..]) && AllFit(page, buf.Length - 10)
      requires y == LineY(y0, height, k) && first == FirstAt(page, n0, first0, k)
      requires PageShows(above, page, n0, first0, y0, height, k) && PagePlaced(lettersAbove, page, k, Measures())
      requires PageStyled(lettersAbove, page, n0, first0, k)
      modifies `x, `out, `column, `n, `italic, `first, `c, buf
      ensures Valid() && c < |text| && HoldsPage(text, c + 1, page[k + 1..])
      ensures Drawn(out) == old(Drawn(out)) + ink && PageShows(above + ink, page, n0, first0, y0, height, k + 1)
      ensures Lettered(out, width) == old(Lettered(out, width)) + ls
      ensures PagePlaced(lettersAbove + ls, page, k + 1, Measures())
      ensures PageStyled(lettersAbove + ls, page, n0, first0, k + 1)
      ensures y + height == LineY(y0, height, k + 1) && first == FirstAt(page, n0, first0, k + 1)
    {
      hide LineShows, PageShows, FirstAt, FirstAfter, LineY, HoldsPage, HoldsLine, LineFits, AllFit, Drawn,
        Lettered, LinePlaced, Spots, PagePlaced, LineStyled, Owners, PageStyled;
      ghost var gs, end := NextLine(text, c, page, k, buf.Length - 10);
      ink, ls := PrintLine(currentLine, gs);
      PagePlacedMore(lettersAbove, ls, page, k, Measures());
      PageStyledMore(lettersAbove, ls, page, n0, first0, k);
      PageShowsMore(above, ink, page, n0, first0, y0, height, k);
    }

    /** The loop over the lines. */
    method PrintLines(startLine: nat, numLines: nat, ghost page: seq<seq<Glyph>>)
        returns (ghost ink: seq<Ink>, ghost letters: seq<Letter>)
      requires Valid() && n == 0 && column == 0 && x == left && !italic && 0 < numLines == |page|
      requires HoldsPage(text, c, page) && AllFit(page, buf.Length - 10)
      modifies this, buf
      ensures Drawn(out) == old(Drawn(out)) + ink
      ensures PageShows(ink, page, startLine, old(first), old(y), height, numLines)
      ensures Lettered(out, width) == old(Lettered(out, width)) + letters
      ensures PagePlaced(letters, page, numLines, Measures())
      ensures PageStyled(letters, page, startLine, old(first), numLines)
    {
      hide PageShows, FirstAt, LineY, HoldsPage, AllFit, Drawn, Lettered, PagePlaced, PageStyled;
      var currentLine := startLine;
      ghost var k: nat, first0, y0, base, base' := 0, first, y, Drawn(out), Lettered(out, width);
      ink, letters := [], [];
      NoLineYet(page, startLine, first, y, height);
      NoLinePlaced(page, Measures());
      NoLineStyled(page, startLine, first);
      assert page[0..] == page && base + [] == base && base' + [] == base';
      while true
        invariant Valid() && n == 0 && column == 0 && x == left && !italic
        invariant k < numLines && currentLine == startLine + k && HoldsPage(text, c, page[k..])
        invariant y == LineY(y0, height, k) && first == FirstAt(page, startLine, first0, k)
        invariant Drawn(out) == base + ink && PageShows(ink, page, startLine, first0, y0, height, k)
        invariant Lettered(out, width) == base' + letters && PagePlaced(letters, page, k, Measures())
        invariant PageStyled(letters, page, startLine, first0, k)
        decreases numLines - k
      {
        ghost var line, ls := PrintNext(currentLine, page, startLine, first0, y0, k, ink, letters);
        assert base + ink + line == base + (ink + line) && base' + letters + ls == base' + (letters + ls);
        ink, letters, k := ink + line, letters + ls, k + 1;
        currentLine := currentLine + 1;
        if currentLine == startLine + numLines {
          return;
        }
        n, italic, x, column := 0, false, left, 0;
        y, c := y + height, c + 1;
      }
    }

    /** PrintText: every character of the lines is drawn once, in order and on its line, where the line wants it, and in
        the style it is to have; on a line that is not the first of its page that is its own style, or bold in a
        heading. */
    method PrintText(topLine: seq<nat>, startLine: nat, numLines: nat, location: int, ghost page: seq<seq<Glyph>>)
        returns (ghost ink: seq<Ink>, ghost letters: seq<Letter>)
      requires (forall ch, style :: width(ch, style) > 0) && blankWidth > 0 && |page| == numLines
      requires startLine < |topLine| && forall i :: 0 <= i < |topLine| ==> topLine[i] < |text|
      requires HoldsPage(text, topLine[startLine], page) && AllFit(page, buf.Length - 10)
      modifies this, buf
      ensures Drawn(out) == old(Drawn(out)) + ink
      ensures Marks(ink) == Marks(PageInk(page, location, height, numLines))
      ensures PageShows(ink, page, startLine, NothingAbove(topLine, startLine), location, height, numLines)
      ensures Lettered(out, width) == old(Lettered(out, width)) + letters && ink == Inks(letters)
      ensures PagePlaced(letters, page, numLines, Metrics(left, blankWidth, width))
      ensures PageStyled(letters, page, startLine, NothingAbove(topLine, startLine), numLines)
    {
      hide LineShows, FirstAt, LineY, PageInk, HoldsPage, AllFit, Drawn, NothingAbove, Lettered, PagePlaced, Inks,
        PageStyled;
      ink, letters := [], [];
      assert Drawn(out) + [] == Drawn(out) && Lettered(out, width) + [] == Lettered(out, width);
      ghost var before := out;
      if numLines == 0 {
        NoLineYet(page, startLine, NothingAbove(topLine, startLine), location, height);
        NoLinePlaced(page, Measures());
        NoLineStyled(page, startLine, NothingAbove(topLine, startLine));
        return;
      }
      c, y, n, italic, x, column := topLine[startLine], location, 0, false, left, 0;
      first := OnFirstLine(topLine, startLine);
      ink, letters := PrintLines(startLine, numLines, page);
      NewInk(before, out, width, ink, letters);
      PageMarks(ink, page, startLine, NothingAbove(topLine, startLine), location, height, numLines);
    }
  }
}

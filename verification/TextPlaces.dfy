/**
 Where the characters of a formatted line stand: each behind the one before it, the first at the margin, and one behind
 a tab or a run of four or more spaces at its column.
 */
module TextPlaces {
  import opened Common
  import opened Overstrike

  /** The margin, the width of a blank column, and that of a character in a style. */
  datatype Metrics = Metrics(left: int, blankWidth: nat, width: (char, Style) -> nat)

  function TextWidth(text: string, style: Style, width: (char, Style) -> nat): nat {
    if text == "" then 0 else TextWidth(text[..|text| - 1], style, width) + width(text[|text| - 1], style)
  }

  /** The characters of one draw. */
  function LettersOf(text: string, style: Style, x: int, y: int, width: (char, Style) -> nat): seq<Letter> {
    if text == "" then []
    else
      var front := text[..|text| - 1];
      LettersOf(front, style, x, y, width)
      + [Letter(text[|text| - 1], style, x + TextWidth(front, style, width), y)]
  }

  function Lettered(out: seq<Event>, width: (char, Style) -> nat): seq<Letter> {
    if out == [] then []
    else
      var e := out[|out| - 1];
      Lettered(out[..|out| - 1], width) + LettersOf(e.text, e.style, e.x, e.y, width)
  }

  lemma LetteredOneMore(out: seq<Event>, e: Event, width: (char, Style) -> nat)
    ensures Lettered(out + [e], width) == Lettered(out, width) + LettersOf(e.text, e.style, e.x, e.y, width)
  {
    assert (out + [e])[..|out|] == out;
  }

  // ---------------------------------------------------------------------------------------
  // Where a line wants its characters
  // ---------------------------------------------------------------------------------------

  /** A character of a line, and the column to go to before it, if a tab or a long gap is in front of it. */
  datatype Spot = Spot(ch: char, jump: Option<nat>)

  predicate Skips(g: Glyph) {
    g.Tab? || (g.Gap? && g.n >= 4)
  }

  /** The column that the formatter goes to in front of glyph i. */
  function JumpAt(gs: seq<Glyph>, i: nat): Option<nat>
    requires i <= |gs|
  {
    if i > 0 && Skips(gs[i - 1]) then Some(Column(gs, i)) else None
  }

  /** The first k blanks of a short gap. */
  function BlankSpots(k: nat, jump: Option<nat>): seq<Spot> {
    if k == 0 then [] else BlankSpots(k - 1, jump) + [Spot(' ', if k == 1 then jump else None)]
  }

  function SpotsOf(g: Glyph, jump: Option<nat>): seq<Spot> {
    match g
    case Tab => []
    case Gap(n) => if n >= 4 then [] else BlankSpots(n, jump)
    case _ => [Spot(g.ch, jump)]
  }

  /** The characters of the first i glyphs. */
  function Spots(gs: seq<Glyph>, i: nat): seq<Spot>
    requires i <= |gs|
  {
    if i == 0 then [] else Spots(gs, i - 1) + SpotsOf(gs[i - 1], JumpAt(gs, i - 1))
  }

  /** The place behind the letters drawn on a line, or at a column from the margin. */
  function PlaceBehind(ls: seq<Letter>, jump: Option<nat>, m: Metrics): int {
    if jump.Some? then m.left + m.blankWidth * jump.value
    else if ls == [] then m.left
    else ls[|ls| - 1].x + m.width(ls[|ls| - 1].ch, ls[|ls| - 1].style)
  }

  /** The letters are the characters of the spots, each in its place: at its column if there is a jump in front of it,
      else at the end of the letter before it, else at the margin. */
  ghost predicate LinePlaced(ls: seq<Letter>, spots: seq<Spot>, m: Metrics) {
    && |ls| == |spots|
    && (forall k :: 0 <= k < |ls| ==> ls[k].ch == spots[k].ch)
    && (forall k :: 0 <= k < |ls| && spots[k].jump.Some? ==> ls[k].x == m.left + m.blankWidth * spots[k].jump.value)
    && (|ls| > 0 && spots[0].jump.None? ==> ls[0].x == m.left)
    && (forall j, k :: 0 <= j < k < |ls| && k == j + 1 && spots[k].jump.None? ==>
          ls[k].x == ls[j].x + m.width(ls[j].ch, ls[j].style))
  }

  lemma OneMorePlaced(ls: seq<Letter>, spots: seq<Spot>, l: Letter, spot: Spot, m: Metrics)
    requires LinePlaced(ls, spots, m) && l.ch == spot.ch && l.x == PlaceBehind(ls, spot.jump, m)
    ensures LinePlaced(ls + [l], spots + [spot], m)
  {
  }

  // ---------------------------------------------------------------------------------------
  // The formatter in the middle of a line
  // ---------------------------------------------------------------------------------------

  /** What is drawn of the line, what is buffered, and the position. */
  datatype Place = Place(letters: seq<Letter>, pending: string, x: int)

  function Typed(h: Place, ch: char): Place {
    h.(pending := h.pending + [ch])
  }

  /** The buffer drawn and emptied. */
  function Emptied(h: Place, style: Style, y: int, width: (char, Style) -> nat): Place {
    Place(h.letters + LettersOf(h.pending, style, h.x, y, width), "", h.x + TextWidth(h.pending, style, width))
  }

  /** The buffered characters are those of the spots, and there is no jump but in front of the first. */
  predicate Buffers(text: string, spots: seq<Spot>, n: nat) {
    && |spots| == n + |text|
    && forall j :: 0 <= j < |text| ==> text[j] == spots[n + j].ch && (j > 0 ==> spots[n + j].jump == None)
  }

  /** The letters so far stand at the spots so far, those in the buffer will, and `jump` is what is in front of the next
      character. */
  ghost predicate Poised(h: Place, base: seq<Letter>, spots: seq<Spot>, jump: Option<nat>, m: Metrics) {
    && base <= h.letters
    && var ls := h.letters[|base|..];
       && Buffers(h.pending, spots, |ls|)
       && LinePlaced(ls, spots[..|ls|], m)
       && h.x == PlaceBehind(ls, if h.pending == "" then jump else spots[|ls|].jump, m)
       && (h.pending != "" ==> jump == None)
  }

  lemma PoisedTyped(h: Place, base: seq<Letter>, spots: seq<Spot>, jump: Option<nat>, ch: char, m: Metrics)
    requires Poised(h, base, spots, jump, m)
    ensures Poised(Typed(h, ch), base, spots + [Spot(ch, jump)], None, m)
  {
    var ls := h.letters[|base|..];
    BuffersMore(h.pending, spots, |ls|, ch, jump);
    assert (spots + [Spot(ch, jump)])[..|ls|] == spots[..|ls|];
  }

  lemma BuffersMore(text: string, spots: seq<Spot>, n: nat, ch: char, jump: Option<nat>)
    requires Buffers(text, spots, n) && (text != "" ==> jump == None)
    ensures Buffers(text + [ch], spots + [Spot(ch, jump)], n)
  {
  }

  /** The character typed last is taken back. */
  lemma PoisedUntyped(h: Place, base: seq<Letter>, spots: seq<Spot>, jump: Option<nat>, ch: char, m: Metrics)
    requires Poised(Typed(h, ch), base, spots + [Spot(ch, jump)], None, m)
    ensures Poised(h, base, spots, jump, m)
  {
    var ls := h.letters[|base|..];
    assert (spots + [Spot(ch, jump)])[..|ls|] == spots[..|ls|];
    BuffersFront(h.pending + [ch], spots + [Spot(ch, jump)], |ls|);
    assert (h.pending + [ch])[..|h.pending|] == h.pending && (spots + [Spot(ch, jump)])[..|spots|] == spots;
  }

  lemma BehindLast(ls: seq<Letter>, l: Letter, m: Metrics)
    ensures PlaceBehind(ls + [l], None, m) == l.x + m.width(l.ch, l.style)
  {
  }

  lemma BuffersFront(text: string, spots: seq<Spot>, n: nat)
    requires Buffers(text, spots, n) && text != ""
    ensures Buffers(text[..|text| - 1], spots[..|spots| - 1], n)
    ensures spots[|spots| - 1].ch == text[|text| - 1]
    ensures |text| > 1 ==> spots[|spots| - 1].jump == None && spots[..|spots| - 1][n] == spots[n]
    ensures spots[..|spots| - 1][..n] == spots[..n]
  {
    var last := |text| - 1;
    assert text[last] == spots[n + last].ch && (last > 0 ==> spots[n + last].jump == None);
    BuffersLess(text, spots, n, text[..last], spots[..n + last]);
  }

  lemma BuffersLess(text: string, spots: seq<Spot>, n: nat, front: string, before: seq<Spot>)
    requires Buffers(text, spots, n) && |front| < |text| && |before| == n + |front|
    requires forall j :: 0 <= j < |front| ==> front[j] == text[j]
    requires forall j :: 0 <= j < |before| ==> before[j] == spots[j]
    ensures Buffers(front, before, n)
  {
    forall j | 0 <= j < |front|
      ensures front[j] == before[n + j].ch && (j > 0 ==> before[n + j].jump == None)
    {
      assert text[j] == spots[n + j].ch && (j > 0 ==> spots[n + j].jump == None);
    }
  }

  /** Drawing one buffered character after another. */
  lemma {:induction false} PendingPlaced(ls: seq<Letter>, spots: seq<Spot>, text: string, style: Style, x: int, y: int,
                                         m: Metrics)
    requires Buffers(text, spots, |ls|) && LinePlaced(ls, spots[..|ls|], m)
    requires text != "" ==> x == PlaceBehind(ls, spots[|ls|].jump, m)
    ensures var all := ls + LettersOf(text, style, x, y, m.width);
      LinePlaced(all, spots, m) && (text != "" ==> PlaceBehind(all, None, m) == x + TextWidth(text, style, m.width))
    decreases |text|
  {
    hide Buffers, LinePlaced, PlaceBehind;
    if text == "" {
      assert |spots| == |ls| by { BuffersLength(text, spots, |ls|); }
      assert ls + [] == ls && spots[..|ls|] == spots;
    } else {
      BuffersLength(text, spots, |ls|);
      var front, before, spot := text[..|text| - 1], spots[..|spots| - 1], spots[|spots| - 1];
      BuffersFront(text, spots, |ls|);
      PendingPlaced(ls, before, front, style, x, y, m);
      var l := Letter(text[|text| - 1], style, x + TextWidth(front, style, m.width), y);
      var drawn := ls + LettersOf(front, style, x, y, m.width);
      if front == "" {
        assert drawn == ls;
      }
      OneMorePlaced(drawn, before, l, spot, m);
      BehindLast(drawn, l, m);
      assert ls + LettersOf(text, style, x, y, m.width) == drawn + [l] && before + [spot] == spots;
    }
  }

  lemma BuffersLength(text: string, spots: seq<Spot>, n: nat)
    requires Buffers(text, spots, n)
    ensures |spots| == n + |text|
  {
  }

  lemma NothingBuffered(spots: seq<Spot>)
    ensures Buffers("", spots, |spots|)
  {
  }

  lemma {:induction false} LettersLength(text: string, style: Style, x: int, y: int, width: (char, Style) -> nat)
    ensures |LettersOf(text, style, x, y, width)| == |text| && (text == "" ==> TextWidth(text, style, width) == 0)
  {
    if text != "" {
      LettersLength(text[..|text| - 1], style, x, y, width);
    }
  }

  lemma PoisedEmptied(h: Place, base: seq<Letter>, spots: seq<Spot>, jump: Option<nat>, style: Style, y: int,
                      m: Metrics)
    requires Poised(h, base, spots, jump, m)
    ensures Poised(Emptied(h, style, y, m.width), base, spots, jump, m)
  {
    hide Buffers, LinePlaced, LettersOf, TextWidth;
    var ls, drawn := h.letters[|base|..], LettersOf(h.pending, style, h.x, y, m.width);
    BuffersLength(h.pending, spots, |ls|);
    PendingPlaced(ls, spots, h.pending, style, h.x, y, m);
    LettersLength(h.pending, style, h.x, y, m.width);
    NothingBuffered(spots);
    assert (h.letters + drawn)[|base|..] == ls + drawn;
    assert |ls + drawn| == |spots| && spots[..|spots|] == spots;
    if h.pending == "" {
      assert h.letters + drawn == h.letters;
    }
  }

  /** Going to a column with nothing buffered. */
  lemma PoisedJumped(h: Place, base: seq<Letter>, spots: seq<Spot>, jump: Option<nat>, column: nat, m: Metrics)
    requires Poised(h, base, spots, jump, m) && h.pending == ""
    ensures Poised(h.(x := m.left + m.blankWidth * column), base, spots, Some(column), m)
  {
  }

  /** The spots that have been read in the middle of glyph i, and the jump in front of the next character. */
  function SpotsIn(gs: seq<Glyph>, i: nat, mid: nat): seq<Spot>
    requires i <= |gs|
  {
    if mid == 0 || i == |gs| then Spots(gs, i)
    else Spots(gs, i) + if gs[i].Gap? then BlankSpots(mid, JumpAt(gs, i)) else SpotsOf(gs[i], JumpAt(gs, i))
  }

  function JumpIn(gs: seq<Glyph>, i: nat, mid: nat): Option<nat>
    requires i <= |gs|
  {
    if mid == 0 then JumpAt(gs, i) else None
  }

  ghost predicate PlacedAt(h: Place, base: seq<Letter>, gs: seq<Glyph>, i: nat, mid: nat, m: Metrics) {
    i <= |gs| && Poised(h, base, SpotsIn(gs, i, mid), JumpIn(gs, i, mid), m)
  }

  /** A character goes into the buffer; at a change of style the buffer is drawn before. */
  function TypedIn(h: Place, was: bool, italic: bool, ch: char, y: int, width: (char, Style) -> nat): Place {
    Typed(if was == italic then h else Emptied(h, Which(was, false), y, width), ch)
  }

  /** The character typed last is taken back, the buffer drawn, and the character drawn in bold. */
  predicate StruckOn(h: Place, h': Place, ch: char, y: int, width: (char, Style) -> nat) {
    && h.pending != "" && h.pending[|h.pending| - 1] == ch
    && var h0 := h.(pending := h.pending[..|h.pending| - 1]);
       h' == Emptied(Typed(Emptied(h0, NORMAL, y, width), ch), BOLD, y, width)
  }

  /** The buffer is drawn, and the position goes to a column. */
  function Skipped(h: Place, style: Style, column: nat, y: int, m: Metrics): Place {
    Emptied(h, style, y, m.width).(x := m.left + m.blankWidth * column)
  }

  lemma TypedPlaced(h: Place, was: bool, italic: bool, base: seq<Letter>, spots: seq<Spot>, jump: Option<nat>, ch: char,
                    y: int, m: Metrics)
    requires Poised(h, base, spots, jump, m)
    ensures Poised(TypedIn(h, was, italic, ch, y, m.width), base, spots + [Spot(ch, jump)], None, m)
  {
    hide Poised, Typed, Emptied;
    var h1 := if was == italic then h else Emptied(h, Which(was, false), y, m.width);
    if was != italic {
      PoisedEmptied(h, base, spots, jump, Which(was, false), y, m);
    }
    PoisedTyped(h1, base, spots, jump, ch, m);
  }

  lemma PlacedChar(h: Place, was: bool, italic: bool, base: seq<Letter>, gs: seq<Glyph>, i: nat, y: int, m: Metrics)
    requires i < |gs| && Visible(gs[i]) && PlacedAt(h, base, gs, i, 0, m)
    ensures PlacedAt(TypedIn(h, was, italic, gs[i].ch, y, m.width), base, gs, i + 1, 0, m)
    ensures gs[i].Bold? ==> PlacedAt(TypedIn(h, was, italic, gs[i].ch, y, m.width), base, gs, i, 1, m)
  {
    hide Poised, TypedIn;
    TypedPlaced(h, was, italic, base, Spots(gs, i), JumpAt(gs, i), gs[i].ch, y, m);
  }

  lemma StruckPlaced(h: Place, h': Place, base: seq<Letter>, spots: seq<Spot>, jump: Option<nat>, ch: char, y: int,
                     m: Metrics)
    requires Poised(h, base, spots + [Spot(ch, jump)], None, m) && StruckOn(h, h', ch, y, m.width)
    ensures Poised(h', base, spots + [Spot(ch, jump)], None, m)
  {
    hide Poised, Emptied;
    var h0 := h.(pending := h.pending[..|h.pending| - 1]);
    assert Typed(h0, ch) == h;
    PoisedUntyped(h0, base, spots, jump, ch, m);
    var h1 := Emptied(h0, NORMAL, y, m.width);
    PoisedEmptied(h0, base, spots, jump, NORMAL, y, m);
    PoisedTyped(h1, base, spots, jump, ch, m);
    PoisedEmptied(Typed(h1, ch), base, spots + [Spot(ch, jump)], None, BOLD, y, m);
  }

  lemma PlacedStrikes(h: Place, h': Place, base: seq<Letter>, gs: seq<Glyph>, i: nat, y: int, m: Metrics)
    requires i < |gs| && gs[i].Bold? && PlacedAt(h, base, gs, i, 1, m) && StruckOn(h, h', gs[i].ch, y, m.width)
    ensures PlacedAt(h', base, gs, i + 1, 0, m)
  {
    hide Poised, StruckOn;
    StruckPlaced(h, h', base, Spots(gs, i), JumpAt(gs, i), gs[i].ch, y, m);
  }

  lemma PlacedBlank(h: Place, base: seq<Letter>, gs: seq<Glyph>, i: nat, mid: nat, m: Metrics)
    requires i < |gs| && gs[i].Gap? && mid < gs[i].n < 4 && PlacedAt(h, base, gs, i, mid, m)
    ensures if mid + 1 == gs[i].n then PlacedAt(Typed(h, ' '), base, gs, i + 1, 0, m)
      else PlacedAt(Typed(h, ' '), base, gs, i, mid + 1, m)
  {
    hide Poised;
    var jump := JumpAt(gs, i);
    PoisedTyped(h, base, SpotsIn(gs, i, mid), JumpIn(gs, i, mid), ' ', m);
    assert Spots(gs, i) + BlankSpots(mid, jump) + [Spot(' ', if mid == 0 then jump else None)]
        == Spots(gs, i) + BlankSpots(mid + 1, jump);
    assert Spots(gs, i) + [] == Spots(gs, i);
  }

  lemma SkipPlaced(h: Place, base: seq<Letter>, spots: seq<Spot>, jump: Option<nat>, style: Style, column: nat, y: int,
                   m: Metrics)
    requires Poised(h, base, spots, jump, m)
    ensures Poised(Skipped(h, style, column, y, m), base, spots, Some(column), m)
  {
    hide Poised, Emptied;
    PoisedEmptied(h, base, spots, jump, style, y, m);
    EmptiedBuffer(h, style, y, m.width);
    PoisedJumped(Emptied(h, style, y, m.width), base, spots, jump, column, m);
  }

  lemma PlacedSkip(h: Place, base: seq<Letter>, gs: seq<Glyph>, i: nat, style: Style, y: int, m: Metrics)
    requires i < |gs| && Skips(gs[i]) && PlacedAt(h, base, gs, i, 0, m)
    ensures PlacedAt(Skipped(h, style, Column(gs, i + 1), y, m), base, gs, i + 1, 0, m)
  {
    hide Poised, Column, Skipped;
    SkipPlaced(h, base, Spots(gs, i), JumpAt(gs, i), style, Column(gs, i + 1), y, m);
    assert Spots(gs, i) + [] == Spots(gs, i);
  }

  lemma EmptiedBuffer(h: Place, style: Style, y: int, width: (char, Style) -> nat)
    ensures Emptied(h, style, y, width).pending == ""
  {
  }

  /** At the end of the line the rest of the buffer is drawn. */
  lemma PlacedAtEnd(h: Place, base: seq<Letter>, gs: seq<Glyph>, style: Style, y: int, m: Metrics)
      returns (ls: seq<Letter>)
    requires PlacedAt(h, base, gs, |gs|, 0, m)
    ensures h.letters + LettersOf(h.pending, style, h.x, y, m.width) == base + ls
    ensures LinePlaced(ls, Spots(gs, |gs|), m)
  {
    hide LinePlaced, Spots;
    PoisedEmptied(h, base, Spots(gs, |gs|), JumpAt(gs, |gs|), style, y, m);
    var all := h.letters + LettersOf(h.pending, style, h.x, y, m.width);
    ls := all[|base|..];
    assert all == base + ls;
    assert Spots(gs, |gs|)[..|ls|] == Spots(gs, |gs|);
  }

  lemma PlacedAtStart(base: seq<Letter>, gs: seq<Glyph>, m: Metrics)
    ensures PlacedAt(Place(base, "", m.left), base, gs, 0, 0, m)
  {
  }

  // ---------------------------------------------------------------------------------------
  // Pages
  // ---------------------------------------------------------------------------------------

  /** The letters of the first k lines, one line after another. */
  ghost predicate PagePlaced(ls: seq<Letter>, page: seq<seq<Glyph>>, k: nat, m: Metrics)
    requires k <= |page|
    decreases k
  {
    if k == 0 then ls == []
    else
      var spots := Spots(page[k - 1], |page[k - 1]|);
      && |spots| <= |ls|
      && PagePlaced(ls[..|ls| - |spots|], page, k - 1, m)
      && LinePlaced(ls[|ls| - |spots|..], spots, m)
  }

  lemma PagePlacedMore(ls: seq<Letter>, line: seq<Letter>, page: seq<seq<Glyph>>, k: nat, m: Metrics)
    requires k < |page| && PagePlaced(ls, page, k, m) && LinePlaced(line, Spots(page[k], |page[k]|), m)
    ensures PagePlaced(ls + line, page, k + 1, m)
  {
    assert (ls + line)[..|ls|] == ls && (ls + line)[|ls|..] == line;
  }

  /** What is seen of letters. */
  function Inks(ls: seq<Letter>): seq<Ink> {
    if ls == [] then []
    else
      var l := ls[|ls| - 1];
      Inks(ls[..|ls| - 1]) + if l.ch == ' ' then [] else [Ink(l.ch, l.style, l.y)]
  }

  lemma {:induction false} InksConcat(a: seq<Letter>, b: seq<Letter>)
    ensures Inks(a + b) == Inks(a) + Inks(b)
  {
    if b == [] {
      assert a + b == a;
    } else {
      var front := b[..|b| - 1];
      assert (a + b)[..|a + b| - 1] == a + front;
      InksConcat(a, front);
    }
  }

  lemma {:induction false} ShownLetters(text: string, style: Style, x: int, y: int, width: (char, Style) -> nat)
    ensures Inks(LettersOf(text, style, x, y, width)) == Shown(text, style, y)
  {
    if text != "" {
      var front := text[..|text| - 1];
      ShownLetters(front, style, x, y, width);
      var l := Letter(text[|text| - 1], style, x + TextWidth(front, style, width), y);
      var ls := LettersOf(text, style, x, y, width);
      assert ls[..|ls| - 1] == LettersOf(front, style, x, y, width) && ls[|ls| - 1] == l;
    }
  }

  /** The ink of a sequence of draws is that of their letters. */
  lemma {:induction false} DrawnLetters(out: seq<Event>, width: (char, Style) -> nat)
    ensures Drawn(out) == Inks(Lettered(out, width))
  {
    if out != [] {
      var front, e := out[..|out| - 1], out[|out| - 1];
      DrawnLetters(front, width);
      ShownLetters(e.text, e.style, e.x, e.y, width);
      InksConcat(Lettered(front, width), LettersOf(e.text, e.style, e.x, e.y, width));
    }
  }

  lemma NoLinePlaced(page: seq<seq<Glyph>>, m: Metrics)
    ensures PagePlaced([], page, 0, m) && Inks([]) == []
  {
  }

  /** What is added to the letters shows what is added to the ink. */
  lemma NewInk(before: seq<Event>, out: seq<Event>, width: (char, Style) -> nat, ink: seq<Ink>, ls: seq<Letter>)
    requires Drawn(out) == Drawn(before) + ink && Lettered(out, width) == Lettered(before, width) + ls
    ensures ink == Inks(ls)
  {
    DrawnLetters(out, width);
    DrawnLetters(before, width);
    InksConcat(Lettered(before, width), ls);
    SameBack(Drawn(before), ink, Inks(ls));
  }
}

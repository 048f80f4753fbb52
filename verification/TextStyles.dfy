/**
 In which style the characters of a formatted line are drawn, on every line: a run of text between tabs, long gaps,
 struck characters and changes of style is drawn as one, and in bold where it ends in the first line of a page or the
 line is a heading.
 */
module TextStyles {
  import opened Common
  import opened Overstrike
  import opened TextPlaces

  function OwnStyle(g: Glyph): Style {
    match g
    case Bold(_, _) => BOLD
    case Underlined(_) => ITALIC
    case _ => NORMAL
  }

  /** Glyph e ends the run that glyph k is in. */
  predicate EndsRun(gs: seq<Glyph>, k: nat, e: nat)
    requires k < |gs| && e < |gs|
  {
    Skips(gs[e]) || gs[e].Bold? || (gs[e].Plain? && gs[k].Underlined?) || (gs[e].Underlined? && gs[k].Plain?)
  }

  /** The first glyph from e on that ends the run of glyph k, or the end of the line. */
  function RunEnd(gs: seq<Glyph>, k: nat, e: nat): (r: nat)
    requires k < e <= |gs|
    ensures r <= |gs|
    decreases |gs| - e
  {
    if e == |gs| || EndsRun(gs, k, e) then e else RunEnd(gs, k, e + 1)
  }

  /** A run that ends before glyph e is drawn in bold: by a tab, a long gap or the end of the line while the formatter
      takes the line to be the first of its page, or at the end of a heading. */
  ghost predicate EndsBold(gs: seq<Glyph>, e: nat, top: bool, first: bool)
    requires e <= |gs|
  {
    || ((e == |gs| || Skips(gs[e])) && (top || (first && NoBold(gs, e))))
    || (e == |gs| && IsHeading(gs))
  }

  /** The style of visible glyph k. */
  ghost function FinalStyle(gs: seq<Glyph>, k: nat, top: bool, first: bool): Style
    requires k < |gs|
  {
    if EndsBold(gs, RunEnd(gs, k, k + 1), top, first) then BOLD else OwnStyle(gs[k])
  }

  function Copies(k: nat, n: nat): (r: seq<nat>)
    ensures |r| == n && forall j :: 0 <= j < n ==> r[j] == k
  {
    if n == 0 then [] else Copies(k, n - 1) + [k]
  }

  /** How many characters a glyph has in the buffer. */
  function CellsOf(g: Glyph): nat {
    match g
    case Tab => 0
    case Gap(n) => if n >= 4 then 0 else n
    case _ => 1
  }

  /** Of each buffered character of the first i glyphs, the glyph that it comes from. */
  function Owners(gs: seq<Glyph>, i: nat): seq<nat>
    requires i <= |gs|
  {
    if i == 0 then [] else Owners(gs, i - 1) + Copies(i - 1, CellsOf(gs[i - 1]))
  }

  function OwnersIn(gs: seq<Glyph>, i: nat, mid: nat): seq<nat>
    requires i <= |gs|
  {
    Owners(gs, i) + Copies(i, mid)
  }

  /** Each letter that is not a blank has the style of its glyph. */
  ghost predicate LineStyled(ls: seq<Letter>, owners: seq<nat>, gs: seq<Glyph>, top: bool, first: bool) {
    && |ls| == |owners|
    && forall j :: 0 <= j < |ls| ==>
         owners[j] < |gs| && (Visible(gs[owners[j]]) ==> ls[j].style == FinalStyle(gs, owners[j], top, first))
  }

  /** Glyph k is buffered in front of glyph i: its run has not ended. */
  predicate Waits(gs: seq<Glyph>, k: nat, i: nat, italic: bool) {
    && k <= i <= |gs| && k < |gs|
    && (k < i && Visible(gs[k]) ==>
          !gs[k].Bold? && gs[k].Underlined? == italic && RunEnd(gs, k, k + 1) == RunEnd(gs, k, i))
  }

  ghost predicate AllWait(owners: seq<nat>, gs: seq<Glyph>, i: nat, italic: bool) {
    forall j :: 0 <= j < |owners| ==> Waits(gs, owners[j], i, italic)
  }

  /** The letters drawn have their styles, and the buffered ones are of one run. */
  ghost predicate Styled(h: Place, italic: bool, base: seq<Letter>, owners: seq<nat>, gs: seq<Glyph>, i: nat, top: bool,
                         first: bool)
  {
    && base <= h.letters
    && var n := |h.letters| - |base|;
       && |owners| == n + |h.pending|
       && LineStyled(h.letters[|base|..], owners[..n], gs, top, first)
       && AllWait(owners[n..], gs, i, italic)
  }

  lemma {:induction false} LettersStyle(text: string, style: Style, x: int, y: int, width: (char, Style) -> nat)
    ensures |LettersOf(text, style, x, y, width)| == |text|
    ensures forall j :: 0 <= j < |text| ==> LettersOf(text, style, x, y, width)[j].style == style
  {
    if text != "" {
      LettersStyle(text[..|text| - 1], style, x, y, width);
    }
  }

  /** Every visible glyph that waits comes out in this style when the run ends here. */
  ghost predicate ComesOut(owners: seq<nat>, gs: seq<Glyph>, style: Style, top: bool, first: bool) {
    forall j :: 0 <= j < |owners| ==>
      owners[j] < |gs| && (Visible(gs[owners[j]]) ==> style == FinalStyle(gs, owners[j], top, first))
  }

  lemma StyledMore(ls: seq<Letter>, more: seq<Letter>, owners: seq<nat>, rest: seq<nat>, gs: seq<Glyph>, style: Style,
                   top: bool, first: bool)
    requires LineStyled(ls, owners, gs, top, first) && |more| == |rest| && ComesOut(rest, gs, style, top, first)
    requires forall j :: 0 <= j < |more| ==> more[j].style == style
    ensures LineStyled(ls + more, owners + rest, gs, top, first)
  {
    hide FinalStyle;
    var all, os := ls + more, owners + rest;
    forall j | 0 <= j < |all|
      ensures os[j] < |gs| && (Visible(gs[os[j]]) ==> all[j].style == FinalStyle(gs, os[j], top, first))
    {
      if j < |ls| {
        assert os[j] == owners[j] && all[j] == ls[j];
      } else {
        assert os[j] == rest[j - |ls|] && all[j] == more[j - |ls|];
      }
    }
  }

  /** Drawing the buffer in the style in which it is to come out. */
  lemma StyledEmptied(h: Place, italic: bool, base: seq<Letter>, owners: seq<nat>, gs: seq<Glyph>, i: nat, top: bool,
                      first: bool, style: Style, y: int, width: (char, Style) -> nat, italic': bool, i': nat)
    requires Styled(h, italic, base, owners, gs, i, top, first)
    requires ComesOut(owners[|h.letters| - |base|..], gs, style, top, first)
    ensures Styled(Emptied(h, style, y, width), italic', base, owners, gs, i', top, first)
  {
    hide LineStyled, ComesOut, LettersOf, TextWidth;
    var n, more := |h.letters| - |base|, LettersOf(h.pending, style, h.x, y, width);
    LettersStyle(h.pending, style, h.x, y, width);
    StyledMore(h.letters[|base|..], more, owners[..n], owners[n..], gs, style, top, first);
    assert owners[..n] + owners[n..] == owners == owners[..|owners|];
    assert (h.letters + more)[|base|..] == h.letters[|base|..] + more;
  }

  /** A character of glyph k put in the buffer. */
  lemma StyledTyped(h: Place, italic: bool, base: seq<Letter>, owners: seq<nat>, gs: seq<Glyph>, i: nat, top: bool,
                    first: bool, ch: char, k: nat, i': nat)
    requires Styled(h, italic, base, owners, gs, i, top, first)
    requires AllWait(owners[|h.letters| - |base|..], gs, i', italic) && Waits(gs, k, i', italic)
    ensures Styled(Typed(h, ch), italic, base, owners + [k], gs, i', top, first)
  {
    hide LineStyled, Waits;
    var n := |h.letters| - |base|;
    assert (owners + [k])[..n] == owners[..n] && (owners + [k])[n..] == owners[n..] + [k];
  }

  /** And taken back. */
  lemma StyledUntyped(h: Place, italic: bool, base: seq<Letter>, owners: seq<nat>, gs: seq<Glyph>, i: nat, top: bool,
                      first: bool, ch: char, k: nat)
    requires Styled(Typed(h, ch), italic, base, owners + [k], gs, i, top, first)
    ensures Styled(h, italic, base, owners, gs, i, top, first)
  {
    hide LineStyled, Waits;
    var n := |h.letters| - |base|;
    assert (owners + [k])[..n] == owners[..n] && (owners + [k])[n..] == owners[n..] + [k];
    forall j | 0 <= j < |owners[n..]| ensures Waits(gs, owners[n..][j], i, italic) {
      assert (owners[n..] + [k])[j] == owners[n..][j];
    }
  }

  // ---------------------------------------------------------------------------------------
  // Why a run ends
  // ---------------------------------------------------------------------------------------

  lemma {:induction false} OwnersBelow(gs: seq<Glyph>, i: nat)
    requires i <= |gs|
    ensures forall j :: 0 <= j < |Owners(gs, i)| ==> Owners(gs, i)[j] < i
  {
    if i > 0 {
      OwnersBelow(gs, i - 1);
    }
  }

  predicate Below(owners: seq<nat>, i: nat) {
    forall j :: 0 <= j < |owners| ==> owners[j] < i
  }

  /** A struck character, or one of the other style: the run comes out in its own style. */
  lemma OwnComesOut(owners: seq<nat>, gs: seq<Glyph>, i: nat, italic: bool, top: bool, first: bool)
    requires AllWait(owners, gs, i, italic) && Below(owners, i) && i < |gs|
    requires gs[i].Bold? || (gs[i].Plain? && italic) || (gs[i].Underlined? && !italic)
    ensures ComesOut(owners, gs, Which(italic, false), top, first)
  {
    forall j | 0 <= j < |owners| && Visible(gs[owners[j]])
      ensures Which(italic, false) == FinalStyle(gs, owners[j], top, first)
    {
      var k := owners[j];
      assert Waits(gs, k, i, italic) && EndsRun(gs, k, i) && RunEnd(gs, k, i) == i;
    }
  }

  /** A tab or a long gap: it comes out in bold in the first line of a page. */
  lemma SkipComesOut(owners: seq<nat>, gs: seq<Glyph>, i: nat, italic: bool, top: bool, first: bool)
    requires AllWait(owners, gs, i, italic) && Below(owners, i) && i < |gs| && Skips(gs[i])
    ensures ComesOut(owners, gs, Which(italic, top || (first && NoBold(gs, i))), top, first)
  {
    hide NoBold, IsHeading;
    forall j | 0 <= j < |owners| && Visible(gs[owners[j]])
      ensures Which(italic, top || (first && NoBold(gs, i))) == FinalStyle(gs, owners[j], top, first)
    {
      var k := owners[j];
      assert Waits(gs, k, i, italic) && EndsRun(gs, k, i) && RunEnd(gs, k, i) == i;
    }
  }

  /** The end of the line: in bold also in a heading. */
  lemma EndComesOut(owners: seq<nat>, gs: seq<Glyph>, italic: bool, bold: bool, top: bool, first: bool)
    requires AllWait(owners, gs, |gs|, italic) && Below(owners, |gs|)
    requires owners != [] ==> (bold <==> top || (first && NoBold(gs, |gs|)) || IsHeading(gs))
    ensures ComesOut(owners, gs, Which(italic, bold), top, first)
  {
    hide NoBold, IsHeading;
    forall j | 0 <= j < |owners| && Visible(gs[owners[j]])
      ensures Which(italic, bold) == FinalStyle(gs, owners[j], top, first)
    {
      var k := owners[j];
      assert Waits(gs, k, |gs|, italic) && RunEnd(gs, k, |gs|) == |gs|;
    }
  }

  /** Text of the same style, or a short gap: the run goes on. */
  lemma StillWait(owners: seq<nat>, gs: seq<Glyph>, i: nat, italic: bool)
    requires AllWait(owners, gs, i, italic) && i < |gs|
    requires (gs[i].Plain? && !italic) || (gs[i].Underlined? && italic) || (gs[i].Gap? && !Skips(gs[i]))
    requires Visible(gs[i]) ==> Below(owners, i)
    ensures AllWait(owners, gs, i + 1, italic)
  {
    forall j | 0 <= j < |owners| ensures Waits(gs, owners[j], i + 1, italic) {
      assert Waits(gs, owners[j], i, italic);
    }
  }

  // ---------------------------------------------------------------------------------------
  // The formatter in the middle of a line
  // ---------------------------------------------------------------------------------------

  ghost predicate StyledAt(h: Place, italic: bool, base: seq<Letter>, gs: seq<Glyph>, i: nat, mid: nat, top: bool,
                           first: bool)
  {
    i <= |gs| && Styled(h, italic, base, OwnersIn(gs, i, mid), gs, i, top, first)
  }

  lemma BelowSuffix(gs: seq<Glyph>, i: nat, n: nat)
    requires i <= |gs| && n <= |Owners(gs, i)|
    ensures Below(Owners(gs, i)[n..], i) && OwnersIn(gs, i, 0) == Owners(gs, i)
  {
    OwnersBelow(gs, i);
    var all := Owners(gs, i);
    assert all + [] == all;
    forall j | 0 <= j < |all[n..]| ensures all[n..][j] < i {
      assert all[n..][j] == all[n + j];
    }
  }

  lemma StyledLength(h: Place, italic: bool, base: seq<Letter>, owners: seq<nat>, gs: seq<Glyph>, i: nat, top: bool,
                     first: bool)
    requires Styled(h, italic, base, owners, gs, i, top, first)
    ensures base <= h.letters && |owners| == |h.letters| - |base| + |h.pending|
    ensures AllWait(owners[|h.letters| - |base|..], gs, i, italic)
  {
  }

  lemma OwnersNext(gs: seq<Glyph>, i: nat)
    requires i < |gs|
    ensures Visible(gs[i]) ==> OwnersIn(gs, i, 1) == OwnersIn(gs, i + 1, 0) == Owners(gs, i) + [i]
    ensures Skips(gs[i]) ==> OwnersIn(gs, i + 1, 0) == Owners(gs, i)
    ensures OwnersIn(gs, i, 0) == Owners(gs, i)
  {
    var owners := Owners(gs, i);
    assert owners + [] == owners;
    if Visible(gs[i]) {
      assert Copies(i, 1) == [i];
    }
    assert Owners(gs, i + 1) == owners + Copies(i, CellsOf(gs[i]));
    assert OwnersIn(gs, i + 1, 0) == Owners(gs, i + 1);
  }

  /** Nothing is left of what the buffer held. */
  lemma EmptiedWaits(h: Place, was: bool, base: seq<Letter>, owners: seq<nat>, gs: seq<Glyph>, i: nat, top: bool,
                     first: bool, style: Style, y: int, width: (char, Style) -> nat, italic: bool, i': nat)
      returns (h': Place)
    requires Styled(h, was, base, owners, gs, i, top, first)
    requires ComesOut(owners[|h.letters| - |base|..], gs, style, top, first)
    ensures h' == Emptied(h, style, y, width)
    ensures Styled(h', italic, base, owners, gs, i, top, first) && |h'.letters| - |base| == |owners|
    ensures AllWait(owners[|h'.letters| - |base|..], gs, i', italic)
  {
    hide ComesOut, LettersOf, TextWidth, LineStyled;
    h' := Emptied(h, style, y, width);
    StyledEmptied(h, was, base, owners, gs, i, top, first, style, y, width, italic, i);
    assert h'.pending == "";
  }

  /** Reading a visible character: the one before was read in the style `was`. */
  lemma StyledChar(h: Place, was: bool, italic: bool, base: seq<Letter>, gs: seq<Glyph>, i: nat, top: bool, first: bool,
                   y: int, width: (char, Style) -> nat)
    requires i < |gs| && Visible(gs[i]) && italic == gs[i].Underlined? && StyledAt(h, was, base, gs, i, 0, top, first)
    ensures var h' := TypedIn(h, was, italic, gs[i].ch, y, width);
      if gs[i].Bold? then StyledAt(h', italic, base, gs, i, 1, top, first)
      else StyledAt(h', italic, base, gs, i + 1, 0, top, first)
  {
    hide Styled, AllWait, Emptied, Typed, Owners, OwnersIn;
    OwnersNext(gs, i);
    var owners, n, i' := Owners(gs, i), |h.letters| - |base|, if gs[i].Bold? then i else i + 1;
    StyledLength(h, was, base, owners, gs, i, top, first);
    BelowSuffix(gs, i, n);
    if was == italic {
      if !gs[i].Bold? {
        StillWait(owners[n..], gs, i, was);
      }
      StyledTyped(h, italic, base, owners, gs, i, top, first, gs[i].ch, i, i');
    } else {
      OwnComesOut(owners[n..], gs, i, was, top, first);
      var h1 := EmptiedWaits(h, was, base, owners, gs, i, top, first, Which(was, false), y, width, italic, i');
      StyledTyped(h1, italic, base, owners, gs, i, top, first, gs[i].ch, i, i');
    }
  }

  /** Reading the strikes of a struck character. */
  lemma StyledStrikes(h: Place, h': Place, base: seq<Letter>, gs: seq<Glyph>, i: nat, top: bool, first: bool, y: int,
                      width: (char, Style) -> nat)
    requires i < |gs| && gs[i].Bold? && StyledAt(h, false, base, gs, i, 1, top, first)
    requires StruckOn(h, h', gs[i].ch, y, width)
    ensures StyledAt(h', false, base, gs, i + 1, 0, top, first)
  {
    hide Styled, AllWait, Emptied, Owners, OwnersIn;
    OwnersNext(gs, i);
    var owners, ch := Owners(gs, i), gs[i].ch;
    var h0 := h.(pending := h.pending[..|h.pending| - 1]);
    assert Typed(h0, ch) == h;
    StyledUntyped(h0, false, base, owners, gs, i, top, first, ch, i);
    StyledLength(h0, false, base, owners, gs, i, top, first);
    BelowSuffix(gs, i, |h0.letters| - |base|);
    OwnComesOut(owners[|h0.letters| - |base|..], gs, i, false, top, first);
    var h1 := EmptiedWaits(h0, false, base, owners, gs, i, top, first, NORMAL, y, width, false, i);
    StyledTyped(h1, false, base, owners, gs, i, top, first, ch, i, i);
    assert (owners + [i])[|owners|..] == [i];
    assert ComesOut([i], gs, BOLD, top, first);
    StyledEmptied(Typed(h1, ch), false, base, owners + [i], gs, i, top, first, BOLD, y, width, false, i + 1);
  }

  /** Reading a space of a short gap. */
  lemma StyledBlank(h: Place, italic: bool, base: seq<Letter>, gs: seq<Glyph>, i: nat, mid: nat, top: bool, first: bool)
    requires i < |gs| && gs[i].Gap? && mid < gs[i].n < 4 && StyledAt(h, italic, base, gs, i, mid, top, first)
    ensures if mid + 1 == gs[i].n then StyledAt(Typed(h, ' '), italic, base, gs, i + 1, 0, top, first)
      else StyledAt(Typed(h, ' '), italic, base, gs, i, mid + 1, top, first)
  {
    hide Styled, AllWait, Typed;
    var owners, n := OwnersIn(gs, i, mid), |h.letters| - |base|;
    StyledLength(h, italic, base, owners, gs, i, top, first);
    assert owners + [i] == Owners(gs, i) + Copies(i, mid + 1);
    if mid + 1 == gs[i].n {
      StillWait(owners[n..], gs, i, italic);
      StyledTyped(h, italic, base, owners, gs, i, top, first, ' ', i, i + 1);
      assert OwnersIn(gs, i + 1, 0) == owners + [i];
    } else {
      StyledTyped(h, italic, base, owners, gs, i, top, first, ' ', i, i);
    }
  }

  /** Reading a tab or a long gap while `now` tells whether the formatter takes the line to be the first of its page. */
  lemma StyledSkip(h: Place, italic: bool, now: bool, base: seq<Letter>, gs: seq<Glyph>, i: nat, top: bool, first: bool,
                   column: nat, y: int, m: Metrics)
    requires i < |gs| && Skips(gs[i]) && StyledAt(h, italic, base, gs, i, 0, top, first)
    requires now == (top || (first && NoBold(gs, i)))
    ensures StyledAt(Skipped(h, Which(italic, now), column, y, m), false, base, gs, i + 1, 0, top, first)
  {
    hide AllWait, Emptied, Owners, OwnersIn, NoBold, LineStyled;
    OwnersNext(gs, i);
    var owners := Owners(gs, i);
    StyledLength(h, italic, base, owners, gs, i, top, first);
    BelowSuffix(gs, i, |h.letters| - |base|);
    SkipComesOut(owners[|h.letters| - |base|..], gs, i, italic, top, first);
    StyledEmptied(h, italic, base, owners, gs, i, top, first, Which(italic, now), y, m.width, false, i + 1);
  }

  /** At the end of the line the rest of the buffer is drawn. */
  lemma StyledAtEnd(h: Place, italic: bool, bold: bool, base: seq<Letter>, gs: seq<Glyph>, top: bool, first: bool,
                    y: int, width: (char, Style) -> nat, ls: seq<Letter>)
    requires StyledAt(h, italic, base, gs, |gs|, 0, top, first)
    requires h.pending != "" ==> (bold <==> top || (first && NoBold(gs, |gs|)) || IsHeading(gs))
    requires h.letters + LettersOf(h.pending, Which(italic, bold), h.x, y, width) == base + ls
    ensures LineStyled(ls, Owners(gs, |gs|), gs, top, first)
  {
    hide AllWait, Owners, NoBold, LineStyled, IsHeading, LettersOf, TextWidth, Waits, ComesOut;
    var owners, n := Owners(gs, |gs|), |h.letters| - |base|;
    assert owners + Copies(|gs|, 0) == owners;
    StyledLength(h, italic, base, owners, gs, |gs|, top, first);
    BelowSuffix(gs, |gs|, n);
    EndComesOut(owners[n..], gs, italic, bold, top, first);
    StyledEmptied(h, italic, base, owners, gs, |gs|, top, first, Which(italic, bold), y, width, italic, |gs|);
    var h' := Emptied(h, Which(italic, bold), y, width);
    assert h'.letters[|base|..] == ls;
    assert owners[..|ls|] == owners;
  }

  lemma StyledAtStart(base: seq<Letter>, x: int, gs: seq<Glyph>, top: bool, first: bool)
    ensures StyledAt(Place(base, "", x), false, base, gs, 0, 0, top, first)
  {
  }

  /** A space of a short gap, all in all. */
  lemma SpaceTyped(l: Line, i: nat, mid: nat, line: seq<Ink>, s: State, t: State, h: Place, m: Metrics)
      returns (j: nat, k: nat)
    requires i < |l.gs| && l.gs[i].Gap? && mid < l.gs[i].n < 4 && At(l, i, mid, line, s)
    requires PlacedAt(h, l.letters, l.gs, i, mid, m) && StyledAt(h, s.italic, l.letters, l.gs, i, mid, l.top, l.first)
    requires t == s.(column := s.column + 1, buffered := s.buffered + 1, c := s.c + 1)
    ensures j <= |l.gs| && (k > 0 ==> j < |l.gs| && l.gs[j].Gap?) && At(l, j, k, line, t)
    ensures PlacedAt(Typed(h, ' '), l.letters, l.gs, j, k, m)
    ensures StyledAt(Typed(h, ' '), t.italic, l.letters, l.gs, j, k, l.top, l.first)
  {
    hide At, PlacedAt, StyledAt, Typed;
    AfterSpace(l, i, mid, line, s, t);
    PlacedBlank(h, l.letters, l.gs, i, mid, m);
    StyledBlank(h, s.italic, l.letters, l.gs, i, mid, l.top, l.first);
    j, k := if mid + 1 == l.gs[i].n then i + 1 else i, if mid + 1 == l.gs[i].n then 0 else mid + 1;
  }

  /** A tab or a long gap, all in all. */
  lemma GapSkipped(l: Line, i: nat, line: seq<Ink>, s: State, t: State, h: Place, column: nat, m: Metrics)
      returns (line': seq<Ink>)
    requires i < |l.gs| && Skips(l.gs[i]) && At(l, i, 0, line, s) && (l.top ==> s.first)
    requires PlacedAt(h, l.letters, l.gs, i, 0, m) && StyledAt(h, s.italic, l.letters, l.gs, i, 0, l.top, l.first)
    requires Redrawn(s, t) && t.column == column == ColumnAfter(l.gs[i], s.column) && t.c == s.c + |Encode(l.gs[i])|
    ensures At(l, i + 1, 0, line', t)
    ensures var h' := Skipped(h, Which(s.italic, s.first), column, l.y, m);
      PlacedAt(h', l.letters, l.gs, i + 1, 0, m) && StyledAt(h', false, l.letters, l.gs, i + 1, 0, l.top, l.first)
  {
    hide At, PlacedAt, StyledAt, Skipped, Redrawn, ColumnAfter, NoBold;
    ColumnHere(l, i, 0, line, s);
    FirstHere(l, i, 0, line, s);
    line' := AfterSkip(l, i, line, s, t);
    ColumnHere(l, i + 1, 0, line', t);
    StyledSkip(h, s.italic, s.first, l.letters, l.gs, i, l.top, l.first, column, l.y, m);
    PlacedSkip(h, l.letters, l.gs, i, Which(s.italic, s.first), l.y, m);
  }

  // ---------------------------------------------------------------------------------------
  // Headings, and pages
  // ---------------------------------------------------------------------------------------

  lemma {:induction false} MarksAt(ink: seq<Ink>, k: nat)
    requires k < |ink|
    ensures Marks(ink)[k] == Mark(ink[k].ch, ink[k].y)
  {
    if k < |ink| - 1 {
      MarksAt(ink[..|ink| - 1], k);
    }
  }

  lemma SameMark(a: seq<Ink>, b: seq<Ink>, ink: Ink) returns (ink': Ink)
    requires Marks(a) == Marks(b) && ink in a
    ensures ink' in b && ink'.ch == ink.ch
  {
    var k: nat :| k < |a| && a[k] == ink;
    MarksAt(a, k);
    MarksAt(b, k);
    ink' := b[k];
  }

  /** The buffer is all capitals exactly when the line is. */
  lemma CapitalsInBuffer(gs: seq<Glyph>, text: string, style: Style, y: int)
    requires Marks(Shown(text, style, y)) == Marks(Target(gs, |gs|, y))
    ensures (forall i :: 0 <= i < |text| ==> IsCapital(text[i])) <==> Capitals(gs)
  {
    hide Marks, Shown, Target;
    forall i | 0 <= i < |text| && !IsCapital(text[i]) ensures !Capitals(gs) {
      TextIsShown(text, style, y, i);
      var ink := SameMark(Shown(text, style, y), Target(gs, |gs|, y), Ink(text[i], style, y));
      var k := TargetIsGlyph(gs, |gs|, y, ink);
    }
    forall k | 0 <= k < |gs| && Visible(gs[k]) && !IsCapital(gs[k].ch)
      ensures exists i :: 0 <= i < |text| && !IsCapital(text[i])
    {
      InTarget(gs, |gs|, y, k);
      var ink := SameMark(Target(gs, |gs|, y), Shown(text, style, y), InkOf(gs[k], y)[0]);
      ShownIsText(text, style, y, ink);
    }
  }

  /** At the end of a line the position is the margin and the buffer all capitals exactly in a heading. */
  lemma HeadingAtEnd(l: Line, line: seq<Ink>, s: State, pending: string, style: Style)
    requires At(l, |l.gs|, 0, line, s) && s.inked == s.drawn + Shown(pending, style, l.y)
    ensures s.margin && (forall i :: 0 <= i < |pending| ==> IsCapital(pending[i])) <==> IsHeading(l.gs)
  {
    hide Shown, Target, Marks, Column, Cells, Offset, NoBold, IsCapital, Capitals;
    if s.margin {
      assert l.base + line + [] == l.base + line;
      SameBack(l.base, Shown(pending, style, l.y), line);
      CapitalsInBuffer(l.gs, pending, style, l.y);
    }
  }

  /** The letters of the first k lines of a page that begins with line number n, each in its style. */
  ghost predicate PageStyled(ls: seq<Letter>, page: seq<seq<Glyph>>, n: nat, first: bool, k: nat)
    requires k <= |page|
    decreases k
  {
    if k == 0 then ls == []
    else
      var gs := page[k - 1];
      var owners := Owners(gs, |gs|);
      && |owners| <= |ls|
      && PageStyled(ls[..|ls| - |owners|], page, n, first, k - 1)
      && LineStyled(ls[|ls| - |owners|..], owners, gs, (n + k - 1) % NLINES == 0, FirstAt(page, n, first, k - 1))
  }

  lemma PageStyledMore(ls: seq<Letter>, line: seq<Letter>, page: seq<seq<Glyph>>, n: nat, first: bool, k: nat)
    requires k < |page| && PageStyled(ls, page, n, first, k)
    requires LineStyled(line, Owners(page[k], |page[k]|), page[k], (n + k) % NLINES == 0, FirstAt(page, n, first, k))
    ensures PageStyled(ls + line, page, n, first, k + 1)
  {
    assert (ls + line)[..|ls|] == ls && (ls + line)[|ls|..] == line;
  }

  lemma NoLineStyled(page: seq<seq<Glyph>>, n: nat, first: bool)
    ensures PageStyled([], page, n, first, 0)
  {
  }
}

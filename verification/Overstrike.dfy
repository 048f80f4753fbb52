/**
 The lines of a formatted manual page as xman reads them: characters struck over themselves for bold, over an
 underscore for italics, tabs and runs of spaces.  What a line says, and what a sequence of text draws shows.
 */
module Overstrike {
  import opened Common

  const BACKSPACE: char := 8 as char
  const ESCAPE: char := 27 as char

  /** Lines on a page. */
  const NLINES := 66

  /** One position of a line.  Bold is struck again+1 times over itself, Gap is a whole run of spaces. */
  datatype Glyph = Plain(ch: char) | Bold(ch: char, again: nat) | Underlined(ch: char) | Tab | Gap(n: nat)

  datatype Style = NORMAL | BOLD | ITALIC | SYMBOL

  /** A style by the two flags. */
  function Which(italic: bool, bold: bool): Style {
    if bold then BOLD else if italic then ITALIC else NORMAL
  }

  /** A character on the screen. */
  datatype Ink = Ink(ch: char, style: Style, y: int)

  /** A character as it is drawn; blanks count. */
  datatype Letter = Letter(ch: char, style: Style, x: int, y: int)

  /** One call of DumpText. */
  datatype Event = Event(x: int, y: int, text: string, style: Style)

  // ---------------------------------------------------------------------------------------
  // The text of a line
  // ---------------------------------------------------------------------------------------

  function Strikes(ch: char, n: nat): (s: string)
    ensures |s| == 2 * n
  {
    if n == 0 then "" else [BACKSPACE, ch] + Strikes(ch, n - 1)
  }

  function Spaces(n: nat): (s: string)
    ensures |s| == n
  {
    if n == 0 then "" else [' '] + Spaces(n - 1)
  }

  function Encode(g: Glyph): string {
    match g
    case Plain(ch) => [ch]
    case Bold(ch, again) => [ch] + Strikes(ch, again + 1)
    case Underlined(ch) => ['_', BACKSPACE, ch]
    case Tab => ['\t']
    case Gap(n) => Spaces(n)
  }

  /** The text of the glyphs from i on, and the end of the line. */
  function LineFrom(gs: seq<Glyph>, i: nat): string
    requires i <= |gs|
    decreases |gs| - i
  {
    if i == |gs| then ['\n'] else Encode(gs[i]) + LineFrom(gs, i + 1)
  }

  predicate Ordinary(ch: char) {
    ch !in {'\0', '\n', '\t', ' ', ESCAPE, BACKSPACE, '_'}
  }

  predicate GlyphOk(g: Glyph) {
    match g
    case Tab => true
    case Gap(n) => n > 0
    case _ => Ordinary(g.ch)
  }

  /** A line of glyphs, every run of spaces being one gap. */
  ghost predicate LineOk(gs: seq<Glyph>) {
    && (forall i :: 0 <= i < |gs| ==> GlyphOk(gs[i]))
    && forall i, j :: 0 <= i && j == i + 1 && j < |gs| ==> !(gs[i].Gap? && gs[j].Gap?)
  }

  // ---------------------------------------------------------------------------------------
  // What the line says
  // ---------------------------------------------------------------------------------------

  function InkOf(g: Glyph, y: int): seq<Ink> {
    match g
    case Plain(ch) => [Ink(ch, NORMAL, y)]
    case Bold(ch, _) => [Ink(ch, BOLD, y)]
    case Underlined(ch) => [Ink(ch, ITALIC, y)]
    case _ => []
  }

  /** The characters of the first i glyphs in their styles; blanks leave no ink. */
  function Target(gs: seq<Glyph>, i: nat, y: int): seq<Ink>
    requires i <= |gs|
  {
    if i == 0 then [] else Target(gs, i - 1, y) + InkOf(gs[i - 1], y)
  }

  function ColumnAfter(g: Glyph, column: nat): nat {
    match g
    case Tab => column + 8 - column % 8
    case Gap(n) => column + n
    case _ => column + 1
  }

  /** The visual column behind the first i glyphs, tab stops being every eight columns. */
  function Column(gs: seq<Glyph>, i: nat): nat
    requires i <= |gs|
  {
    if i == 0 then 0 else ColumnAfter(gs[i - 1], Column(gs, i - 1))
  }

  /** How much of the buffer the first i glyphs may take: a gap of four or more is not buffered. */
  function Cells(gs: seq<Glyph>, i: nat): nat
    requires i <= |gs|
  {
    if i == 0 then 0
    else Cells(gs, i - 1) + match gs[i - 1] case Tab => 0 case Gap(n) => (if n < 4 then n else 0) case _ => 1
  }

  predicate Visible(g: Glyph) {
    !g.Tab? && !g.Gap?
  }

  predicate IsUpper(c: char) {
    'A' <= c <= 'Z'
  }

  /** Among the first i glyphs there is none struck over itself. */
  predicate NoBold(gs: seq<Glyph>, i: nat)
    requires i <= |gs|
  {
    i == 0 || (!gs[i - 1].Bold? && NoBold(gs, i - 1))
  }

  predicate HasUnderlined(gs: seq<Glyph>, i: nat)
    requires i <= |gs|
  {
    i > 0 && (gs[i - 1].Underlined? || HasUnderlined(gs, i - 1))
  }

  /** Glyphs that end up in the buffer: not tabs, long gaps and struck characters. */
  predicate Buffered(g: Glyph) {
    g.Plain? || g.Underlined? || (g.Gap? && g.n < 4)
  }

  /** The first i glyphs are one run of buffered text in one style from the margin on: no tab, no gap of four or more,
      no struck character and no change of style among them. */
  predicate OneRun(gs: seq<Glyph>, i: nat)
    requires i <= |gs|
  {
    i == 0
    || (&& OneRun(gs, i - 1) && Buffered(gs[i - 1])
        && (i > 1 && gs[i - 1].Plain? ==> !HasUnderlined(gs, i - 1))
        && (i > 1 && gs[i - 1].Underlined? ==> HasUnderlined(gs, i - 1)))
  }

  /** The buffer is not empty behind the first i glyphs. */
  predicate BufferedAt(gs: seq<Glyph>, i: nat)
    requires i <= |gs|
  {
    i > 0 && Buffered(gs[i - 1])
  }

  predicate IsCapital(c: char) {
    IsUpper(c) || IsSpace(c)
  }

  ghost predicate Capitals(gs: seq<Glyph>) {
    forall i :: 0 <= i < |gs| && Visible(gs[i]) ==> IsCapital(gs[i].ch)
  }

  /** A heading: a line of capitals in one run from the margin on. */
  ghost predicate IsHeading(gs: seq<Glyph>) {
    OneRun(gs, |gs|) && Capitals(gs)
  }

  function Restyled(ink: seq<Ink>, style: Style): seq<Ink> {
    if ink == [] then []
    else
      var last := |ink| - 1;
      Restyled(ink[..last], style) + [ink[last].(style := style)]
  }

  /** What a line shows that is not the first of its page: the characters in their styles, and a heading in bold. */
  ghost function Said(gs: seq<Glyph>, y: int): seq<Ink> {
    if IsHeading(gs) then Restyled(Target(gs, |gs|, y), BOLD) else Target(gs, |gs|, y)
  }

  /** A character on the screen, whatever its style. */
  datatype Mark = Mark(ch: char, y: int)

  /** Which characters are shown on which line, in the order of drawing. */
  function Marks(ink: seq<Ink>): (m: seq<Mark>)
    ensures |m| == |ink|
  {
    if ink == [] then []
    else
      var last := |ink| - 1;
      Marks(ink[..last]) + [Mark(ink[last].ch, ink[last].y)]
  }

  lemma {:induction false} MarksConcat(a: seq<Ink>, b: seq<Ink>)
    ensures Marks(a + b) == Marks(a) + Marks(b)
  {
    if b == [] {
      assert a + b == a;
    } else {
      var front := b[..|b| - 1];
      assert (a + b)[..|a + b| - 1] == a + front;
      MarksConcat(a, front);
    }
  }

  lemma SameBack<T>(a: seq<T>, b: seq<T>, c: seq<T>)
    requires a + b == a + c
    ensures b == c
  {
    assert b == (a + b)[|a|..];
    assert c == (a + c)[|a|..];
  }

  lemma MarksCancel(a: seq<Ink>, b: seq<Ink>, c: seq<Ink>)
    requires Marks(a + b) == Marks(a + c)
    ensures Marks(b) == Marks(c)
  {
    MarksConcat(a, b);
    MarksConcat(a, c);
    SameBack(Marks(a), Marks(b), Marks(c));
  }

  /** The same characters, and in the same styles if that matters. */
  predicate Agree(exact: bool, a: seq<Ink>, b: seq<Ink>) {
    if exact then a == b else Marks(a) == Marks(b)
  }

  lemma AgreeConcat(exact: bool, a: seq<Ink>, b: seq<Ink>, more: seq<Ink>)
    requires Agree(exact, a, b)
    ensures Agree(exact, a + more, b + more)
  {
    MarksConcat(a, more);
    MarksConcat(b, more);
  }

  // ---------------------------------------------------------------------------------------
  // What draws show
  // ---------------------------------------------------------------------------------------

  function Shown(text: string, style: Style, y: int): seq<Ink> {
    if text == "" then []
    else
      var last := text[|text| - 1];
      Shown(text[..|text| - 1], style, y) + (if last == ' ' then [] else [Ink(last, style, y)])
  }

  function Drawn(out: seq<Event>): seq<Ink> {
    if out == [] then []
    else
      var e := out[|out| - 1];
      Drawn(out[..|out| - 1]) + Shown(e.text, e.style, e.y)
  }

  lemma ShownOneMore(text: string, c: char, style: Style, y: int)
    ensures Shown(text + [c], style, y) == Shown(text, style, y) + (if c == ' ' then [] else [Ink(c, style, y)])
  {
    assert (text + [c])[..|text|] == text;
  }

  lemma NothingShown(style: Style, y: int)
    ensures Shown("", style, y) == []
  {
  }

  /** The same text in two styles. */
  lemma {:induction false} ShownInStyles(text: string, s1: Style, s2: Style, y: int)
    ensures Marks(Shown(text, s1, y)) == Marks(Shown(text, s2, y))
    ensures Shown(text, s2, y) == Restyled(Shown(text, s1, y), s2)
  {
    if text != "" {
      var front, last := text[..|text| - 1], text[|text| - 1];
      ShownInStyles(front, s1, s2, y);
      if last == ' ' {
        assert Shown(text, s1, y) == Shown(front, s1, y) && Shown(text, s2, y) == Shown(front, s2, y);
      } else {
        var a, b := Shown(text, s1, y), Shown(text, s2, y);
        assert a[..|a| - 1] == Shown(front, s1, y) && b[..|b| - 1] == Shown(front, s2, y);
      }
    }
  }

  lemma DrawnOneMore(out: seq<Event>, e: Event)
    ensures Drawn(out + [e]) == Drawn(out) + Shown(e.text, e.style, e.y)
  {
    assert (out + [e])[..|out|] == out;
  }

  /** What is shown is a character of the text. */
  lemma {:induction false} ShownIsText(text: string, style: Style, y: int, ink: Ink)
    requires ink in Shown(text, style, y)
    ensures ink.ch in text && ink.ch != ' ' && ink.style == style && ink.y == y
  {
    if text != "" {
      var front, last := text[..|text| - 1], text[|text| - 1];
      if ink in Shown(front, style, y) {
        ShownIsText(front, style, y, ink);
      }
    }
  }

  /** What is a character of the text is shown, unless it is a blank. */
  lemma {:induction false} TextIsShown(text: string, style: Style, y: int, i: nat)
    requires i < |text| && text[i] != ' '
    ensures Ink(text[i], style, y) in Shown(text, style, y)
  {
    if i < |text| - 1 {
      TextIsShown(text[..|text| - 1], style, y, i);
    }
  }

  /** The ink of a line comes from its visible glyphs. */
  lemma {:induction false} TargetIsGlyph(gs: seq<Glyph>, i: nat, y: int, ink: Ink) returns (k: nat)
    requires i <= |gs| && ink in Target(gs, i, y)
    ensures k < i && Visible(gs[k]) && gs[k].ch == ink.ch
  {
    if ink in InkOf(gs[i - 1], y) {
      k := i - 1;
    } else {
      k := TargetIsGlyph(gs, i - 1, y, ink);
    }
  }

  /** A visible glyph is among the ink of its line. */
  lemma {:induction false} InTarget(gs: seq<Glyph>, i: nat, y: int, k: nat)
    requires k < i <= |gs| && Visible(gs[k])
    ensures InkOf(gs[k], y)[0] in Target(gs, i, y)
  {
    if k < i - 1 {
      InTarget(gs, i - 1, y, k);
    }
  }

  // ---------------------------------------------------------------------------------------
  // In the middle of a line
  // ---------------------------------------------------------------------------------------

  /** Where glyph i begins in the line. */
  function Offset(gs: seq<Glyph>, i: nat): nat
    requires i <= |gs|
  {
    if i == 0 then 0 else Offset(gs, i - 1) + |Encode(gs[i - 1])|
  }

  lemma DropTwice(s: string, o: nat, e: string, rest: string)
    requires o <= |s| && s[o..] == e + rest
    ensures o + |e| + |rest| == |s| && s[o + |e|..] == rest
  {
    assert s[o..][|e|..] == rest;
  }

  lemma {:induction false} LineSplit(gs: seq<Glyph>, i: nat)
    requires i <= |gs|
    ensures Offset(gs, i) + |LineFrom(gs, i)| == |LineFrom(gs, 0)|
    ensures LineFrom(gs, 0)[Offset(gs, i)..] == LineFrom(gs, i)
  {
    hide Encode;
    if i > 0 {
      LineSplit(gs, i - 1);
      DropTwice(LineFrom(gs, 0), Offset(gs, i - 1), Encode(gs[i - 1]), LineFrom(gs, i));
    }
  }

  /** The line stands in the text from position start on. */
  ghost predicate HoldsLine(text: string, start: nat, gs: seq<Glyph>) {
    && start + |LineFrom(gs, 0)| <= |text|
    && text[start..start + |LineFrom(gs, 0)|] == LineFrom(gs, 0)
  }

  /** Character j from glyph i on. */
  lemma CharAhead(text: string, start: nat, gs: seq<Glyph>, i: nat, j: nat)
    requires HoldsLine(text, start, gs) && i <= |gs| && j < |LineFrom(gs, i)|
    ensures start + Offset(gs, i) + j < |text| && text[start + Offset(gs, i) + j] == LineFrom(gs, i)[j]
  {
    hide LineFrom, Offset;
    LineSplit(gs, i);
    SliceAt(text, start, LineFrom(gs, 0), Offset(gs, i), LineFrom(gs, i), j);
  }

  lemma SliceAt(text: string, start: nat, whole: string, o: nat, rest: string, j: nat)
    requires start + |whole| <= |text| && text[start..start + |whole|] == whole
    requires o <= |whole| && whole[o..] == rest && j < |rest|
    ensures start + o + j < |text| && text[start + o + j] == rest[j]
  {
    assert whole[o..][j] == whole[o + j];
    assert text[start..start + |whole|][o + j] == text[start + (o + j)];
  }

  /** The characters of glyph i. */
  lemma GlyphAhead(text: string, start: nat, gs: seq<Glyph>, i: nat, j: nat)
    requires HoldsLine(text, start, gs) && i < |gs| && j < |Encode(gs[i])|
    ensures start + Offset(gs, i) + j < |text| && text[start + Offset(gs, i) + j] == Encode(gs[i])[j]
  {
    var e, rest := Encode(gs[i]), LineFrom(gs, i + 1);
    assert LineFrom(gs, i) == e + rest;
    CharAhead(text, start, gs, i, j);
  }

  /** The character behind glyph i - 1. */
  lemma NextAhead(text: string, start: nat, gs: seq<Glyph>, i: nat)
    requires HoldsLine(text, start, gs) && i <= |gs| && LineOk(gs)
    ensures start + Offset(gs, i) < |text| && text[start + Offset(gs, i)] != BACKSPACE
    ensures i < |gs| && !gs[i].Gap? ==> text[start + Offset(gs, i)] != ' '
    ensures i == |gs| ==> text[start + Offset(gs, i)] == '\n'
  {
    var _, _ := FirstAhead(text, start, gs, i);
  }

  lemma FirstAhead(text: string, start: nat, gs: seq<Glyph>, i: nat) returns (k: nat, first: char)
    requires HoldsLine(text, start, gs) && i <= |gs| && LineOk(gs)
    ensures k == start + Offset(gs, i) < |text| && text[k] == first != BACKSPACE
    ensures i < |gs| && !gs[i].Gap? ==> first != ' '
    ensures i == |gs| ==> first == '\n'
  {
    hide LineOk, HoldsLine, Offset, LineFrom;
    k := start + Offset(gs, i);
    NextBegins(gs, i);
    first := LineFrom(gs, i)[0];
    CharAhead(text, start, gs, i, 0);
  }

  /** The ink of a glyph that has been read in part: a character that will turn out to be bold. */
  function Partial(gs: seq<Glyph>, i: nat, mid: nat, y: int): seq<Ink> {
    if i < |gs| && gs[i].Bold? && mid == 1 then [Ink(gs[i].ch, NORMAL, y)] else []
  }

  lemma {:induction false} StrikesAt(ch: char, n: nat, j: nat)
    requires j < n
    ensures Strikes(ch, n)[2 * j] == BACKSPACE && Strikes(ch, n)[2 * j + 1] == ch
  {
    if j > 0 {
      StrikesAt(ch, n - 1, j - 1);
    }
  }

  lemma {:induction false} SpacesAt(n: nat, j: nat)
    requires j < n
    ensures Spaces(n)[j] == ' '
  {
    if j > 0 {
      SpacesAt(n - 1, j - 1);
    }
  }

  /** What the next glyph begins with. */
  lemma NextBegins(gs: seq<Glyph>, i: nat)
    requires i <= |gs| && LineOk(gs)
    ensures |LineFrom(gs, i)| > 0 && LineFrom(gs, i)[0] != BACKSPACE
    ensures i < |gs| && !gs[i].Gap? ==> LineFrom(gs, i)[0] != ' '
    ensures i == |gs| ==> LineFrom(gs, i)[0] == '\n'
  {
    if i < |gs| && gs[i].Gap? {
      SpacesAt(gs[i].n, 0);
    }
  }

  /** A line being printed: its glyphs, where it begins in the text, where it goes on the screen, what is drawn above
      it, ink and letters, whether the formatter takes it to be the first of its page, and whether its number says that
      it is. */
  datatype Line = Line(gs: seq<Glyph>, start: nat, y: int, base: seq<Ink>, letters: seq<Letter>, first: bool, top: bool)
  {
    predicate Exact() {
      !first && !top
    }
  }

  /** The formatter in the middle of a line: what is drawn and buffered, what is drawn, the column, the number of
      buffered characters, the place in the text, whether the position is still the margin, and the two flags. */
  datatype State = State(inked: seq<Ink>, drawn: seq<Ink>, column: nat, buffered: nat, c: nat, margin: bool,
                         italic: bool, first: bool)

  /** Whether the position is still the margin, and the buffer empty, as the glyphs tell. */
  predicate Laid(gs: seq<Glyph>, i: nat, mid: nat, s: State)
    requires i <= |gs|
  {
    && (s.margin <==> OneRun(gs, i))
    && (s.margin ==> s.italic == HasUnderlined(gs, i))
    && (s.buffered > 0 <==> BufferedAt(gs, i) || mid > 0)
  }

  /** The formatter stands behind mid characters of glyph i of the line: what is drawn and buffered, `line`, is what
      the line says so far, and the column is the visual one. */
  ghost predicate At(l: Line, i: nat, mid: nat, line: seq<Ink>, s: State) {
    && i <= |l.gs| && s.c == l.start + Offset(l.gs, i) + mid
    && s.inked == l.base + line + Partial(l.gs, i, mid, l.y)
    && l.base <= s.drawn && s.drawn <= s.inked
    && Agree(l.Exact(), line, Target(l.gs, i, l.y))
    && s.column == Column(l.gs, i) + mid
    && s.buffered <= Cells(l.gs, i) + mid
    && (s.margin ==> s.drawn == l.base)
    && (!l.top ==> (s.first <==> l.first && NoBold(l.gs, i)))
    && (mid > 0 ==> i < |l.gs| && ((l.gs[i].Bold? && mid == 1) || (l.gs[i].Gap? && mid < l.gs[i].n < 4)))
    && ((mid > 0 && l.gs[i].Bold?) || Laid(l.gs, i, mid, s))
  }

  lemma {:induction false} CellsGrow(gs: seq<Glyph>, i: nat, j: nat)
    requires i <= j <= |gs|
    ensures Cells(gs, i) <= Cells(gs, j)
  {
    if i < j {
      CellsGrow(gs, i, j - 1);
    }
  }

  /** A character of glyph i still has room. */
  lemma RoomFor(gs: seq<Glyph>, i: nat, mid: nat)
    requires i < |gs| && (if gs[i].Gap? then mid < gs[i].n else mid == 0)
    ensures (gs[i].Gap? && gs[i].n < 4) || Visible(gs[i]) ==> Cells(gs, i) + mid < Cells(gs, |gs|)
    ensures Cells(gs, i) <= Cells(gs, |gs|)
  {
    CellsGrow(gs, i + 1, |gs|);
    CellsGrow(gs, i, |gs|);
  }

  lemma TargetOneMore(l: Line, i: nat, line: seq<Ink>)
    requires i < |l.gs| && Agree(l.Exact(), line, Target(l.gs, i, l.y))
    ensures Agree(l.Exact(), line + InkOf(l.gs[i], l.y), Target(l.gs, i + 1, l.y))
  {
    AgreeConcat(l.Exact(), line, Target(l.gs, i, l.y), InkOf(l.gs[i], l.y));
  }

  lemma BlankTarget(gs: seq<Glyph>, i: nat, y: int)
    requires i < |gs| && !Visible(gs[i])
    ensures Target(gs, i + 1, y) == Target(gs, i, y)
  {
    assert Target(gs, i, y) + [] == Target(gs, i, y);
  }

  /** What a step that reads a character into the buffer does; a change of style empties the buffer before. */
  predicate Read(s: State, t: State, italic: bool, ink: seq<Ink>, chars: nat) {
    && t.inked == s.inked + ink && s.drawn <= t.drawn && t.drawn <= t.inked
    && t.column == s.column + 1 && 0 < t.buffered <= s.buffered + 1 && t.c == s.c + chars
    && (t.margin <==> s.margin && (s.italic == italic || s.buffered == 0))
    && (t.margin ==> t.drawn == s.drawn) && t.italic == italic && t.first == s.first
  }

  /** Reading a character without style, or an underlined one. */
  lemma AfterChar(l: Line, i: nat, line: seq<Ink>, s: State, t: State) returns (line': seq<Ink>)
    requires i < |l.gs| && (l.gs[i].Plain? || l.gs[i].Underlined?) && At(l, i, 0, line, s)
    requires Read(s, t, l.gs[i].Underlined?, InkOf(l.gs[i], l.y), |Encode(l.gs[i])|)
    ensures At(l, i + 1, 0, line', t)
  {
    hide Marks, Target, Agree;
    line' := line + InkOf(l.gs[i], l.y);
    TargetOneMore(l, i, line);
    assert l.base + line + [] + InkOf(l.gs[i], l.y) == l.base + line' + [];
  }

  /** Reading a character that will be struck over. */
  lemma AfterFirstStrike(l: Line, i: nat, line: seq<Ink>, s: State, t: State)
    requires i < |l.gs| && l.gs[i].Bold? && At(l, i, 0, line, s)
    requires Read(s, t, false, [Ink(l.gs[i].ch, NORMAL, l.y)], 1)
    ensures At(l, i, 1, line, t)
  {
    assert l.base + line + [] == l.base + line;
  }

  /** Reading the strikes. */
  lemma AfterStrikes(l: Line, i: nat, line: seq<Ink>, before: seq<Ink>, s: State, t: State) returns (line': seq<Ink>)
    requires i < |l.gs| && l.gs[i].Bold? && At(l, i, 1, line, s) && before == l.base + line
    requires t.inked == t.drawn == before + [Ink(l.gs[i].ch, BOLD, l.y)] && t.column == s.column && t.buffered == 0
    requires t.c == s.c + 2 * (l.gs[i].again + 1) && !t.margin && !t.first
    ensures At(l, i + 1, 0, line', t)
  {
    hide Marks, Target, Agree;
    line' := line + InkOf(l.gs[i], l.y);
    TargetOneMore(l, i, line);
    assert before + [Ink(l.gs[i].ch, BOLD, l.y)] == l.base + line' + [];
  }

  /** The buffer is drawn, in bold when the line is the first of its page. */
  predicate Redrawn(s: State, t: State) {
    && t.inked == t.drawn && s.drawn <= t.drawn && Agree(!s.first, t.inked, s.inked) && t.buffered == 0
    && !t.margin && t.first == s.first
  }

  /** A tab or a run of blanks: the buffer is drawn and the columns skipped. */
  lemma AfterSkip(l: Line, i: nat, line: seq<Ink>, s: State, t: State) returns (line': seq<Ink>)
    requires i < |l.gs| && (l.gs[i].Tab? || (l.gs[i].Gap? && l.gs[i].n >= 4)) && At(l, i, 0, line, s)
    requires Redrawn(s, t) && t.column == ColumnAfter(l.gs[i], s.column) && t.c == s.c + |Encode(l.gs[i])|
    ensures At(l, i + 1, 0, line', t)
  {
    hide Marks, Target;
    line' := t.inked[|l.base|..];
    BlankTarget(l.gs, i, l.y);
    assert l.base <= t.drawn;
    assert t.inked == l.base + line' && l.base + line' + [] == l.base + line';
    assert s.inked == l.base + line by { assert l.base + line + [] == l.base + line; }
    if l.Exact() {
      SameBack(l.base, line', line);
    } else {
      MarksAlike(s, t);
      MarksCancel(l.base, line', line);
    }
  }

  lemma MarksAlike(s: State, t: State)
    requires Agree(!s.first, t.inked, s.inked)
    ensures Marks(t.inked) == Marks(s.inked)
  {
  }

  /** Reading a space of a short run. */
  lemma AfterSpace(l: Line, i: nat, mid: nat, line: seq<Ink>, s: State, t: State)
    requires i < |l.gs| && l.gs[i].Gap? && mid < l.gs[i].n < 4 && At(l, i, mid, line, s)
    requires t == s.(column := s.column + 1, buffered := s.buffered + 1, c := s.c + 1)
    ensures if mid + 1 == l.gs[i].n then At(l, i + 1, 0, line, t) else At(l, i, mid + 1, line, t)
  {
    hide Marks, Agree;
    BlankTarget(l.gs, i, l.y);
  }

  lemma CodeAhead(text: string, start: nat, gs: seq<Glyph>, i: nat, code: string, j: nat)
    requires HoldsLine(text, start, gs) && i < |gs| && Encode(gs[i]) == code && j < |code|
    ensures start + Offset(gs, i) + j < |text| && text[start + Offset(gs, i) + j] == code[j]
  {
    GlyphAhead(text, start, gs, i, j);
  }

  lemma UnderscoreAhead(text: string, start: nat, gs: seq<Glyph>, i: nat, c: nat)
    requires HoldsLine(text, start, gs) && i < |gs| && gs[i].Underlined? && c == start + Offset(gs, i)
    ensures c + 2 < |text| && text[c] == '_' && text[c + 1] == BACKSPACE && text[c + 2] == gs[i].ch
  {
    var code := ['_', BACKSPACE, gs[i].ch];
    CodeAhead(text, start, gs, i, code, 0);
    CodeAhead(text, start, gs, i, code, 1);
    CodeAhead(text, start, gs, i, code, 2);
  }

  lemma BoldCode(g: Glyph, k: nat, j: nat)
    requires g.Bold? && k <= g.again && j == 1 + 2 * k
    ensures j + 1 < |Encode(g)| && Encode(g)[j] == BACKSPACE && Encode(g)[j + 1] == g.ch
  {
    StrikesAt(g.ch, g.again + 1, k);
  }

  lemma StrikeAhead(text: string, start: nat, gs: seq<Glyph>, i: nat, k: nat, p: nat)
    requires HoldsLine(text, start, gs) && i < |gs| && gs[i].Bold? && p == start + Offset(gs, i) + 1 + 2 * k
    requires k <= gs[i].again
    ensures p + 1 < |text| && text[p] == BACKSPACE && text[p + 1] == gs[i].ch
  {
    var code, j := Encode(gs[i]), 1 + 2 * k;
    BoldCode(gs[i], k, j);
    CodeAhead(text, start, gs, i, code, j);
    CodeAhead(text, start, gs, i, code, j + 1);
  }

  /** From position p on the text strikes ch over m times, and then goes on with something else. */
  predicate Struck(text: string, p: nat, ch: char, m: nat)
    decreases m
  {
    if m == 0 then p < |text| && text[p] != BACKSPACE
    else p + 1 < |text| && text[p] == BACKSPACE && text[p + 1] == ch && Struck(text, p + 2, ch, m - 1)
  }

  lemma OffsetBehindBold(gs: seq<Glyph>, i: nat)
    requires i < |gs| && gs[i].Bold?
    ensures Offset(gs, i + 1) == Offset(gs, i) + 1 + 2 * (gs[i].again + 1)
  {
  }

  /** The strikes ahead of a character that is struck over. */
  lemma {:induction false} StrikesAhead(text: string, start: nat, gs: seq<Glyph>, i: nat, m: nat, p: nat)
    requires HoldsLine(text, start, gs) && i < |gs| && gs[i].Bold? && LineOk(gs) && m <= gs[i].again + 1
    requires p == start + Offset(gs, i) + 1 + 2 * (gs[i].again + 1 - m)
    ensures Struck(text, p, gs[i].ch, m)
    decreases m
  {
    hide Offset, HoldsLine, LineOk;
    if m == 0 {
      OffsetBehindBold(gs, i);
      NextAhead(text, start, gs, i + 1);
    } else {
      StrikeAhead(text, start, gs, i, gs[i].again + 1 - m, p);
      StrikesAhead(text, start, gs, i, m - 1, p + 2);
    }
  }

  lemma FirstStrikeAhead(text: string, start: nat, gs: seq<Glyph>, i: nat, c: nat)
    requires HoldsLine(text, start, gs) && i < |gs| && gs[i].Bold? && LineOk(gs) && c == start + Offset(gs, i) + 1
    ensures c < |text| && text[c - 1] == gs[i].ch && Struck(text, c, gs[i].ch, gs[i].again + 1)
  {
    CodeAhead(text, start, gs, i, Encode(gs[i]), 0);
    StrikesAhead(text, start, gs, i, gs[i].again + 1, c);
  }

  /** The character to be struck over is the last of the ink, and the strikes are ahead. */
  lemma Striking(text: string, l: Line, i: nat, line: seq<Ink>, s: State)
      returns (before: seq<Ink>, ch: char, m: nat)
    requires HoldsLine(text, l.start, l.gs) && LineOk(l.gs) && i < |l.gs| && l.gs[i].Bold? && At(l, i, 1, line, s)
    ensures before == l.base + line && ch == l.gs[i].ch != ' ' && m == l.gs[i].again + 1
    ensures s.inked == before + [Ink(ch, NORMAL, l.y)]
    ensures 0 < s.c < |text| && text[s.c - 1] == ch && Struck(text, s.c, ch, m)
  {
    before, ch, m := l.base + line, l.gs[i].ch, l.gs[i].again + 1;
    FirstStrikeAhead(text, l.start, l.gs, i, s.c);
  }

  lemma GapCode(gs: seq<Glyph>, i: nat, j: nat)
    requires i < |gs| && gs[i].Gap?
    ensures Offset(gs, i + 1) == Offset(gs, i) + gs[i].n && |Encode(gs[i])| == gs[i].n
    ensures j < gs[i].n ==> Encode(gs[i])[j] == ' '
  {
    if j < gs[i].n {
      SpacesAt(gs[i].n, j);
    }
  }

  /** The spaces ahead in a gap. */
  lemma SpacesAhead(text: string, start: nat, gs: seq<Glyph>, i: nat, mid: nat, c: nat)
    requires HoldsLine(text, start, gs) && i < |gs| && gs[i].Gap? && LineOk(gs)
    requires mid < gs[i].n && c == start + Offset(gs, i) + mid
    ensures var m := gs[i].n - mid;
      c + m < |text| && text[c + m] != ' ' && forall j :: c <= j < c + m ==> text[j] == ' '
  {
    hide HoldsLine, Offset, Encode;
    var m := gs[i].n - mid;
    assert i + 1 < |gs| ==> !gs[i + 1].Gap?;
    GapCode(gs, i, 0);
    NextAhead(text, start, gs, i + 1);
    forall j | c <= j < c + m ensures text[j] == ' ' {
      GapCode(gs, i, mid + (j - c));
      GlyphAhead(text, start, gs, i, mid + (j - c));
    }
  }

  // ---------------------------------------------------------------------------------------
  // The end of a line, and pages
  // ---------------------------------------------------------------------------------------

  /** The character a glyph goes on with tells its kind. */
  lemma CharTells(g: Glyph, mid: nat) returns (x: char)
    requires GlyphOk(g) && (mid > 0 ==> (g.Bold? && mid == 1) || (g.Gap? && mid < g.n))
    ensures mid < |Encode(g)| && x == Encode(g)[mid]
    ensures x != '\n' && (x == '\t' <==> g.Tab?) && (x == ' ' <==> g.Gap?)
    ensures (x == '_' <==> g.Underlined?) && (x == BACKSPACE <==> g.Bold? && mid == 1)
  {
    match g
    case Gap(n) => SpacesAt(n, mid); x := Encode(g)[mid];
    case _ => x := Encode(g)[mid];
  }

  /** What stands at the loop's place in the text tells which glyph it is in. */
  lemma WhichGlyph(text: string, start: nat, gs: seq<Glyph>, i: nat, mid: nat, c: nat)
    requires HoldsLine(text, start, gs) && LineOk(gs) && i < |gs| && c == start + Offset(gs, i) + mid
    requires mid > 0 ==> (gs[i].Bold? && mid == 1) || (gs[i].Gap? && mid < gs[i].n)
    ensures c < |text| && text[c] != '\n' && (text[c] == '\t' <==> gs[i].Tab?) && (text[c] == ' ' <==> gs[i].Gap?)
    ensures (text[c] == '_' <==> gs[i].Underlined?) && (text[c] == BACKSPACE <==> gs[i].Bold? && mid == 1)
  {
    var g := gs[i];
    var x := CharTells(g, mid);
    CodeAhead(text, start, gs, i, Encode(g), mid);
  }

  lemma WhetherAtEnd(text: string, l: Line, i: nat, mid: nat, line: seq<Ink>, s: State)
    requires HoldsLine(text, l.start, l.gs) && LineOk(l.gs) && At(l, i, mid, line, s)
    ensures s.c < |text| && (text[s.c] == '\n' <==> i == |l.gs|)
  {
    hide Agree, Target, Partial, Laid, HoldsLine, LineOk;
    if i == |l.gs| {
      NextAhead(text, l.start, l.gs, i);
    } else {
      WhichGlyph(text, l.start, l.gs, i, mid, s.c);
    }
  }

  /** A buffered line in one run is a heading exactly when the buffer is all capitals; in bold it is itself restyled. */
  lemma OnlyHeadingsAreBold(gs: seq<Glyph>, text: string, style: Style, y: int)
    requires OneRun(gs, |gs|) && Shown(text, style, y) == Target(gs, |gs|, y)
    ensures (forall i :: 0 <= i < |text| ==> IsCapital(text[i])) <==> IsHeading(gs)
    ensures Shown(text, BOLD, y) == Restyled(Target(gs, |gs|, y), BOLD)
  {
    ShownInStyles(text, style, BOLD, y);
    forall i | 0 <= i < |text| && !IsCapital(text[i]) ensures !Capitals(gs) {
      TextIsShown(text, style, y, i);
      var k := TargetIsGlyph(gs, |gs|, y, Ink(text[i], style, y));
    }
    forall k | 0 <= k < |gs| && Visible(gs[k]) && !IsCapital(gs[k].ch)
      ensures exists i :: 0 <= i < |text| && !IsCapital(text[i])
    {
      InTarget(gs, |gs|, y, k);
      ShownIsText(text, style, y, InkOf(gs[k], y)[0]);
    }
  }

  /** What a line shows: each of its characters once, in order and on its line; and in its style, or in bold in a
      heading, unless the line is the first of its page. */
  ghost predicate LineShows(ink: seq<Ink>, gs: seq<Glyph>, top: bool, first: bool, y: int) {
    Marks(ink) == Marks(Target(gs, |gs|, y)) && (!first && !top ==> ink == Said(gs, y))
  }

  /** Whether the formatter takes the next line to be the first of its page. */
  predicate FirstAfter(gs: seq<Glyph>, top: bool, first: bool) {
    (top || (first && NoBold(gs, |gs|))) && !BufferedAt(gs, |gs|)
  }

  /** An empty line leaves the first line of a page still to come, one that ends in text is the first, and one that ends
      in a tab, a long gap or a struck character leaves it to come unless a character was struck, except in the line
      that is numbered as the first. */
  lemma {:induction false} WhenStillFirst(gs: seq<Glyph>, top: bool, first: bool)
    ensures gs == [] ==> FirstAfter(gs, top, first) == (top || first)
    ensures gs != [] ==>
      var last := gs[|gs| - 1];
      FirstAfter(gs, top, first) ==
        if last.Plain? || last.Underlined? || (last.Gap? && last.n < 4) then false
        else top || (first && forall i :: 0 <= i < |gs| ==> !gs[i].Bold?)
  {
    NoBoldIs(gs, |gs|);
  }

  lemma {:induction false} NoBoldIs(gs: seq<Glyph>, i: nat)
    requires i <= |gs|
    ensures NoBold(gs, i) <==> forall j :: 0 <= j < i ==> !gs[j].Bold?
  {
    if i > 0 {
      NoBoldIs(gs, i - 1);
    }
  }

  lemma FirstAtEnd(l: Line, line: seq<Ink>, s: State)
    requires At(l, |l.gs|, 0, line, s) && (l.top ==> s.first)
    ensures FirstAfter(l.gs, l.top, l.first) == (s.first && s.buffered == 0)
    ensures l.Exact() ==> !s.first
  {
  }

  lemma OnTop(l: Line, i: nat, mid: nat, line: seq<Ink>, s: State)
    requires At(l, i, mid, line, s) && l.top
    ensures At(l, i, mid, line, s.(first := true))
  {
  }

  lemma FirstHere(l: Line, i: nat, mid: nat, line: seq<Ink>, s: State)
    requires At(l, i, mid, line, s) && (l.top ==> s.first)
    ensures i <= |l.gs| && s.first == (l.top || (l.first && NoBold(l.gs, i)))
  {
  }

  lemma ColumnHere(l: Line, i: nat, mid: nat, line: seq<Ink>, s: State)
    requires At(l, i, mid, line, s)
    ensures i <= |l.gs| && s.column == Column(l.gs, i) + mid
  {
  }

  lemma PlaceAndRoom(l: Line, i: nat, mid: nat, line: seq<Ink>, s: State)
    requires At(l, i, mid, line, s)
    ensures i <= |l.gs| && s.c == l.start + Offset(l.gs, i) + mid && s.buffered <= Cells(l.gs, i) + mid
    ensures mid > 0 ==> i < |l.gs| && (l.gs[i].Gap? ==> l.gs[i].n < 4)
  {
  }

  /** The text of the line has been read; the buffer `pending` is drawn in bold or in the style at hand. */
  lemma AfterLine(l: Line, line: seq<Ink>, s: State, pending: string, style: Style, bold: bool, out: seq<Ink>)
      returns (ink: seq<Ink>)
    requires At(l, |l.gs|, 0, line, s) && s.buffered == |pending| && s.inked == s.drawn + Shown(pending, style, l.y)
    requires l.Exact() ==>
      (bold <==> pending != "" && s.margin && forall i :: 0 <= i < |pending| ==> IsCapital(pending[i]))
    requires out == s.drawn + Shown(pending, if bold then BOLD else style, l.y)
    ensures out == l.base + ink && LineShows(ink, l.gs, l.top, l.first, l.y)
  {
    hide Shown, Restyled, Marks, Said, Target, Laid, OneRun, NoBold, Column, Cells, Offset;
    ink := out[|l.base|..];
    assert out == l.base + ink;
    assert s.inked == l.base + line by { assert l.base + line + [] == l.base + line; }
    ShownInStyles(pending, style, BOLD, l.y);
    MarksConcat(s.drawn, Shown(pending, style, l.y));
    MarksConcat(s.drawn, Shown(pending, BOLD, l.y));
    MarksCancel(l.base, ink, line);
    if l.Exact() {
      ExactLine(l, line, s, pending, style, bold, ink);
    }
  }

  lemma ExactLine(l: Line, line: seq<Ink>, s: State, pending: string, style: Style, bold: bool, ink: seq<Ink>)
    requires l.Exact() && At(l, |l.gs|, 0, line, s) && s.inked == s.drawn + Shown(pending, style, l.y)
    requires s.inked == l.base + line
    requires bold <==> pending != "" && s.margin && forall i :: 0 <= i < |pending| ==> IsCapital(pending[i])
    requires l.base + ink == s.drawn + Shown(pending, if bold then BOLD else style, l.y)
    ensures ink == Said(l.gs, l.y)
  {
    if s.margin {
      SameBack(l.base, Shown(pending, style, l.y), line);
      SameBack(l.base, ink, Shown(pending, if bold then BOLD else style, l.y));
      OnlyHeadingsAreBold(l.gs, pending, style, l.y);
    } else {
      SameBack(l.base, ink, line);
    }
  }

  /** The lines stand in the text one after another from position c on. */
  ghost predicate HoldsPage(text: string, c: nat, page: seq<seq<Glyph>>)
    decreases |page|
  {
    page == [] || (HoldsLine(text, c, page[0]) && HoldsPage(text, c + |LineFrom(page[0], 0)|, page[1..]))
  }

  /** Lines that are not too long for a buffer with room for limit characters. */
  ghost predicate LineFits(gs: seq<Glyph>, limit: int) {
    LineOk(gs) && Cells(gs, |gs|) <= limit
  }

  ghost predicate AllFit(page: seq<seq<Glyph>>, limit: int) {
    forall k :: 0 <= k < |page| ==> LineFits(page[k], limit)
  }

  /** Whether the formatter takes line k of a page that begins with line number n to be the first of its page. */
  predicate FirstAt(page: seq<seq<Glyph>>, n: nat, first: bool, k: nat)
    requires k <= |page|
  {
    if k == 0 then first else FirstAfter(page[k - 1], (n + k - 1) % NLINES == 0, FirstAt(page, n, first, k - 1))
  }

  function LineY(y: int, height: int, k: nat): int {
    if k == 0 then y else LineY(y, height, k - 1) + height
  }

  /** The ink of the first k lines of a page that begins with line number n, one line after another. */
  ghost predicate PageShows(ink: seq<Ink>, page: seq<seq<Glyph>>, n: nat, first: bool, y: int, height: int, k: nat)
    requires k <= |page|
    decreases k
  {
    if k == 0 then ink == []
    else
      var gs := page[k - 1];
      var len := |Target(gs, |gs|, 0)|;
      && len <= |ink|
      && PageShows(ink[..|ink| - len], page, n, first, y, height, k - 1)
      && LineShows(ink[|ink| - len..], gs, (n + k - 1) % NLINES == 0, FirstAt(page, n, first, k - 1),
                   LineY(y, height, k - 1))
  }

  lemma {:induction false} TargetLength(gs: seq<Glyph>, i: nat, y: int, y': int)
    requires i <= |gs|
    ensures |Target(gs, i, y)| == |Target(gs, i, y')|
  {
    if i > 0 {
      TargetLength(gs, i - 1, y, y');
    }
  }

  lemma NoLineYet(page: seq<seq<Glyph>>, n: nat, first: bool, y: int, height: int)
    ensures PageShows([], page, n, first, y, height, 0) && PageInk(page, y, height, 0) == []
    ensures FirstAt(page, n, first, 0) == first && LineY(y, height, 0) == y
  {
  }

  /** One line more. */
  lemma PageShowsMore(ink: seq<Ink>, line: seq<Ink>, page: seq<seq<Glyph>>, n: nat, first: bool, y: int, height: int,
                      k: nat)
    requires k < |page| && PageShows(ink, page, n, first, y, height, k)
    requires LineShows(line, page[k], (n + k) % NLINES == 0, FirstAt(page, n, first, k), LineY(y, height, k))
    ensures PageShows(ink + line, page, n, first, y, height, k + 1)
    ensures LineY(y, height, k + 1) == LineY(y, height, k) + height
    ensures FirstAt(page, n, first, k + 1) == FirstAfter(page[k], (n + k) % NLINES == 0, FirstAt(page, n, first, k))
  {
    TargetLength(page[k], |page[k]|, 0, LineY(y, height, k));
    assert (ink + line)[..|ink|] == ink && (ink + line)[|ink|..] == line;
  }

  /** The ink of the first k lines, each a line height below the one before. */
  function PageInk(page: seq<seq<Glyph>>, y: int, height: int, k: nat): seq<Ink>
    requires k <= |page|
  {
    if k == 0 then []
    else PageInk(page, y, height, k - 1) + Target(page[k - 1], |page[k - 1]|, LineY(y, height, k - 1))
  }

  /** The ink of the last line, and that of the lines before it. */
  lemma LastLine(ink: seq<Ink>, page: seq<seq<Glyph>>, n: nat, first: bool, y: int, height: int, k: nat)
      returns (above: seq<Ink>, line: seq<Ink>)
    requires 0 < k <= |page| && PageShows(ink, page, n, first, y, height, k)
    ensures ink == above + line && PageShows(above, page, n, first, y, height, k - 1)
    ensures LineShows(line, page[k - 1], (n + k - 1) % NLINES == 0, FirstAt(page, n, first, k - 1),
                      LineY(y, height, k - 1))
  {
    hide LineShows, FirstAt, LineY;
    var cut := |ink| - |Target(page[k - 1], |page[k - 1]|, 0)|;
    above, line := ink[..cut], ink[cut..];
    assert ink == above + line;
  }

  /** Every page: each character is shown once, in order and on its line. */
  lemma {:induction false} PageMarks(ink: seq<Ink>, page: seq<seq<Glyph>>, n: nat, first: bool, y: int, height: int,
                                     k: nat)
    requires k <= |page| && PageShows(ink, page, n, first, y, height, k)
    ensures Marks(ink) == Marks(PageInk(page, y, height, k))
    decreases k
  {
    hide LineShows, Target, Marks, LineY, FirstAt, PageShows;
    if k == 0 {
      NoLineShown(ink, page, n, first, y, height);
    } else {
      var above, line := LastLine(ink, page, n, first, y, height, k);
      var wanted := Target(page[k - 1], |page[k - 1]|, LineY(y, height, k - 1));
      PageMarks(above, page, n, first, y, height, k - 1);
      LineMarks(line, page[k - 1], (n + k - 1) % NLINES == 0, FirstAt(page, n, first, k - 1), LineY(y, height, k - 1));
      MarksConcat(above, line);
      MarksConcat(PageInk(page, y, height, k - 1), wanted);
    }
  }

  lemma NoLineShown(ink: seq<Ink>, page: seq<seq<Glyph>>, n: nat, first: bool, y: int, height: int)
    requires PageShows(ink, page, n, first, y, height, 0)
    ensures ink == [] && PageInk(page, y, height, 0) == []
  {
  }

  lemma LineMarks(ink: seq<Ink>, gs: seq<Glyph>, top: bool, first: bool, y: int)
    requires LineShows(ink, gs, top, first, y)
    ensures Marks(ink) == Marks(Target(gs, |gs|, y))
  {
  }

  /** None of the first k lines of a page that begins with line number n is numbered as the first of its page, and none
      is a heading. */
  ghost predicate PlainLines(page: seq<seq<Glyph>>, n: nat, k: nat)
    requires k <= |page|
  {
    k == 0 || (PlainLines(page, n, k - 1) && (n + k - 1) % NLINES != 0 && !IsHeading(page[k - 1]))
  }

  /** Without first lines of pages and headings, each is in its style. */
  lemma {:induction false} PageStyles(ink: seq<Ink>, page: seq<seq<Glyph>>, n: nat, y: int, height: int, k: nat)
    requires k <= |page| && PageShows(ink, page, n, false, y, height, k) && PlainLines(page, n, k)
    ensures ink == PageInk(page, y, height, k) && !FirstAt(page, n, false, k)
    decreases k
  {
    hide IsHeading, Target, Restyled, LineY, Marks, BufferedAt, NoBold;
    if k > 0 {
      var above, line := LastLine(ink, page, n, false, y, height, k);
      PageStyles(above, page, n, y, height, k - 1);
      assert line == Said(page[k - 1], LineY(y, height, k - 1));
    }
  }

  lemma AtTheBeginning(l: Line, s: State)
    requires s == State(l.base, l.base, 0, 0, l.start, true, false, l.first)
    ensures At(l, 0, 0, [], s)
  {
    assert l.base + [] == l.base;
  }

  lemma LineLength(gs: seq<Glyph>)
    ensures Offset(gs, |gs|) + 1 == |LineFrom(gs, 0)|
  {
    LineSplit(gs, |gs|);
  }

  /** The first line of what is left of a page, and what is left below it. */
  lemma NextLine(text: string, c: nat, page: seq<seq<Glyph>>, k: nat, limit: int)
      returns (line: seq<Glyph>, end: nat)
    requires k < |page| && HoldsPage(text, c, page[k..]) && AllFit(page, limit)
    ensures line == page[k] && end == c + |LineFrom(line, 0)|
    ensures HoldsLine(text, c, line) && HoldsPage(text, end, page[k + 1..]) && LineFits(line, limit)
  {
    hide LineFrom, LineFits;
    line := page[k];
    end := c + |LineFrom(line, 0)|;
    assert page[k..][0] == line && page[k..][1..] == page[k + 1..];
  }
}

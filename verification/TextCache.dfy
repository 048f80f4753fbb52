/**
 xditview's batched text: PutCharacters collects runs of characters into XTextItems and
 FlushCharCache draws them with one XDrawText.  The batched drawing puts exactly the glyphs
 on the screen that drawing every run at once would put there, in the same order.
 */
module TextCache {
  import opened Common

  const TEXT_CACHE_SIZE := 256
  const CHAR_CACHE_SIZE := 1024

  /** A character code. */
  type Byte = int

  /** An XFontStruct: its server id and its metrics. */
  datatype Font = Font(fid: nat, perChar: Option<seq<int>>, minChar: int, maxWidth: int)

  function CharWidth(f: Font, c: Byte): int {
    if f.perChar.None? then f.maxWidth
    else if 0 <= c - f.minChar < |f.perChar.value| then f.perChar.value[c - f.minChar]
    else 0
  }

  datatype Glyph = Glyph(x: int, y: int, font: Font, c: Byte)

  /** The drawing position, the font of the graphics context, and what has been drawn. */
  datatype Pen = Pen(x: int, font: Font, glyphs: seq<Glyph>)

  function DrawChar(p: Pen, y: int, c: Byte): Pen {
    Pen(p.x + CharWidth(p.font, c), p.font, p.glyphs + [Glyph(p.x, y, p.font, c)])
  }

  /** Draw a run of characters on the line y, from the pen's position on. */
  function Draw(p: Pen, y: int, cs: seq<Byte>): Pen {
    if cs == [] then p else DrawChar(Draw(p, y, cs[..|cs| - 1]), y, cs[|cs| - 1])
  }

  lemma {:induction false} DrawConcat(p: Pen, y: int, a: seq<Byte>, b: seq<Byte>)
    ensures Draw(p, y, a + b) == Draw(Draw(p, y, a), y, b)
  {
    if b == [] {
      assert a + b == a;
    } else {
      var init := b[..|b| - 1];
      assert (a + b)[..|a + b| - 1] == a + init;
      DrawConcat(p, y, a, init);
    }
  }

  lemma {:induction false} DrawKeepsFont(p: Pen, y: int, cs: seq<Byte>)
    ensures Draw(p, y, cs).font == p.font
  {
    if cs != [] {
      DrawKeepsFont(p, y, cs[..|cs| - 1]);
    }
  }

  // ---------------------------------------------------------------------------------------
  // The server: what XDrawText does with a list of items
  // ---------------------------------------------------------------------------------------

  /** XTextItem; `chars` is the offset of its first character in the character cache. */
  datatype TextItem = TextItem(chars: nat, nchars: nat, delta: int, font: Option<Font>)

  const EMPTY_ITEM := TextItem(0, 0, 0, None)

  predicate Fits(it: TextItem, buf: seq<Byte>) {
    it.chars + it.nchars <= |buf|
  }

  function Chars(it: TextItem, buf: seq<Byte>): seq<Byte>
    requires Fits(it, buf)
  {
    buf[it.chars..it.chars + it.nchars]
  }

  /** Move by the delta, switch the font if the item names one, draw. */
  function DrawItem(it: TextItem, buf: seq<Byte>, p: Pen, y: int): Pen
    requires Fits(it, buf)
  {
    var f := if it.font.Some? then it.font.value else p.font;
    Draw(Pen(p.x + it.delta, f, p.glyphs), y, Chars(it, buf))
  }

  ghost predicate AllFit(items: seq<TextItem>, buf: seq<Byte>) {
    forall i :: 0 <= i < |items| ==> Fits(items[i], buf)
  }

  ghost function DrawItems(items: seq<TextItem>, buf: seq<Byte>, p: Pen, y: int): Pen
    requires AllFit(items, buf)
  {
    if items == [] then p
    else
      var last := |items| - 1;
      DrawItem(items[last], buf, DrawItems(items[..last], buf, p, y), y)
  }

  lemma SameChars(it: TextItem, buf: seq<Byte>, buf': seq<Byte>, n: nat)
    requires n <= |buf| == |buf'| && buf[..n] == buf'[..n] && it.chars + it.nchars <= n
    ensures Chars(it, buf) == Chars(it, buf')
  {
    assert Chars(it, buf) == buf[..n][it.chars..it.chars + it.nchars];
    assert Chars(it, buf') == buf'[..n][it.chars..it.chars + it.nchars];
  }

  /** Items only depend on the characters they name. */
  lemma {:induction false} DrawItemsFrame(items: seq<TextItem>, buf: seq<Byte>, buf': seq<Byte>, p: Pen, y: int, n: nat)
    requires AllFit(items, buf) && n <= |buf| == |buf'| && buf[..n] == buf'[..n]
    requires forall i :: 0 <= i < |items| ==> items[i].chars + items[i].nchars <= n
    ensures AllFit(items, buf')
    ensures DrawItems(items, buf, p, y) == DrawItems(items, buf', p, y)
  {
    if items == [] {
    } else {
      var last := |items| - 1;
      DrawItemsFrame(items[..last], buf, buf', p, y, n);
      SameChars(items[last], buf, buf', n);
    }
  }

  /** What XDrawText finds in memory behind the last usable item: characters of its own, a delta and a font. */
  datatype Slot = Slot(text: seq<Byte>, delta: int, font: Option<Font>)

  function DrawSlot(slot: Slot, p: Pen, y: int): Pen {
    var f := if slot.font.Some? then slot.font.value else p.font;
    Draw(Pen(p.x + slot.delta, f, p.glyphs), y, slot.text)
  }

  lemma DrawNothing(slot: Slot, p: Pen, y: int)
    requires slot.text == []
    ensures DrawSlot(slot, p, y).glyphs == p.glyphs
    ensures DrawSlot(slot, p, y).font == if slot.font.Some? then slot.font.value else p.font
  {
  }

  /** Drawing only adds glyphs, one for each character. */
  lemma {:induction false} DrawExtends(p: Pen, y: int, cs: seq<Byte>)
    ensures |Draw(p, y, cs).glyphs| == |p.glyphs| + |cs| && p.glyphs <= Draw(p, y, cs).glyphs
  {
    if cs != [] {
      DrawExtends(p, y, cs[..|cs| - 1]);
    }
  }

  /** The glyphs of a run are in the pen's font. */
  lemma {:induction false} DrawnFont(p: Pen, y: int, cs: seq<Byte>)
    requires cs != []
    ensures |p.glyphs| < |Draw(p, y, cs).glyphs| && Draw(p, y, cs).glyphs[|p.glyphs|].font == p.font
  {
    var init := cs[..|cs| - 1];
    DrawExtends(p, y, init);
    DrawKeepsFont(p, y, init);
    if init != [] {
      DrawnFont(p, y, init);
    } else {
      assert Draw(p, y, init) == p;
    }
  }

  /** A picture that can no longer become the wanted one: it has more glyphs, or others. */
  predicate Differs(got: seq<Glyph>, wanted: seq<Glyph>) {
    |got| > |wanted| || (|got| == |wanted| && got != wanted)
  }

  /** Adding no less to the picture than to the wanted one does not mend it. */
  lemma DiffersStill(got: seq<Glyph>, wanted: seq<Glyph>, got': seq<Glyph>, wanted': seq<Glyph>)
    requires Differs(got, wanted) && got <= got' && wanted <= wanted'
    requires |wanted'| - |wanted| <= |got'| - |got|
    ensures Differs(got', wanted')
  {
    assert got == got'[..|got|] && wanted == wanted'[..|wanted|];
  }

  // ---------------------------------------------------------------------------------------
  // The document: typesetter state, and what drawing every run at once would draw
  // ---------------------------------------------------------------------------------------

  /** DviState, without its link: the environments form a stack, top first. */
  datatype DviState = DviState(fontSize: int, fontNumber: nat, x: int, y: int)

  const FIRST_STATE := DviState(10, 1, 0, 0)

  function CInt(r: real): int {
    if r >= 0.0 then r.Floor else -((-r).Floor)
  }

  function CDiv(a: int, b: int): int
    requires b > 0
  {
    if a >= 0 then a / b else -((-a) / b)
  }

  /** What stays fixed while a document is drawn. */
  datatype Setup = Setup(
    scale: real,
    resolution: int,
    x1: int, y1: int, x2: int, y2: int,
    displayEnable: bool,
    noPolyText: bool,
    queryFont: (int, int) -> Font,
    behind: seq<Byte> -> Slot)
  {
    /** The memory behind the last usable item draws nothing and changes nothing, whatever the character buffer
        next to it holds. */
    ghost predicate Harmless() {
      forall buf :: |buf| == CHAR_CACHE_SIZE ==> behind(buf).text == [] && behind(buf).font == None
    }

    function ToX(device: int): int {
      CInt(device as real * scale + 0.5)
    }

    function FontSizeInPixels(size: int): int {
      CDiv(size * resolution, 72)
    }

    /** The number of usable items. */
    function MaxItems(): nat {
      if noPolyText then 1 else TEXT_CACHE_SIZE
    }

    /** The quick and dirty test against the exposed area. */
    predicate Visible(s: DviState, len: nat) {
      var xx, yx := ToX(s.x), ToX(s.y);
      var fy := FontSizeInPixels(s.fontSize);
      var fx := fy * len;
      yx + fy >= y1 && yx - fy <= y2 && xx + fx >= x1 && xx - fx <= x2
    }

    /** One run drawn at once, at its own position and in its own font. */
    function DrawNow(s: DviState, src: seq<Byte>, screen: seq<Glyph>): seq<Glyph> {
      if Visible(s, |src|) && displayEnable
      then Draw(Pen(ToX(s.x), queryFont(s.fontNumber, s.fontSize), screen), ToX(s.y), src).glyphs
      else screen
    }
  }

  /** The typesetter commands that touch position, font, environment and text. */
  datatype Command =
    | HorizontalMove(dx: int) | HorizontalGoto(x: int)
    | VerticalMove(dy: int) | VerticalGoto(y: int)
    | FontSize(n: int) | FontNumber(k: nat)
    | PushEnv | PopEnv | InitTypesetter
    | Put(src: seq<Byte>)
    | Flush

  function PushedEnv(env: seq<DviState>): seq<DviState> {
    if env == [] then [FIRST_STATE] else [env[0]] + env
  }

  /** A command that reads the current environment needs one; a run has between 1 and 1024 characters. */
  predicate Allowed(c: Command, env: seq<DviState>) {
    && (c.PushEnv? || c.InitTypesetter? || env != [])
    && (c.Put? ==> 1 <= |c.src| <= CHAR_CACHE_SIZE)
  }

  function NextEnv(c: Command, env: seq<DviState>): seq<DviState>
    requires Allowed(c, env)
  {
    match c
    case HorizontalMove(dx) => env[0 := env[0].(x := env[0].x + dx)]
    case HorizontalGoto(x) => env[0 := env[0].(x := x)]
    case VerticalMove(dy) => env[0 := env[0].(y := env[0].y + dy)]
    case VerticalGoto(y) => env[0 := env[0].(y := y)]
    case FontSize(n) => env[0 := env[0].(fontSize := n)]
    case FontNumber(k) => env[0 := env[0].(fontNumber := k)]
    case PushEnv => PushedEnv(env)
    case PopEnv => env[1..]
    case InitTypesetter => [FIRST_STATE]
    case Put(_) => env
    case Flush => env
  }

  predicate WellFormed(doc: seq<Command>, env: seq<DviState>) {
    doc == [] || (Allowed(doc[0], env) && WellFormed(doc[1..], NextEnv(doc[0], env)))
  }

  /** The reference: every run is drawn when its command is met. */
  function DrawDocument(setup: Setup, doc: seq<Command>, env: seq<DviState>, screen: seq<Glyph>): seq<Glyph>
    requires WellFormed(doc, env)
  {
    if doc == [] then screen
    else
      var screen' := if doc[0].Put? then setup.DrawNow(env[0], doc[0].src, screen) else screen;
      DrawDocument(setup, doc[1..], NextEnv(doc[0], env), screen')
  }

  function FinalEnv(doc: seq<Command>, env: seq<DviState>): seq<DviState>
    requires WellFormed(doc, env)
  {
    if doc == [] then env else FinalEnv(doc[1..], NextEnv(doc[0], env))
  }

  // ---------------------------------------------------------------------------------------
  // Which runs need the slot behind the last item
  // ---------------------------------------------------------------------------------------

  /** The characters `src` put at the position `at`. */
  function Spliced(buf: seq<Byte>, at: nat, src: seq<Byte>): (r: seq<Byte>)
    requires at + |src| <= |buf|
    ensures |r| == |buf| && r[..at] == buf[..at] && r[at..at + |src|] == src && r[at + |src|..] == buf[at + |src|..]
  {
    buf[..at] + src + buf[at + |src|..]
  }

  function RunWidth(f: Font, cs: seq<Byte>): int {
    if cs == [] then 0 else RunWidth(f, cs[..|cs| - 1]) + CharWidth(f, cs[|cs| - 1])
  }

  /** Drawing a run moves the pen by its width. */
  lemma {:induction false} DrawMoves(p: Pen, y: int, cs: seq<Byte>)
    ensures Draw(p, y, cs).x == p.x + RunWidth(p.font, cs)
  {
    if cs != [] {
      DrawMoves(p, y, cs[..|cs| - 1]);
      DrawKeepsFont(p, y, cs[..|cs| - 1]);
    }
  }

  /** What decides where the next run goes: which item is the current one and whether it holds characters, the
      characters cached, the font of the cache and the one believed to be in the graphics context, and the end
      of the cached text. */
  datatype Layout = Layout(
    index: nat,
    filled: bool,
    buf: seq<Byte>,
    charIndex: nat,
    fontSize: int,
    fontNumber: int,
    known: Option<Font>,
    x: int, y: int)
  {
    function Flushed(xx: int, yx: int): Layout {
      this.(index := 0, filled := false, charIndex := 0, x := xx, y := yx)
    }

    /** Step to an empty item. */
    function Stepped(setup: Setup, s: DviState): Layout {
      if !filled then this
      else if index + 1 < setup.MaxItems() then this.(index := index + 1, filled := false)
      else Flushed(setup.ToX(s.x), setup.ToX(s.y))
    }

    predicate SameFont(s: DviState) {
      fontSize == s.fontSize && fontNumber == s.fontNumber
    }

    function Roomy(setup: Setup, s: DviState, len: nat): Layout {
      if setup.ToX(s.y) != y || charIndex + len > CHAR_CACHE_SIZE then Flushed(setup.ToX(s.x), setup.ToX(s.y)) else this
    }

    function Fonted(setup: Setup, s: DviState): Layout {
      if SameFont(s) then this else this.(fontSize := s.fontSize, fontNumber := s.fontNumber).Stepped(setup, s)
    }

    function Placed(setup: Setup, s: DviState): Layout {
      if setup.ToX(s.x) != x then Stepped(setup, s) else this
    }

    function Extended(f: Font, xx: int, src: seq<Byte>): Layout
      requires charIndex + |src| <= |buf|
    {
      var x' := if filled then x else xx;
      this.(filled := true, buf := Spliced(buf, charIndex, src), charIndex := charIndex + |src|,
            known := if filled then known else Some(f), x := x' + RunWidth(f, src))
    }

    /** The layout after a run. */
    function AfterPut(setup: Setup, s: DviState, src: seq<Byte>): Layout
      requires |src| <= CHAR_CACHE_SIZE == |buf|
    {
      if setup.Visible(s, |src|) && setup.displayEnable
      then
        Roomy(setup, s, |src|).Fonted(setup, s).Placed(setup, s)
          .Extended(setup.queryFont(s.fontNumber, s.fontSize), setup.ToX(s.x), src)
      else this
    }

    /** The run needs the item behind the last one: the current item is the last and holds characters, and the
        run, on the same line and fitting, has another font or starts elsewhere. */
    predicate Overflows(setup: Setup, s: DviState, len: nat) {
      && setup.Visible(s, len) && setup.displayEnable
      && setup.ToX(s.y) == y && charIndex + len <= CHAR_CACHE_SIZE
      && index + 1 == setup.MaxItems() && filled
      && (!SameFont(s) || setup.ToX(s.x) != x)
    }

    /** And that does harm: there are characters there, or another font than the run relies on. */
    predicate Harmed(setup: Setup, s: DviState, len: nat) {
      && Overflows(setup, s, len)
      && var slot := setup.behind(buf);
         slot.text != []
         || (slot.font.Some? && slot.font != known && known == Some(setup.queryFont(s.fontNumber, s.fontSize)))
    }

    function After(setup: Setup, c: Command, env: seq<DviState>): (l: Layout)
      requires Allowed(c, env) && |buf| == CHAR_CACHE_SIZE && charIndex <= CHAR_CACHE_SIZE
      ensures |l.buf| == CHAR_CACHE_SIZE && l.charIndex <= CHAR_CACHE_SIZE
    {
      match c
      case Put(src) => AfterPut(setup, env[0], src)
      case Flush => Flushed(setup.ToX(env[0].x), setup.ToX(env[0].y))
      case InitTypesetter => Flushed(setup.ToX(FIRST_STATE.x), setup.ToX(FIRST_STATE.y))
      case _ => this
    }
  }

  /** A flushed cache at the origin, with no font. */
  function FirstLayout(buf: seq<Byte>): Layout {
    Layout(0, false, buf, 0, 0, -1, None, 0, 0)
  }

  /** No run of the document needs the item behind the last one. */
  predicate NeverOverflows(setup: Setup, doc: seq<Command>, env: seq<DviState>, l: Layout)
    requires WellFormed(doc, env) && |l.buf| == CHAR_CACHE_SIZE && l.charIndex <= CHAR_CACHE_SIZE
  {
    doc == []
    || (&& (doc[0].Put? ==> !l.Overflows(setup, env[0], |doc[0].src|))
        && NeverOverflows(setup, doc[1..], NextEnv(doc[0], env), l.After(setup, doc[0], env)))
  }

  /** No run of the document is harmed by what is in the slot behind the last item. */
  predicate NeverHarmed(setup: Setup, doc: seq<Command>, env: seq<DviState>, l: Layout)
    requires WellFormed(doc, env) && |l.buf| == CHAR_CACHE_SIZE && l.charIndex <= CHAR_CACHE_SIZE
  {
    doc == []
    || (&& (doc[0].Put? ==> !l.Harmed(setup, env[0], |doc[0].src|))
        && NeverHarmed(setup, doc[1..], NextEnv(doc[0], env), l.After(setup, doc[0], env)))
  }

  lemma {:induction false} NoOverflowNoHarm(setup: Setup, doc: seq<Command>, env: seq<DviState>, l: Layout)
    requires WellFormed(doc, env) && |l.buf| == CHAR_CACHE_SIZE && l.charIndex <= CHAR_CACHE_SIZE
    requires setup.Harmless() || NeverOverflows(setup, doc, env, l)
    ensures NeverHarmed(setup, doc, env, l)
  {
    if doc != [] {
      NoOverflowNoHarm(setup, doc[1..], NextEnv(doc[0], env), l.After(setup, doc[0], env));
    }
  }

  // ---------------------------------------------------------------------------------------
  // The cache as a value, and the coupling between it and the reference
  // ---------------------------------------------------------------------------------------

  /** How the cache stands to the document.  Sound: drawing the cached items completes the wanted picture.
      Misfonted: nothing is cached, but the graphics context has another font than the program believes.
      Spoiled: whatever is drawn further, the picture will not be the wanted one. */
  datatype Health = Sound | Misfonted | Spoiled

  /** DviCharCache with the font the program believes the graphics context to have (`known`), the
      server's font and picture, and `wanted`: what drawing every run at once would have drawn. */
  datatype Cache = Cache(
    items: seq<TextItem>,
    buf: seq<Byte>,
    index: nat,
    max: nat,
    charIndex: nat,
    fontSize: int,
    fontNumber: int,
    font: Option<Font>,
    startX: int, startY: int,
    x: int, y: int,
    known: Option<Font>,
    gc: Font,
    screen: seq<Glyph>,
    wanted: seq<Glyph>)
  {
    ghost predicate Shape(setup: Setup) {
      && |items| == TEXT_CACHE_SIZE && |buf| == CHAR_CACHE_SIZE
      && max == setup.MaxItems()
      && index <= max && charIndex <= CHAR_CACHE_SIZE
      && (forall i :: 0 <= i < index ==> items[i].nchars > 0)
      && (fontNumber >= 0 ==> font == Some(setup.queryFont(fontNumber, fontSize)))
      && y == startY
    }

    /** The items that hold characters; at the index there is none when it has run off the end. */
    ghost function Filled(): seq<TextItem>
      requires index <= max <= |items|
    {
      if index == max || items[index].nchars == 0 then items[..index] else items[..index + 1]
    }

    /** In good health, drawing the cached items now would complete the wanted picture, leave the pen at
        cache.x, and leave the graphics context with the font the program believes it to have. */
    ghost predicate Coupled(setup: Setup, health: Health) {
      && Shape(setup)
      && Contiguous(Filled(), charIndex) && AllFit(Filled(), buf)
      && var pen := DrawItems(Filled(), buf, Pen(startX, gc, screen), startY);
         match health
         case Sound => pen.glyphs == wanted && pen.x == x && (known.Some? ==> pen.font == known.value)
         case Misfonted => Filled() == [] && screen == wanted && startX == x && known.Some? && gc != known.value
         case Spoiled => Differs(pen.glyphs, wanted)
    }

    /** The cache between calls. */
    ghost predicate Valid(setup: Setup, health: Health) {
      && Coupled(setup, health) && !health.Misfonted? && index < max
      && (items[index].nchars == 0 ==> index == 0)
      && (items[index].nchars > 0 ==> fontNumber >= 0 && known == font)
    }

    function LaidOut(): Layout {
      Layout(index, index < |items| && items[index].nchars > 0, buf, charIndex, fontSize, fontNumber, known, x, y)
    }
  }

  /** The health after the slot behind the items has been drawn along with them. */
  function AfterSlot(slot: Slot, known: Option<Font>, health: Health): Health {
    if health.Spoiled? || slot.text != [] then Spoiled
    else if slot.font.Some? && slot.font != known then Misfonted
    else Sound
  }

  /** The health after a run is appended. */
  function AfterAppend(health: Health, known: Option<Font>, font: Option<Font>): Health {
    if health.Misfonted? then (if known == font then Spoiled else Sound) else health
  }

  /** The health after a step to an empty item. */
  function StepHealth(l: Layout, setup: Setup, h: Health): Health {
    if l.filled && l.index + 1 == setup.MaxItems() then AfterSlot(setup.behind(l.buf), l.known, h) else h
  }

  /** The health after the item for a run is found. */
  function FindHealth(l: Layout, setup: Setup, s: DviState, h: Health): Health {
    if l.SameFont(s) && setup.ToX(s.x) == l.x then h else StepHealth(l, setup, h)
  }

  /** The health after a run that fits and is on the line. */
  function RunHealth(l: Layout, setup: Setup, s: DviState, h: Health): Health {
    AfterAppend(FindHealth(l, setup, s, h), l.known, Some(setup.queryFont(s.fontNumber, s.fontSize)))
  }

  lemma RefontedStep(l: Layout, setup: Setup, s: DviState, h: Health)
    ensures StepHealth(l.(fontSize := s.fontSize, fontNumber := s.fontNumber), setup, h) == StepHealth(l, setup, h)
  {
  }

  /** A run is harmed exactly when the item for it is found by drawing the slot behind the last one, with harm. */
  lemma HarmedRun(l: Layout, setup: Setup, s: DviState, len: nat, h: Health)
    requires !h.Misfonted? && setup.Visible(s, len) && setup.displayEnable && len <= CHAR_CACHE_SIZE
    ensures RunHealth(l.Roomy(setup, s, len), setup, s, h).Spoiled? <==> h.Spoiled? || l.Harmed(setup, s, len)
    ensures !RunHealth(l.Roomy(setup, s, len), setup, s, h).Misfonted?
  {
  }

  /** After a step for the font there is none for the position. */
  lemma StepsOnce(l: Layout, setup: Setup, s: DviState, h: Health)
    requires !l.SameFont(s)
    ensures !l.Fonted(setup, s).filled && StepHealth(l.Fonted(setup, s), setup, h) == h
  {
  }

  /** Each item's characters follow those of the item before it, and they end at `end`. */
  ghost predicate Contiguous(items: seq<TextItem>, end: nat) {
    if items == [] then end == 0
    else
      var last := items[|items| - 1];
      && last.nchars > 0
      && last.chars + last.nchars == end
      && Contiguous(items[..|items| - 1], last.chars)
  }

  lemma {:induction false} ContiguousFits(items: seq<TextItem>, end: nat, buf: seq<Byte>)
    requires Contiguous(items, end) && end <= |buf|
    ensures AllFit(items, buf)
    ensures forall i :: 0 <= i < |items| ==> items[i].chars + items[i].nchars <= end
    ensures end == 0 <==> items == []
  {
    if items != [] {
      ContiguousFits(items[..|items| - 1], items[|items| - 1].chars, buf);
    }
  }

  /** The pen after the cached items are drawn. */
  ghost function PenOf(c: Cache, items: seq<TextItem>, buf: seq<Byte>): Pen
    requires AllFit(items, buf)
  {
    DrawItems(items, buf, Pen(c.startX, c.gc, c.screen), c.startY)
  }

  lemma NothingPending(c: Cache, setup: Setup, h: Health)
    requires c.Coupled(setup, h) && !h.Misfonted? && c.charIndex == 0
    ensures Drawn(c, h)
  {
    ContiguousFits(c.Filled(), 0, c.buf);
  }

  /** Nothing is left to draw. */
  predicate Drawn(c: Cache, h: Health) {
    match h
    case Sound => c.screen == c.wanted && (c.known.Some? ==> c.gc == c.known.value)
    case Misfonted => c.screen == c.wanted && c.known.Some? && c.gc != c.known.value
    case Spoiled => Differs(c.screen, c.wanted)
  }

  lemma EmptyIsCoupled(c: Cache, setup: Setup, h: Health)
    requires c.Shape(setup) && c.index == 0 && c.charIndex == 0 && c.items[0].nchars == 0
    requires c.x == c.startX && Drawn(c, h)
    ensures c.Coupled(setup, h) && (h.Misfonted? || c.Valid(setup, h))
  {
    assert c.Filled() == [];
  }

  lemma FlushedIsCoupled(c: Cache, c': Cache, setup: Setup, h: Health)
    requires c.Shape(setup) && Drawn(c, h)
    requires c' == c.(index := 0, charIndex := 0, items := c.items[0 := c.items[0].(nchars := 0)], max := c.max,
                      startX := c'.x, x := c'.x, startY := c'.y, y := c'.y)
    ensures c'.Coupled(setup, h) && (h.Misfonted? || c'.Valid(setup, h)) && Drawn(c', h)
  {
    EmptyIsCoupled(c', setup, h);
  }

  /** Drawing the cached items, with an item at the index that holds characters. */
  lemma DrawnItems(c: Cache, c': Cache, setup: Setup, h: Health)
    requires c.Valid(setup, h) && c.charIndex != 0
    requires var pen := PenOf(c, c.Filled(), c.buf); c' == c.(screen := pen.glyphs, gc := pen.font)
    ensures c.Filled() == c.items[..c.index + 1] && Drawn(c', h)
  {
    ContiguousFits(c.Filled(), c.charIndex, c.buf);
  }

  /** Drawing them with the slot behind. */
  lemma DrawnSlot(c: Cache, c': Cache, setup: Setup, h: Health)
    requires c.Coupled(setup, h) && !h.Misfonted? && c.index == c.max && c.known.Some?
    requires var pen := DrawSlot(setup.behind(c.buf), PenOf(c, c.Filled(), c.buf), c.startY);
      c' == c.(screen := pen.glyphs, gc := pen.font)
    ensures Drawn(c', AfterSlot(setup.behind(c.buf), c.known, h))
  {
    var slot, pen := setup.behind(c.buf), PenOf(c, c.Filled(), c.buf);
    if slot.text == [] {
      DrawNothing(slot, pen, c.startY);
    } else {
      var f := if slot.font.Some? then slot.font.value else pen.font;
      DrawExtends(Pen(pen.x + slot.delta, f, pen.glyphs), c.startY, slot.text);
      if h.Spoiled? {
        DiffersStill(pen.glyphs, c.wanted, c'.screen, c.wanted);
      }
    }
  }

  /** Stepping past an item that holds characters; the slot stepped to counts only once it is filled. */
  lemma SteppedIsCoupled(c: Cache, c': Cache, setup: Setup, h: Health)
    requires c.Coupled(setup, h) && c.index < c.max && c.items[c.index].nchars > 0
    requires c' == c.(index := c.index + 1) && c'.index == c.max && c.known.Some?
    ensures Flushable(c', setup, h) && AfterDrawing(c', setup, h) == AfterSlot(setup.behind(c.buf), c.known, h)
  {
    assert c'.Filled() == c.Filled();
  }

  lemma ClearedIsCoupled(c: Cache, c': Cache, setup: Setup, h: Health)
    requires c.Coupled(setup, h) && c.index + 1 < c.max && c.items[c.index].nchars > 0
    requires c' == c.(index := c.index + 1, items := c.items[c.index + 1 := c.items[c.index + 1].(nchars := 0)])
    ensures c'.Coupled(setup, h)
  {
    assert c'.Filled() == c.Filled();
  }

  lemma RefontedIsCoupled(c: Cache, c': Cache, setup: Setup, h: Health)
    requires c.Coupled(setup, h) && c' == c.(fontSize := c'.fontSize, fontNumber := c'.fontNumber, font := c'.font)
    requires c'.font == Some(setup.queryFont(c'.fontNumber, c'.fontSize))
    ensures c'.Coupled(setup, h)
  {
    assert c'.Filled() == c.Filled();
  }

  /** A new run behind the cached characters leaves the cached items as they were. */
  lemma AppendKeepsPen(c: Cache, items: seq<TextItem>, end: nat, buf': seq<Byte>)
    requires Contiguous(items, end) && end <= |c.buf| == |buf'| && c.buf[..end] == buf'[..end]
    ensures AllFit(items, c.buf) && AllFit(items, buf')
    ensures PenOf(c, items, buf') == PenOf(c, items, c.buf)
  {
    ContiguousFits(items, end, c.buf);
    DrawItemsFrame(items, c.buf, buf', Pen(c.startX, c.gc, c.screen), c.startY, end);
  }

  lemma OneMoreItem(c: Cache, init: seq<TextItem>, it: TextItem, buf: seq<Byte>)
    requires Contiguous(init, it.chars) && it.nchars > 0 && Fits(it, buf)
    ensures Contiguous(init + [it], it.chars + it.nchars)
    ensures AllFit(init, buf) && AllFit(init + [it], buf)
    ensures PenOf(c, init + [it], buf) == DrawItem(it, buf, PenOf(c, init, buf), c.startY)
  {
    assert (init + [it])[..|init|] == init;
    ContiguousFits(init + [it], it.chars + it.nchars, buf);
    ContiguousFits(init, it.chars, buf);
  }

  lemma GrownChars(it: TextItem, it': TextItem, buf: seq<Byte>, buf': seq<Byte>, src: seq<Byte>)
    requires it' == it.(nchars := it.nchars + |src|) && |buf| == |buf'|
    requires var end := it.chars + it.nchars;
      end + |src| <= |buf| && buf'[..end] == buf[..end] && buf'[end..end + |src|] == src
    ensures Chars(it', buf') == Chars(it, buf) + src
  {
    SameChars(it, buf, buf', it.chars + it.nchars);
    assert Chars(it', buf') == Chars(it, buf') + buf'[it.chars + it.nchars..it.chars + it.nchars + |src|];
  }

  /** Behind the items `init`, a new item draws its run at x in the font f. */
  lemma NewItemPen(c: Cache, init: seq<TextItem>, it: TextItem, buf': seq<Byte>, x: int, f: Font, src: seq<Byte>)
    requires |c.buf| == |buf'| && Contiguous(init, it.chars) && it.nchars == |src| > 0 && Fits(it, buf')
    requires c.buf[..it.chars] == buf'[..it.chars] && buf'[it.chars..it.chars + |src|] == src
    requires AllFit(init, c.buf)
    requires var p := PenOf(c, init, c.buf);
      p.x + it.delta == x && f == (if it.font.Some? then it.font.value else p.font)
    ensures Contiguous(init + [it], it.chars + |src|) && AllFit(init + [it], buf')
    ensures PenOf(c, init + [it], buf') == Draw(Pen(x, f, PenOf(c, init, c.buf).glyphs), c.startY, src)
  {
    AppendKeepsPen(c, init, it.chars, buf');
    OneMoreItem(c, init, it, buf');
    assert Chars(it, buf') == src;
  }

  lemma GrownItemDraws(it: TextItem, it': TextItem, buf: seq<Byte>, buf': seq<Byte>, p: Pen, y: int, src: seq<Byte>)
    requires it'.font == it.font && it'.delta == it.delta && Fits(it, buf) && Fits(it', buf')
    requires Chars(it', buf') == Chars(it, buf) + src
    ensures DrawItem(it', buf', p, y) == Draw(DrawItem(it, buf, p, y), y, src)
  {
    var f := if it.font.Some? then it.font.value else p.font;
    DrawConcat(Pen(p.x + it.delta, f, p.glyphs), y, Chars(it, buf), src);
  }

  lemma ShorterPrefix(a: seq<Byte>, b: seq<Byte>, m: nat, n: nat)
    requires m <= n <= |a| == |b| && a[..n] == b[..n]
    ensures a[..m] == b[..m]
  {
    assert a[..m] == a[..n][..m];
    assert b[..m] == b[..n][..m];
  }

  /** Growing the last item by a run draws the run where the items ended. */
  lemma GrownItemPen(c: Cache, init: seq<TextItem>, it: TextItem, it': TextItem, buf': seq<Byte>, src: seq<Byte>)
    requires |c.buf| == |buf'| && Contiguous(init, it.chars) && it.nchars > 0
    requires it' == it.(nchars := it.nchars + |src|) && Fits(it', buf')
    requires var end := it.chars + it.nchars; c.buf[..end] == buf'[..end] && buf'[end..end + |src|] == src
    ensures AllFit(init + [it], c.buf)
    ensures Contiguous(init + [it'], it'.chars + it'.nchars) && AllFit(init + [it'], buf')
    ensures PenOf(c, init + [it'], buf') == Draw(PenOf(c, init + [it], c.buf), c.startY, src)
  {
    ShorterPrefix(c.buf, buf', it.chars, it.chars + it.nchars);
    AppendKeepsPen(c, init, it.chars, buf');
    var p := PenOf(c, init, c.buf);
    GrownChars(it, it', c.buf, buf', src);
    GrownItemDraws(it, it', c.buf, buf', p, c.startY, src);
    OneMoreItem(c, init, it, c.buf);
    OneMoreItem(c, init, it', buf');
  }

  /** The cache after a run is appended: one item changes, the characters follow the cached ones, and the
      pen and the wanted picture move on by the run drawn at x in the font f. */
  ghost predicate Appended(c: Cache, c': Cache, it: TextItem, x: int, f: Font, src: seq<Byte>)
    requires c.index < |c.items| && c.charIndex + |src| <= |c.buf|
  {
    var pen := Draw(Pen(x, f, c.wanted), c.y, src);
    c' == c.(items := c.items[c.index := it], buf := Spliced(c.buf, c.charIndex, src), charIndex := c.charIndex + |src|,
             x := pen.x, known := Some(f), wanted := pen.glyphs)
  }

  lemma AppendedShape(c: Cache, c': Cache, setup: Setup, it: TextItem, x: int, f: Font, src: seq<Byte>)
    requires c.Shape(setup) && c.index < c.max && c.fontNumber >= 0 && c.font == Some(f) && it.nchars > 0
    requires c.charIndex + |src| <= CHAR_CACHE_SIZE && Appended(c, c', it, x, f, src)
    ensures c'.Shape(setup) && c'.Filled() == c.items[..c.index] + [it]
  {
  }

  /** The run starts a new item in a sound cache, or in an empty one whose font the item sets. */
  lemma NewItem(c: Cache, c': Cache, setup: Setup, h: Health, src: seq<Byte>, x: int, f: Font)
    requires c.Coupled(setup, h) && c.index < c.max && c.items[c.index].nchars == 0
    requires h.Sound? || (h.Misfonted? && c.known != Some(f))
    requires c.fontNumber >= 0 && c.font == Some(f) && src != [] && c.charIndex + |src| <= CHAR_CACHE_SIZE
    requires Appended(c, c', NewTextItem(c, |src|, x, f), x, f, src)
    ensures c'.Valid(setup, Sound)
  {
    var it := c'.items[c.index];
    var init := c.Filled();
    AppendedShape(c, c', setup, it, x, f, src);
    NewItemPen(c, init, it, c'.buf, x, f, src);
    DrawKeepsFont(Pen(x, f, c.wanted), c.y, src);
  }

  function NewTextItem(c: Cache, len: nat, x: int, f: Font): TextItem {
    TextItem(c.charIndex, len, x - c.x, if c.font != c.known then Some(f) else None)
  }

  /** The run relies on a font that the graphics context does not have: its glyphs come out wrong. */
  lemma WrongFont(c: Cache, c': Cache, setup: Setup, src: seq<Byte>, x: int, f: Font)
    requires c.Coupled(setup, Misfonted) && c.index < c.max && c.items[c.index].nchars == 0 && c.known == Some(f)
    requires c.fontNumber >= 0 && c.font == Some(f) && src != [] && c.charIndex + |src| <= CHAR_CACHE_SIZE
    requires Appended(c, c', NewTextItem(c, |src|, x, f), x, f, src)
    ensures c'.Valid(setup, Spoiled)
  {
    var it := c'.items[c.index];
    var init := c.Filled();
    AppendedShape(c, c', setup, it, x, f, src);
    NewItemPen(c, init, it, c'.buf, x, c.gc, src);
    var bad, good := Pen(x, c.gc, c.wanted), Pen(x, f, c.wanted);
    DrawExtends(bad, c.y, src);
    DrawExtends(good, c.y, src);
    DrawnFont(bad, c.y, src);
    DrawnFont(good, c.y, src);
  }

  /** Nothing mends a spoiled picture. */
  lemma SpoiledNewItem(c: Cache, c': Cache, setup: Setup, src: seq<Byte>, x: int, f: Font)
    requires c.Coupled(setup, Spoiled) && c.index < c.max && c.items[c.index].nchars == 0
    requires c.fontNumber >= 0 && c.font == Some(f) && src != [] && c.charIndex + |src| <= CHAR_CACHE_SIZE
    requires Appended(c, c', NewTextItem(c, |src|, x, f), x, f, src)
    ensures c'.Valid(setup, Spoiled)
  {
    hide Draw, DrawItems, Contiguous, Spliced;
    var it := c'.items[c.index];
    var init := c.Filled();
    var pen := PenOf(c, init, c.buf);
    var g := if it.font.Some? then it.font.value else pen.font;
    AppendedShape(c, c', setup, it, x, f, src);
    NewItemPen(c, init, it, c'.buf, pen.x + it.delta, g, src);
    DrawExtends(Pen(pen.x + it.delta, g, pen.glyphs), c.y, src);
    DrawExtends(Pen(x, f, c.wanted), c.y, src);
    DiffersStill(pen.glyphs, c.wanted, PenOf(c', c'.Filled(), c'.buf).glyphs, c'.wanted);
  }

  /** The run continues the current item, in whose font and at whose end it starts. */
  lemma GrowItem(c: Cache, c': Cache, setup: Setup, h: Health, src: seq<Byte>, f: Font)
    requires c.Coupled(setup, h) && !h.Misfonted? && c.index < c.max && c.items[c.index].nchars > 0
    requires c.fontNumber >= 0 && c.font == c.known == Some(f) && c.charIndex + |src| <= CHAR_CACHE_SIZE
    requires Appended(c, c', c.items[c.index].(nchars := c.items[c.index].nchars + |src|), c.x, f, src)
    ensures c'.Valid(setup, h)
  {
    FilledSplit(c, setup, h);
    GrownPen(c, c', setup, src, f);
    var pen := PenOf(c, c.Filled(), c.buf);
    DrawKeepsFont(Pen(c.x, f, c.wanted), c.y, src);
    if h.Spoiled? {
      DrawExtends(pen, c.y, src);
      DrawExtends(Pen(c.x, f, c.wanted), c.y, src);
      DiffersStill(pen.glyphs, c.wanted, Draw(pen, c.y, src).glyphs, c'.wanted);
    }
  }

  lemma GrownPen(c: Cache, c': Cache, setup: Setup, src: seq<Byte>, f: Font)
    requires c.Shape(setup) && c.index < c.max && c.fontNumber >= 0 && c.font == Some(f)
    requires c.items[c.index].nchars > 0 && c.charIndex + |src| <= CHAR_CACHE_SIZE && LastItemEnds(c)
    requires Appended(c, c', c.items[c.index].(nchars := c.items[c.index].nchars + |src|), c.x, f, src)
    ensures c'.Shape(setup) && Contiguous(c'.Filled(), c'.charIndex)
    ensures AllFit(c.Filled(), c.buf) && AllFit(c'.Filled(), c'.buf)
    ensures PenOf(c', c'.Filled(), c'.buf) == Draw(PenOf(c, c.Filled(), c.buf), c.y, src)
  {
    hide Draw, DrawItems, Contiguous, Spliced;
    var it := c.items[c.index];
    AppendedShape(c, c', setup, it.(nchars := it.nchars + |src|), c.x, f, src);
    GrownSplit(c, c.items[..c.index], it, src);
  }

  lemma GrownSplit(c: Cache, init: seq<TextItem>, it: TextItem, src: seq<Byte>)
    requires Contiguous(init, it.chars) && it.nchars > 0 && it.chars + it.nchars == c.charIndex
    requires c.charIndex + |src| <= |c.buf|
    ensures var it', buf' := it.(nchars := it.nchars + |src|), Spliced(c.buf, c.charIndex, src);
      && Contiguous(init + [it'], c.charIndex + |src|) && AllFit(init + [it], c.buf) && AllFit(init + [it'], buf')
      && PenOf(c, init + [it'], buf') == Draw(PenOf(c, init + [it], c.buf), c.startY, src)
  {
    GrownItemPen(c, init, it, it.(nchars := it.nchars + |src|), Spliced(c.buf, c.charIndex, src), src);
  }

  /** The item at the index holds the last of the cached characters. */
  ghost predicate LastItemEnds(c: Cache)
    requires c.index < c.max <= |c.items|
  {
    var it, init := c.items[c.index], c.items[..c.index];
    c.Filled() == init + [it] && Contiguous(init, it.chars) && it.chars + it.nchars == c.charIndex
  }

  /** The item at the index is the last of those that hold characters, and its characters are the last cached. */
  lemma FilledSplit(c: Cache, setup: Setup, h: Health)
    requires c.Coupled(setup, h) && c.index < c.max && c.items[c.index].nchars > 0
    ensures c.Shape(setup) && c.max <= |c.items| && c.charIndex <= |c.buf| == CHAR_CACHE_SIZE
    ensures LastItemEnds(c)
  {
    assert c.Filled()[..c.index] == c.items[..c.index];
  }

  // ---------------------------------------------------------------------------------------
  // The widget
  // ---------------------------------------------------------------------------------------

  /** The pen after XDrawText with the first n items: the one behind the last usable item is whatever is there. */
  ghost function PenAfter(c: Cache, setup: Setup, n: nat): Pen
    requires n <= c.max + 1 && c.max <= |c.items| && AllFit(c.items[..if n <= c.max then n else c.max], c.buf)
  {
    if n <= c.max then PenOf(c, c.items[..n], c.buf)
    else DrawSlot(setup.behind(c.buf), PenOf(c, c.items[..c.max], c.buf), c.startY)
  }

  /** A flush finds the cache between calls, or with its index run off the end. */
  ghost predicate Flushable(c: Cache, setup: Setup, h: Health) {
    c.Valid(setup, h) || (c.Coupled(setup, h) && !h.Misfonted? && c.index == c.max && c.known.Some?)
  }

  /** The health after the cached items are drawn. */
  function AfterDrawing(c: Cache, setup: Setup, h: Health): Health {
    if c.index == c.max then AfterSlot(setup.behind(c.buf), c.known, h) else h
  }

  /** With characters cached, the items up to the index hold them; at an overflow these are all the items. */
  lemma PendingFits(c: Cache, setup: Setup, h: Health)
    requires Flushable(c, setup, h) && c.charIndex != 0
    ensures var n := if c.index < c.max then c.index + 1 else c.max;
      c.Filled() == c.items[..n] && AllFit(c.items[..n], c.buf)
  {
    ContiguousFits(c.Filled(), c.charIndex, c.buf);
  }

  /** Drawing what is cached. */
  lemma DrawnAfter(c: Cache, c': Cache, setup: Setup, h: Health)
    requires Flushable(c, setup, h) && c.charIndex != 0
    requires AllFit(c.items[..if c.index < c.max then c.index + 1 else c.max], c.buf)
    requires var pen := PenAfter(c, setup, c.index + 1); c' == c.(screen := pen.glyphs, gc := pen.font)
    ensures Drawn(c', AfterDrawing(c, setup, h))
  {
    PendingFits(c, setup, h);
    if c.index == c.max {
      DrawnSlot(c, c', setup, h);
    } else {
      DrawnItems(c, c', setup, h);
    }
  }

  /** With nothing cached there is nothing to draw, and the index has not run off. */
  lemma NothingPendingIsDrawn(c: Cache, setup: Setup, h: Health)
    requires Flushable(c, setup, h) && c.charIndex == 0
    ensures Drawn(c, AfterDrawing(c, setup, h))
  {
    NothingPending(c, setup, h);
    ContiguousFits(c.Filled(), 0, c.buf);
  }

  lemma ShapeSizes(c: Cache, setup: Setup)
    requires c.Shape(setup)
    ensures c.max == setup.MaxItems() <= |c.items| == TEXT_CACHE_SIZE && |c.buf| == CHAR_CACHE_SIZE
  {
  }

  lemma CoupledShape(c: Cache, setup: Setup, h: Health)
    requires c.Coupled(setup, h)
    ensures c.max == setup.MaxItems() <= |c.items| && |c.buf| == CHAR_CACHE_SIZE
    ensures c.fontNumber >= 0 ==> c.font == Some(setup.queryFont(c.fontNumber, c.fontSize))
  {
  }

  lemma ValidIsCoupled(c: Cache, setup: Setup, h: Health)
    requires c.Valid(setup, h)
    ensures c.Coupled(setup, h) && !h.Misfonted? && c.index < c.max <= |c.items|
    ensures c.fontNumber >= 0 ==> c.font == Some(setup.queryFont(c.fontNumber, c.fontSize))
    ensures c.items[c.index].nchars > 0 ==> c.known == c.font && c.font.Some?
  {
  }

  /** Appending to the item at the index, new or not. */
  lemma AppendedIsValid(c: Cache, c': Cache, setup: Setup, h: Health, src: seq<Byte>, x: int, f: Font)
    requires c.Coupled(setup, h) && c.index < c.max && src != [] && c.charIndex + |src| <= CHAR_CACHE_SIZE
    requires c.fontNumber >= 0 && c.font == Some(f)
    requires c.items[c.index].nchars > 0 ==> x == c.x && c.known == c.font
    requires var it := c.items[c.index];
      Appended(c, c', if it.nchars == 0 then NewTextItem(c, |src|, x, f) else it.(nchars := it.nchars + |src|),
               x, f, src)
    ensures c'.Valid(setup, AfterAppend(h, c.known, c.font))
  {
    if c.items[c.index].nchars > 0 {
      GrowItem(c, c', setup, h, src, f);
    } else if h.Spoiled? {
      SpoiledNewItem(c, c', setup, src, x, f);
    } else if h.Misfonted? && c.known == Some(f) {
      WrongFont(c, c', setup, src, x, f);
    } else {
      NewItem(c, c', setup, h, src, x, f);
    }
  }

  class DviWidget {
    const setup: Setup
    var env: seq<DviState>
    var gcFontKnown: Option<Font>

    const items: array<TextItem>
    const charCache: array<Byte>
    var index: nat
    var max: nat
    var charIndex: nat
    var fontSize: int
    var fontNumber: int
    var font: Option<Font>
    var startX: int
    var startY: int
    var x: int
    var y: int

    // the server
    var gcFont: Font
    var screen: seq<Glyph>

    ghost var wanted: seq<Glyph>
    ghost var health: Health

    ghost function View(): Cache
      reads this, items, charCache
    {
      Cache(items[..], charCache[..], index, max, charIndex, fontSize, fontNumber, font,
            startX, startY, x, y, gcFontKnown, gcFont, screen, wanted)
    }

    ghost function LaidOut(): Layout
      reads this, items, charCache
    {
      View().LaidOut()
    }

    ghost predicate Valid()
      reads this, items, charCache
    {
      View().Valid(setup, health)
    }

    /** A flushed cache; nothing is known about fonts yet. */
    constructor (setup: Setup, gcFont: Font)
      ensures Valid() && health.Sound? && this.setup == setup && env == [] && screen == wanted == []
      ensures LaidOut() == FirstLayout(charCache[..])
      ensures fresh(items) && fresh(charCache)
    {
      this.setup := setup;
      this.env := [];
      this.gcFontKnown := None;
      this.items := new TextItem[TEXT_CACHE_SIZE](_ => EMPTY_ITEM);
      this.charCache := new Byte[CHAR_CACHE_SIZE];
      this.index, this.charIndex := 0, 0;
      this.max := if setup.noPolyText then 1 else TEXT_CACHE_SIZE;
      this.fontSize, this.fontNumber, this.font := 0, -1, None;
      this.startX, this.startY, this.x, this.y := 0, 0, 0, 0;
      this.gcFont, this.screen, this.wanted, this.health := gcFont, [], [], Sound;
      new;
      EmptyIsCoupled(View(), setup, Sound);
    }

    /** XDrawText with the first n items. */
    method XDrawText(n: nat)
      requires n <= max + 1 && max <= items.Length && AllFit(items[..if n <= max then n else max], charCache[..])
      modifies this`screen, this`gcFont
      ensures var pen := old(PenAfter(View(), setup, n)); screen == pen.glyphs && gcFont == pen.font
    {
      var usable := if n <= max then n else max;
      ghost var all := items[..usable];
      var pen := Pen(startX, gcFont, screen);
      for i := 0 to usable
        invariant pen == DrawItems(all[..i], charCache[..], Pen(startX, gcFont, screen), startY)
      {
        assert all[..i + 1][..i] == all[..i];
        pen := DrawItem(items[i], charCache[..], pen, startY);
      }
      assert all[..usable] == all;
      if usable < n {
        pen := DrawSlot(setup.behind(charCache[..]), pen, startY);
      }
      assert items[..][..usable] == all;
      screen, gcFont := pen.glyphs, pen.font;
    }

    method FlushCharCache()
      requires Flushable(View(), setup, health) && env != []
      modifies this`screen, this`gcFont, this`index, this`max, this`charIndex, items
      modifies this`startX, this`startY, this`x, this`y, this`health
      ensures View().Coupled(setup, health) && (health.Misfonted? || Valid()) && Drawn(View(), health)
      ensures health == old(AfterDrawing(View(), setup, health))
      ensures index < max && items[index].nchars == 0
      ensures LaidOut() == old(LaidOut()).Flushed(setup.ToX(env[0].x), setup.ToX(env[0].y))
    {
      hide Cache.Coupled, Cache.Valid, Cache.Shape, Flushable, AfterDrawing, Drawn;
      var xx := setup.ToX(env[0].x);
      var yx := setup.ToX(env[0].y);
      DrawCached();
      ghost var drawn := View();
      ShapeSizes(drawn, setup);
      EmptyCache(xx, yx);
      FlushedIsCoupled(drawn, View(), setup, health);
    }

    method EmptyCache(xx: int, yx: int)
      requires items.Length > 0
      modifies this`index, this`max, this`charIndex, items, this`startX, this`startY, this`x, this`y
      ensures index == 0 && charIndex == 0 && max == setup.MaxItems()
      ensures items[..] == old(items[..])[0 := old(items[0]).(nchars := 0)]
      ensures startX == x == xx && startY == y == yx
    {
      index := 0;
      max := TEXT_CACHE_SIZE;
      if setup.noPolyText {
        max := 1;
      }
      charIndex := 0;
      items[0] := items[0].(nchars := 0);
      startX, x := xx, xx;
      startY, y := yx, yx;
    }

    method DrawCached()
      requires Flushable(View(), setup, health)
      modifies this`screen, this`gcFont, this`health
      ensures health == old(AfterDrawing(View(), setup, health)) && Drawn(View(), health) && View().Shape(setup)
    {
      ghost var c := View();
      if charIndex != 0 {
        PendingFits(c, setup, health);
        assert c.items[..if c.index < c.max then c.index + 1 else c.max]
            == items[..if c.index < c.max then c.index + 1 else c.max];
        XDrawText(index + 1);
        DrawnAfter(c, View(), setup, health);
      } else {
        NothingPendingIsDrawn(c, setup, health);
      }
      health := AfterDrawing(c, setup, health);
    }

    /** SetFont: remember the font of the current environment. */
    method SetFont()
      requires env != []
      modifies this`fontSize, this`fontNumber, this`font
      ensures fontSize == env[0].fontSize && fontNumber == env[0].fontNumber
      ensures font == Some(setup.queryFont(fontNumber, fontSize))
    {
      fontSize := env[0].fontSize;
      fontNumber := env[0].fontNumber;
      font := Some(setup.queryFont(fontNumber, fontSize));
    }

    /** Step to an empty item, flushing when there is none left. */
    method NextItem()
      requires View().Coupled(setup, health) && index < max && env != [] && y == setup.ToX(env[0].y)
      requires items[index].nchars > 0 ==> gcFontKnown.Some?
      modifies this`screen, this`gcFont, this`index, this`max, this`charIndex, items
      modifies this`startX, this`startY, this`x, this`y, this`health
      ensures View().Coupled(setup, health) && index < max && items[index].nchars == 0
      ensures y == old(y) && (charIndex == old(charIndex) || charIndex == 0)
      ensures LaidOut() == old(LaidOut()).Stepped(setup, env[0])
      ensures health == old(StepHealth(LaidOut(), setup, health))
    {
      hide Cache.Coupled, Cache.Valid, Cache.Shape, Flushable, AfterSlot;
      ghost var c := View();
      CoupledShape(c, setup, health);
      if items[index].nchars != 0 {
        index := index + 1;
        if index >= max {
          SteppedIsCoupled(c, View(), setup, health);
          FlushCharCache();
        } else {
          items[index] := items[index].(nchars := 0);
          ClearedIsCoupled(c, View(), setup, health);
        }
      }
    }

    /** Find the item for a run that starts at xx in the current font. */
    method FindItem(xx: int)
      requires Valid() && env != [] && y == setup.ToX(env[0].y) && xx == setup.ToX(env[0].x)
      modifies this`screen, this`gcFont, this`index, this`max, this`charIndex, items
      modifies this`startX, this`startY, this`x, this`y, this`fontSize, this`fontNumber, this`font, this`health
      ensures View().Coupled(setup, health) && index < max
      ensures y == old(y) && (charIndex == old(charIndex) || charIndex == 0)
      ensures fontSize == env[0].fontSize && fontNumber == env[0].fontNumber
      ensures font == Some(setup.queryFont(fontNumber, fontSize))
      ensures LaidOut() == old(LaidOut()).Fonted(setup, env[0]).Placed(setup, env[0])
      ensures health == old(FindHealth(LaidOut(), setup, env[0], health))
      ensures items[index].nchars > 0 ==> xx == x && gcFontKnown == font
    {
      hide Cache.Coupled, Cache.Valid, Cache.Shape, Layout.Stepped, StepHealth;
      ghost var l := LaidOut();
      MatchFont();
      if !l.SameFont(env[0]) {
        StepsOnce(l, setup, env[0], health);
      }
      if xx != x {
        NextItem();
      }
    }

    /** Flush when the run is on another line or its characters do not fit. */
    method MakeRoom(yx: int, len: nat)
      requires Valid() && env != [] && len <= CHAR_CACHE_SIZE && yx == setup.ToX(env[0].y)
      modifies this`screen, this`gcFont, this`index, this`max, this`charIndex, items
      modifies this`startX, this`startY, this`x, this`y, this`health
      ensures Valid() && y == yx && charIndex + len <= CHAR_CACHE_SIZE
      ensures health == old(health) && LaidOut() == old(LaidOut()).Roomy(setup, env[0], len)
    {
      if yx != y || charIndex + len > CHAR_CACHE_SIZE {
        FlushCharCache();
      }
    }

    /** Load the font of the environment if it is another; the current block, if not empty, stays in its own. */
    method MatchFont()
      requires Valid() && env != [] && y == setup.ToX(env[0].y)
      modifies this`screen, this`gcFont, this`index, this`max, this`charIndex, items
      modifies this`startX, this`startY, this`x, this`y, this`fontSize, this`fontNumber, this`font, this`health
      ensures View().Coupled(setup, health) && index < max
      ensures y == old(y) && (charIndex == old(charIndex) || charIndex == 0)
      ensures fontSize == env[0].fontSize && fontNumber == env[0].fontNumber
      ensures font == Some(setup.queryFont(fontNumber, fontSize))
      ensures LaidOut() == old(LaidOut()).Fonted(setup, env[0])
      ensures health == old(if LaidOut().SameFont(env[0]) then health else StepHealth(LaidOut(), setup, health))
      ensures items[index].nchars > 0 ==> gcFontKnown == font
    {
      hide Cache.Coupled, Cache.Valid, Cache.Shape, Layout.Stepped, StepHealth;
      ghost var c := View();
      ValidIsCoupled(c, setup, health);
      if fontSize != env[0].fontSize || fontNumber != env[0].fontNumber {
        ghost var l := LaidOut();
        SetFont();
        RefontedStep(l, setup, env[0], health);
        RefontedIsCoupled(c, View(), setup, health);
        NextItem();
      }
    }

    /** Copy the run behind the cached characters; the pen position moves along. */
    method CopyRun(src: seq<Byte>, dst: nat, f: Font)
      requires dst + |src| <= charCache.Length
      modifies this`x, charCache
      ensures charCache[..] == Spliced(old(charCache[..]), dst, src)
      ensures x == old(x) + RunWidth(f, src)
    {
      for i := 0 to |src|
        invariant charCache[..dst + i] == old(charCache[..])[..dst] + src[..i]
        invariant charCache[dst + i..] == old(charCache[..])[dst + i..]
        invariant x == old(x) + RunWidth(f, src[..i])
      {
        charCache[dst + i] := src[i];
        assert src[..i + 1][..i] == src[..i];
        x := x + CharWidth(f, src[i]);
      }
      assert src[..|src|] == src;
      assert charCache[..] == charCache[..dst + |src|] + charCache[dst + |src|..];
    }

    /** Account for len more characters in the item at the index, which starts at xx if it is empty. */
    method ExtendItem(len: nat, xx: int)
      requires index < items.Length
      modifies this`charIndex, this`x, this`gcFontKnown, items
      ensures charIndex == old(charIndex) + len
      ensures var it := old(items[index]);
        if it.nchars == 0 then
          && items[..] == old(items[..])[index :=
               TextItem(old(charIndex), len, xx - old(x), if font != old(gcFontKnown) then font else None)]
          && gcFontKnown == font && x == xx
        else
          && items[..] == old(items[..])[index := it.(nchars := it.nchars + len)]
          && gcFontKnown == old(gcFontKnown) && x == old(x)
    {
      if items[index].nchars == 0 {
        items[index] := items[index].(chars := charIndex, delta := xx - x);
        if font != gcFontKnown {
          items[index] := items[index].(font := font);
          gcFontKnown := font;
        } else {
          items[index] := items[index].(font := None);
        }
        x := x + items[index].delta;
      }
      charIndex := charIndex + len;
      items[index] := items[index].(nchars := items[index].nchars + len);
    }

    /** PutCharacters: the result says whether the run was taken for drawing. */
    method PutCharacters(src: seq<Byte>) returns (taken: bool)
      requires Valid() && env != [] && 1 <= |src| <= CHAR_CACHE_SIZE
      modifies this`screen, this`gcFont, this`index, this`max, this`charIndex, items, charCache
      modifies this`startX, this`startY, this`x, this`y, this`fontSize, this`fontNumber, this`font
      modifies this`gcFontKnown, this`wanted, this`health
      ensures Valid()
      ensures taken <==> setup.Visible(env[0], |src|) && setup.displayEnable
      ensures wanted == setup.DrawNow(env[0], src, old(wanted))
      ensures LaidOut() == old(LaidOut()).AfterPut(setup, env[0], src)
      ensures health.Spoiled? <==> old(health).Spoiled? || old(LaidOut()).Harmed(setup, env[0], |src|)
    {
      hide Cache.Coupled, Cache.Valid, Draw, RunHealth, Layout.Roomy, Layout.Fonted, Layout.Placed, Layout.Extended;
      var xx := setup.ToX(env[0].x);
      var yx := setup.ToX(env[0].y);
      if !setup.Visible(env[0], |src|) {
        return false;
      }
      if !setup.displayEnable {
        return false;
      }
      ValidIsCoupled(View(), setup, health);
      HarmedRun(LaidOut(), setup, env[0], |src|, health);
      MakeRoom(yx, |src|);
      CacheRun(src, xx);
      return true;
    }

    method CacheRun(src: seq<Byte>, xx: int)
      requires Valid() && env != [] && src != [] && charIndex + |src| <= CHAR_CACHE_SIZE
      requires y == setup.ToX(env[0].y) && xx == setup.ToX(env[0].x)
      modifies this`screen, this`gcFont, this`index, this`max, this`charIndex, items, charCache
      modifies this`startX, this`startY, this`x, this`y, this`fontSize, this`fontNumber, this`font
      modifies this`gcFontKnown, this`wanted, this`health
      ensures Valid()
      ensures wanted ==
        Draw(Pen(xx, setup.queryFont(env[0].fontNumber, env[0].fontSize), old(wanted)), old(y), src).glyphs
      ensures LaidOut() == old(LaidOut()).Fonted(setup, env[0]).Placed(setup, env[0])
                             .Extended(setup.queryFont(env[0].fontNumber, env[0].fontSize), xx, src)
      ensures health == old(RunHealth(LaidOut(), setup, env[0], health))
    {
      hide Cache.Coupled, Cache.Valid, Draw, AfterAppend, FindHealth, Layout.Fonted, Layout.Placed, Layout.Extended;
      FindItem(xx);
      Append(src, xx);
    }

    method Append(src: seq<Byte>, xx: int)
      requires View().Coupled(setup, health) && index < max && src != [] && charIndex + |src| <= CHAR_CACHE_SIZE
      requires fontNumber >= 0
      requires items[index].nchars > 0 ==> xx == x && gcFontKnown == font
      modifies this`charIndex, this`x, this`gcFontKnown, this`wanted, items, charCache, this`health
      ensures Valid()
      ensures wanted == Draw(Pen(xx, setup.queryFont(fontNumber, fontSize), old(wanted)), y, src).glyphs
      ensures LaidOut() == old(LaidOut()).Extended(setup.queryFont(fontNumber, fontSize), xx, src)
      ensures health == AfterAppend(old(health), old(gcFontKnown), font)
    {
      hide Draw, RunWidth, Spliced, Cache.Coupled, Cache.Valid, AfterAppend;
      ghost var c := View();
      CoupledShape(c, setup, health);
      var f := font.value;
      var dst := charIndex;
      ExtendItem(|src|, xx);
      CopyRun(src, dst, f);
      DrawMoves(Pen(xx, f, wanted), y, src);
      wanted := Draw(Pen(xx, f, wanted), y, src).glyphs;
      health := AfterAppend(health, c.known, font);
      AppendedIsValid(c, View(), setup, old(health), src, xx, f);
    }

    /** One typesetter command. */
    method Execute(c: Command)
      requires Valid() && Allowed(c, env)
      modifies this, items, charCache
      ensures Valid() && env == NextEnv(c, old(env))
      ensures wanted == if c.Put? then setup.DrawNow(old(env)[0], c.src, old(wanted)) else old(wanted)
      ensures LaidOut() == old(LaidOut()).After(setup, c, old(env))
      ensures health.Spoiled? <==>
        old(health).Spoiled? || (c.Put? && old(LaidOut()).Harmed(setup, old(env)[0], |c.src|))
      ensures c.Flush? || c.InitTypesetter? ==> (screen == wanted <==> !health.Spoiled?)
    {
      hide Cache.Coupled, Cache.Shape, Draw, Layout.Overflows, Layout.AfterPut, Setup.DrawNow;
      match c
      case Put(src) => var _ := PutCharacters(src);
      case Flush => FlushCharCache();
      case InitTypesetter => ResetTypesetter();
      case _ => Move(c);
    }

    method Move(c: Command)
      requires Allowed(c, env) && !c.Put? && !c.Flush? && !c.InitTypesetter?
      modifies this`env
      ensures env == NextEnv(c, old(env))
    {
      match c
      case HorizontalMove(dx) => env := env[0 := env[0].(x := env[0].x + dx)];
      case HorizontalGoto(x) => env := env[0 := env[0].(x := x)];
      case VerticalMove(dy) => env := env[0 := env[0].(y := env[0].y + dy)];
      case VerticalGoto(y) => env := env[0 := env[0].(y := y)];
      case FontSize(n) => env := env[0 := env[0].(fontSize := n)];
      case FontNumber(k) => env := env[0 := env[0].(fontNumber := k)];
      case PushEnv => env := PushedEnv(env);
      case PopEnv => env := env[1..];
    }

    /** InitTypesetter: drop all environments, start with a fresh one. */
    method ResetTypesetter()
      requires Valid()
      modifies this`env, this`screen, this`gcFont, this`index, this`max, this`charIndex, items
      modifies this`startX, this`startY, this`x, this`y, this`health
      ensures Valid() && health == old(health) && env == [FIRST_STATE]
      ensures screen == wanted <==> !health.Spoiled?
      ensures LaidOut() == old(LaidOut()).Flushed(setup.ToX(FIRST_STATE.x), setup.ToX(FIRST_STATE.y))
    {
      while env != []
        invariant Valid()
        decreases |env|
        modifies this`env
      {
        env := env[1..];
      }
      env := PushedEnv(env);
      FlushCharCache();
    }

    /** A whole document, ended by the flush at the end of a page: the batched items have put exactly the
        glyphs of the reference on the screen, in the same order, unless a run needed the item behind the
        last one and what is there did harm; then they have not. */
    method Typeset(doc: seq<Command>)
      requires Valid() && health.Sound? && WellFormed(doc, env) && FinalEnv(doc, env) != []
      modifies this, items, charCache
      ensures Valid() && env == FinalEnv(doc, old(env))
      ensures screen == DrawDocument(setup, doc, old(env), old(wanted)) <==>
        NeverHarmed(setup, doc, old(env), old(LaidOut()))
    {
      var i := 0;
      while i < |doc|
        invariant 0 <= i <= |doc| && Valid() && WellFormed(doc[i..], env)
        invariant FinalEnv(doc[i..], env) == FinalEnv(doc, old(env))
        invariant DrawDocument(setup, doc[i..], env, wanted) == DrawDocument(setup, doc, old(env), old(wanted))
        invariant NeverHarmed(setup, doc, old(env), old(LaidOut())) <==>
          !health.Spoiled? && NeverHarmed(setup, doc[i..], env, LaidOut())
      {
        assert doc[i..][1..] == doc[i + 1..];
        Execute(doc[i]);
        i := i + 1;
      }
      FlushCharCache();
    }
  }

  // ---------------------------------------------------------------------------------------
  // An input on which the slot behind the last item shows
  // ---------------------------------------------------------------------------------------

  /** One item at a time, everything in view, one font for all, and this slot behind the item. */
  function SingleItems(f: Font, slot: Slot): Setup {
    Setup(1.0, 72, -1000, -1000, 1000, 1000, true, true, (_, _) => f, _ => slot)
  }

  /** The letter a, a gap, and the letter a again. */
  function TwoRuns(gap: int): seq<Command> {
    [PushEnv, Put([97]), HorizontalMove(gap), Put([97])]
  }

  lemma UnitScale(setup: Setup, d: nat)
    requires setup.scale == 1.0
    ensures setup.ToX(d) == d
  {
    var r := d as real * setup.scale + 0.5;
    assert d as real <= r < (d + 1) as real;
  }

  /** The document step by step. */
  lemma TwoRunsSteps(setup: Setup, gap: int, l: Layout)
    requires |l.buf| == CHAR_CACHE_SIZE && l.charIndex <= CHAR_CACHE_SIZE
    ensures var doc, s' := TwoRuns(gap), FIRST_STATE.(x := gap);
      && WellFormed(doc, []) && FinalEnv(doc, []) == [s'] && WellFormed([Put([97])], [s'])
      && var l' := l.After(setup, Put([97]), [FIRST_STATE]);
         NeverHarmed(setup, doc, [], l) ==> NeverHarmed(setup, [Put([97])], [s'], l')
  {
    var doc, s, s' := TwoRuns(gap), FIRST_STATE, FIRST_STATE.(x := gap);
    var d1: seq<Command>, d2: seq<Command>, d3: seq<Command> :=
      [Put([97]), HorizontalMove(gap), Put([97])], [HorizontalMove(gap), Put([97])], [Put([97])];
    assert doc[1..] == d1 && d1[1..] == d2 && d2[1..] == d3 && d3[1..] == [];
    assert NextEnv(PushEnv, []) == [s] && [s][0 := s'] == [s'];
    assert NextEnv(d2[0], [s]) == [s'];
    assert WellFormed([], [s']) && FinalEnv([], [s']) == [s'];
    assert WellFormed(d3, [s']) && FinalEnv(d3, [s']) == [s'];
    assert WellFormed(d2, [s]) && FinalEnv(d2, [s]) == [s'];
    assert WellFormed(d1, [s]) && FinalEnv(d1, [s]) == [s'];
    assert WellFormed(doc, []);
    var l' := l.After(setup, Put([97]), [s]);
    assert NeverHarmed(setup, doc, [], l) ==> NeverHarmed(setup, d1, [s], l);
    assert NeverHarmed(setup, d1, [s], l) ==> NeverHarmed(setup, d2, [s], l');
    assert NeverHarmed(setup, d2, [s], l') ==> NeverHarmed(setup, d3, [s'], l');
  }

  /** Two runs on one line, with a gap between them, are harmed by any characters in the slot. */
  lemma SecondRunHarmed(f: Font, slot: Slot, gap: nat, buf: seq<Byte>)
    requires slot.text != [] && gap < 900 && gap != CharWidth(f, 97) && |buf| == CHAR_CACHE_SIZE
    ensures WellFormed(TwoRuns(gap), []) && FinalEnv(TwoRuns(gap), []) != []
    ensures !NeverHarmed(SingleItems(f, slot), TwoRuns(gap), [], FirstLayout(buf))
  {
    var setup, doc, s := SingleItems(f, slot), TwoRuns(gap), FIRST_STATE;
    var s' := s.(x := gap);
    UnitScale(setup, 0);
    UnitScale(setup, gap);
    var l := FirstLayout(buf);
    var l' := l.AfterPut(setup, s, [97]);
    assert RunWidth(f, [97]) == RunWidth(f, []) + CharWidth(f, 97);
    assert l'.filled && l'.index == 0 && l'.x == CharWidth(f, 97) && l'.y == 0 && l'.charIndex == 1;
    assert l'.Harmed(setup, s', 1);
    TwoRunsSteps(setup, gap, l);
    assert !NeverHarmed(setup, [Put([97])], [s'], l');
  }

  /** The picture is then not the wanted one. */
  method TwoRunsSpoiled(f: Font, slot: Slot, gap: nat) returns (w: DviWidget)
    requires slot.text != [] && gap < 900 && gap != CharWidth(f, 97)
    ensures WellFormed(TwoRuns(gap), [])
    ensures w.screen != DrawDocument(SingleItems(f, slot), TwoRuns(gap), [], [])
  {
    w := new DviWidget(SingleItems(f, slot), f);
    SecondRunHarmed(f, slot, gap, w.charCache[..]);
    w.Typeset(TwoRuns(gap));
  }
}

/**
 What a document of typesetter commands means, said of the glyphs it leaves on the screen: where every letter of a run
 stands, what each command does to the runs behind it, and that a bracketed block leaves no trace but its glyphs.
 */
module TextLaws {
  import opened Common
  import opened TextCache

  // ---------------------------------------------------------------------------------------
  // One run
  // ---------------------------------------------------------------------------------------

  /** From x to x' is the width that the font gives for the character; one outside the font's table has none. */
  predicate Spans(f: Font, c: Byte, x: int, x': int) {
    match f.perChar
    case None => x' == x + f.maxWidth
    case Some(table) => 0 <= c - f.minChar < |table| ==> x' == x + table[c - f.minChar]
  }

  /** The characters of a run behind what the screen showed before, in the font and on the line. */
  ghost predicate Written(screen: seq<Glyph>, screen': seq<Glyph>, f: Font, y: int, src: seq<Byte>) {
    && |screen'| == |screen| + |src| && screen <= screen'
    && forall k :: 0 <= k < |src| ==>
         var g := screen'[|screen| + k];
         g.c == src[k] && g.font == f && g.y == y
  }

  /** Each letter but the first stands where the one before it ends. */
  ghost predicate Spaced(screen: seq<Glyph>, screen': seq<Glyph>, f: Font, src: seq<Byte>)
    requires |screen'| == |screen| + |src|
  {
    forall k :: 0 <= k < |src| - 1 ==> Spans(f, src[k], screen'[|screen| + k].x, screen'[|screen| + k + 1].x)
  }

  /** The letters of a run: the first one at the pen and each further one where the one before it ends. */
  ghost predicate Lettered(screen: seq<Glyph>, screen': seq<Glyph>, f: Font, x: int, y: int, src: seq<Byte>) {
    && Written(screen, screen', f, y, src) && Spaced(screen, screen', f, src)
    && (src != [] ==> screen'[|screen|].x == x)
  }

  lemma OneMoreWritten(screen: seq<Glyph>, a: seq<Glyph>, f: Font, y: int, init: seq<Byte>, g: Glyph)
    requires Written(screen, a, f, y, init) && g.font == f && g.y == y
    ensures Written(screen, a + [g], f, y, init + [g.c])
  {
    var b, src, n := a + [g], init + [g.c], |screen|;
    assert b[..n] == a[..n] == screen;
    forall k | 0 <= k < |src| ensures b[n + k].c == src[k] && b[n + k].font == f && b[n + k].y == y {
      if k < |init| {
        assert b[n + k] == a[n + k] && src[k] == init[k];
      }
    }
  }

  lemma OneMoreSpaced(screen: seq<Glyph>, a: seq<Glyph>, f: Font, init: seq<Byte>, g: Glyph)
    requires |a| == |screen| + |init| && Spaced(screen, a, f, init)
    requires init != [] ==> Spans(f, init[|init| - 1], a[|a| - 1].x, g.x)
    ensures Spaced(screen, a + [g], f, init + [g.c])
  {
    var b, src, n := a + [g], init + [g.c], |screen|;
    forall k | 0 <= k < |src| - 1 ensures Spans(f, src[k], b[n + k].x, b[n + k + 1].x) {
      assert src[k] == init[k] && b[n + k] == a[n + k];
      if k < |init| - 1 {
        assert b[n + k + 1] == a[n + k + 1];
      }
    }
  }

  lemma OneMoreLetter(screen: seq<Glyph>, a: seq<Glyph>, f: Font, x: int, y: int, init: seq<Byte>, g: Glyph)
    requires Lettered(screen, a, f, x, y, init) && g.font == f && g.y == y
    requires if init == [] then g.x == x else Spans(f, init[|init| - 1], a[|a| - 1].x, g.x)
    ensures Lettered(screen, a + [g], f, x, y, init + [g.c])
  {
    hide Spaced;
    OneMoreWritten(screen, a, f, y, init, g);
    OneMoreSpaced(screen, a, f, init, g);
  }

  lemma {:induction false} DrawLetters(p: Pen, y: int, src: seq<Byte>)
    ensures Lettered(p.glyphs, Draw(p, y, src).glyphs, p.font, p.x, y, src)
    ensures |Draw(p, y, src).glyphs| == |p.glyphs| + |src|
    ensures var d := Draw(p, y, src);
      if src == [] then d.x == p.x else Spans(p.font, src[|src| - 1], d.glyphs[|d.glyphs| - 1].x, d.x)
  {
    if src == [] {
      assert Draw(p, y, src) == p;
    } else {
      hide Lettered;
      var init, c := src[..|src| - 1], src[|src| - 1];
      DrawLetters(p, y, init);
      DrawKeepsFont(p, y, init);
      var d := Draw(p, y, init);
      OneMoreLetter(p.glyphs, d.glyphs, p.font, p.x, y, init, Glyph(d.x, y, p.font, c));
      assert init + [c] == src;
    }
  }

  /** A device position in pixels: the nearest pixel, except that truncation raises what lies below minus one half. */
  lemma PixelIsNearest(setup: Setup, d: int)
    ensures var exact := d as real * setup.scale;
      if exact >= -0.5 then exact - 0.5 < setup.ToX(d) as real <= exact + 0.5
      else exact + 0.5 <= setup.ToX(d) as real < exact + 1.5
  {
  }

  /** A point size in pixels, rounded towards zero. */
  lemma SizeInPixels(setup: Setup, size: int)
    ensures var exact, px := size * setup.resolution, setup.FontSizeInPixels(size);
      if exact >= 0 then 72 * px <= exact < 72 * px + 72 else 72 * px - 72 < exact <= 72 * px
  {
  }

  predicate Within(x: int, y: int, x1: int, y1: int, x2: int, y2: int) {
    x1 <= x <= x2 && y1 <= y <= y2
  }

  /** The quick and dirty test: a run is drawn exactly when the box that reaches a letter's size above and below its
      start, and that times its length to the left and to the right, has a point in the exposed area. */
  lemma VisibleWhenBoxMeets(setup: Setup, s: DviState, len: nat)
    requires setup.x1 <= setup.x2 && setup.y1 <= setup.y2 && setup.FontSizeInPixels(s.fontSize) >= 0
    ensures var xx, yx, px := setup.ToX(s.x), setup.ToX(s.y), setup.FontSizeInPixels(s.fontSize);
      setup.Visible(s, len) <==>
        exists x, y :: Within(x, y, setup.x1, setup.y1, setup.x2, setup.y2)
                       && Within(x, y, xx - px * len, yx - px, xx + px * len, yx + px)
  {
    var xx, yx, px := setup.ToX(s.x), setup.ToX(s.y), setup.FontSizeInPixels(s.fontSize);
    var fx := px * len;
    assert fx >= 0;
    if setup.Visible(s, len) {
      var x := if xx - fx >= setup.x1 then xx - fx else setup.x1;
      var y := if yx - px >= setup.y1 then yx - px else setup.y1;
      assert Within(x, y, setup.x1, setup.y1, setup.x2, setup.y2) && Within(x, y, xx - fx, yx - px, xx + fx, yx + px);
    }
  }

  /** What one run does to the screen. */
  lemma RunDrawn(setup: Setup, s: DviState, src: seq<Byte>, screen: seq<Glyph>)
    ensures setup.Visible(s, |src|) && setup.displayEnable ==>
      Lettered(screen, setup.DrawNow(s, src, screen), setup.queryFont(s.fontNumber, s.fontSize), setup.ToX(s.x),
               setup.ToX(s.y), src)
    ensures !setup.Visible(s, |src|) || !setup.displayEnable ==> setup.DrawNow(s, src, screen) == screen
  {
    hide Setup.Visible, Setup.ToX, Draw, Lettered;
    DrawLetters(Pen(setup.ToX(s.x), setup.queryFont(s.fontNumber, s.fontSize), screen), setup.ToX(s.y), src);
  }

  // ---------------------------------------------------------------------------------------
  // Documents
  // ---------------------------------------------------------------------------------------

  /** One part of a document after the other. */
  lemma {:induction false} DocumentParts(setup: Setup, a: seq<Command>, b: seq<Command>, env: seq<DviState>,
                                         screen: seq<Glyph>)
    requires WellFormed(a, env) && WellFormed(b, FinalEnv(a, env))
    ensures WellFormed(a + b, env) && FinalEnv(a + b, env) == FinalEnv(b, FinalEnv(a, env))
    ensures DrawDocument(setup, a + b, env, screen)
         == DrawDocument(setup, b, FinalEnv(a, env), DrawDocument(setup, a, env, screen))
    decreases |a|
  {
    hide NextEnv, Setup.DrawNow;
    if a == [] {
      assert a + b == b;
    } else {
      assert (a + b)[1..] == a[1..] + b;
      var screen' := if a[0].Put? then setup.DrawNow(env[0], a[0].src, screen) else screen;
      DocumentParts(setup, a[1..], b, NextEnv(a[0], env), screen');
    }
  }

  lemma OneCommand(setup: Setup, c: Command, env: seq<DviState>, screen: seq<Glyph>)
    requires Allowed(c, env)
    ensures WellFormed([c], env) && FinalEnv([c], env) == NextEnv(c, env)
    ensures DrawDocument(setup, [c], env, screen) == if c.Put? then setup.DrawNow(env[0], c.src, screen) else screen
  {
    hide Setup.DrawNow, NextEnv;
    assert [c][1..] == [];
  }

  /** What each command makes of the state s, with the states `rest` saved below it. */
  predicate Governs(c: Command, s: DviState, rest: seq<DviState>, s': DviState) {
    match c
    case HorizontalMove(dx) => s' == DviState(s.fontSize, s.fontNumber, s.x + dx, s.y)
    case HorizontalGoto(x) => s' == DviState(s.fontSize, s.fontNumber, x, s.y)
    case VerticalMove(dy) => s' == DviState(s.fontSize, s.fontNumber, s.x, s.y + dy)
    case VerticalGoto(y) => s' == DviState(s.fontSize, s.fontNumber, s.x, y)
    case FontSize(n) => s' == DviState(n, s.fontNumber, s.x, s.y)
    case FontNumber(k) => s' == DviState(s.fontSize, k, s.x, s.y)
    case PopEnv => rest != [] && s' == rest[0]
    case InitTypesetter => s' == DviState(10, 1, 0, 0)
    case _ => s' == s
  }

  /** A run directly behind a command is drawn in the state that the command makes. */
  lemma CommandThenRun(setup: Setup, c: Command, s: DviState, rest: seq<DviState>, src: seq<Byte>, screen: seq<Glyph>)
    returns (s': DviState)
    requires 1 <= |src| <= CHAR_CACHE_SIZE && !c.Put? && (c.PopEnv? ==> rest != [])
    ensures Governs(c, s, rest, s')
    ensures WellFormed([c, Put(src)], [s] + rest)
    ensures DrawDocument(setup, [c, Put(src)], [s] + rest, screen) == setup.DrawNow(s', src, screen)
  {
    hide Setup.DrawNow;
    assert ([s] + rest)[1..] == rest;
    var env := NextEnv(c, [s] + rest);
    s' := env[0];
    OneCommand(setup, c, [s] + rest, screen);
    OneCommand(setup, Put(src), env, screen);
    DocumentParts(setup, [c], [Put(src)], [s] + rest, screen);
    assert [c] + [Put(src)] == [c, Put(src)];
  }

  /** The run behind the very first '{' is drawn at the origin, in size 10 of font 1. */
  lemma FirstRun(setup: Setup, src: seq<Byte>, screen: seq<Glyph>)
    requires 1 <= |src| <= CHAR_CACHE_SIZE
    ensures WellFormed([PushEnv, Put(src)], [])
    ensures DrawDocument(setup, [PushEnv, Put(src)], [], screen) == setup.DrawNow(DviState(10, 1, 0, 0), src, screen)
  {
    hide Setup.DrawNow;
    OneCommand(setup, PushEnv, [], screen);
    OneCommand(setup, Put(src), NextEnv(PushEnv, []), screen);
    DocumentParts(setup, [PushEnv], [Put(src)], [], screen);
    assert [PushEnv] + [Put(src)] == [PushEnv, Put(src)];
  }

  /** Starting over forgets every saved state. */
  lemma StartsOver(env: seq<DviState>)
    ensures WellFormed([InitTypesetter], env) && FinalEnv([InitTypesetter], env) == [DviState(10, 1, 0, 0)]
  {
    assert [InitTypesetter][1..] == [];
  }

  /** Every PopEnv of the block answers a PushEnv of the block, `open` of which are open at its start, and the block
      does not start the typesetter over. */
  predicate Balanced(block: seq<Command>, open: nat) {
    if block == [] then open == 0
    else if block[0].PushEnv? then Balanced(block[1..], open + 1)
    else if block[0].PopEnv? then open > 0 && Balanced(block[1..], open - 1)
    else !block[0].InitTypesetter? && Balanced(block[1..], open)
  }

  /** What lies below the states of a block does not matter to it, and stays. */
  lemma {:induction false} BlockStandsAlone(setup: Setup, block: seq<Command>, env: seq<DviState>, below: seq<DviState>,
                                            screen: seq<Glyph>)
    requires env != [] && Balanced(block, |env| - 1) && WellFormed(block, env + below)
    ensures WellFormed(block, env)
    ensures |FinalEnv(block, env)| == 1 && FinalEnv(block, env + below) == FinalEnv(block, env) + below
    ensures DrawDocument(setup, block, env + below, screen) == DrawDocument(setup, block, env, screen)
    decreases |block|
  {
    hide Setup.DrawNow;
    if block != [] {
      var c := block[0];
      assert (env + below)[0] == env[0];
      CommandStandsAlone(c, env, below);
      var screen' := if c.Put? then setup.DrawNow(env[0], c.src, screen) else screen;
      BlockStandsAlone(setup, block[1..], NextEnv(c, env), below, screen');
    }
  }

  lemma CommandStandsAlone(c: Command, env: seq<DviState>, below: seq<DviState>)
    requires env != [] && Allowed(c, env + below) && !c.InitTypesetter? && (c.PopEnv? ==> |env| > 1)
    ensures Allowed(c, env) && NextEnv(c, env + below) == NextEnv(c, env) + below
    ensures |NextEnv(c, env)| == (if c.PushEnv? then |env| + 1 else if c.PopEnv? then |env| - 1 else |env|)
  {
    assert (env + below)[0] == env[0];
    if c.PopEnv? {
      assert (env + below)[1..] == env[1..] + below;
    } else if c.PushEnv? {
      assert [env[0]] + (env + below) == [env[0]] + env + below;
    } else {
      var s := NextEnv(c, env)[0];
      assert (env + below)[0 := s] == env[0 := s] + below;
    }
  }

  /** A block that stands alone can be put on any states. */
  lemma {:induction false} WiderStack(block: seq<Command>, env: seq<DviState>, below: seq<DviState>)
    requires env != [] && Balanced(block, |env| - 1) && WellFormed(block, env)
    ensures WellFormed(block, env + below)
    decreases |block|
  {
    if block != [] {
      assert (env + below)[0] == env[0];
      CommandStandsAlone(block[0], env, below);
      WiderStack(block[1..], NextEnv(block[0], env), below);
    }
  }

  lemma PushFirst(setup: Setup, block: seq<Command>, env: seq<DviState>, screen: seq<Glyph>)
    requires env != [] && WellFormed(block, [env[0]] + env)
    ensures WellFormed([PushEnv] + block, env)
    ensures FinalEnv([PushEnv] + block, env) == FinalEnv(block, [env[0]] + env)
    ensures DrawDocument(setup, [PushEnv] + block, env, screen) == DrawDocument(setup, block, [env[0]] + env, screen)
  {
    hide Setup.DrawNow;
    assert ([PushEnv] + block)[1..] == block;
  }

  lemma PopLast(setup: Setup, env: seq<DviState>, screen: seq<Glyph>)
    requires env != []
    ensures WellFormed([PopEnv], env) && FinalEnv([PopEnv], env) == env[1..]
    ensures DrawDocument(setup, [PopEnv], env, screen) == screen
  {
    hide Setup.DrawNow;
    OneCommand(setup, PopEnv, env, screen);
  }

  /** A block in braces draws what the block draws from the state at hand, and afterwards everything stands as it
      stood before the brace: whatever the block did to position and font is gone. */
  lemma Bracketed(setup: Setup, block: seq<Command>, env: seq<DviState>, screen: seq<Glyph>)
    requires env != [] && Balanced(block, 0) && WellFormed(block, env)
    ensures WellFormed([PushEnv] + block + [PopEnv], env)
    ensures FinalEnv([PushEnv] + block + [PopEnv], env) == env
    ensures DrawDocument(setup, [PushEnv] + block + [PopEnv], env, screen) == DrawDocument(setup, block, env, screen)
  {
    hide Setup.DrawNow;
    var s, rest := env[0], env[1..];
    assert env == [s] + rest;
    BlockStandsAlone(setup, block, [s], rest, screen);
    WiderStack(block, [s], env);
    BlockStandsAlone(setup, block, [s], env, screen);
    var inner := FinalEnv(block, [s]) + env;
    assert inner[1..] == env;
    PushFirst(setup, block, env, screen);
    PopLast(setup, inner, DrawDocument(setup, block, env, screen));
    DocumentParts(setup, [PushEnv] + block, [PopEnv], env, screen);
  }
}

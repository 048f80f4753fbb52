/** xfontsel from its start: what GetFontNames schedules, and the order in which everything runs. */
module StartUp {
  import opened WorkQueue
  import opened WorkRuns

  const PARSE_QUANTUM := 25
  const MENU_COUNT := 14

  function Piece(priority: int, task: Task): Work {
    Work(priority, task, [])
  }

  /** The parse pieces for the names from start on; only those before the first quantum get priority 0. */
  function ParsePlan(start: nat, n: nat, priority: int): seq<Work>
    requires start <= n
    decreases n - start
  {
    if n - start > PARSE_QUANTUM then
      [Piece(priority, ParseFontNames(start, start + PARSE_QUANTUM)), Piece(priority, XtFree)]
      + ParsePlan(start + PARSE_QUANTUM, n, 1)
    else
      [Piece(priority, ParseFontNames(start, n)), Piece(priority, XFreeFontNames), Piece(priority, XtFree)]
  }

  /** GetFontNames on n names; `select` is false when a pattern is given and no name is a well-formed one. */
  function Plan(n: nat, scaledFonts: bool, select: bool): seq<Work> {
    if n == 0 then []
    else
      ParsePlan(0, n, 0) + TailPlan(if n > PARSE_QUANTUM then 1 else 0, scaledFonts, select)
  }

  /** What follows the parse pieces. */
  function TailPlan(priority: int, scaledFonts: bool, select: bool): seq<Work> {
    (if scaledFonts then [Piece(priority, FixScalables)] else [])
    + [Piece(priority, SortFields)]
    + (if select then [Piece(1, SetCurrentFont)] else [])
  }

  /** The chunking loop of GetFontNames. */
  method GetFontNamesPlan(n: nat, scaledFonts: bool, select: bool) returns (plan: seq<Work>)
    ensures plan == Plan(n, scaledFonts, select)
  {
    if n == 0 {
      return [];
    }
    plan := [];
    var priority, start, count := 0, 0, n;
    while count > PARSE_QUANTUM
      invariant start + count == n && 1 <= count
      invariant priority == if start == 0 then 0 else 1
      invariant plan + ParsePlan(start, n, priority) == ParsePlan(0, n, 0)
      invariant start > 0 ==> n > PARSE_QUANTUM
    {
      plan := plan + [Piece(priority, ParseFontNames(start, start + PARSE_QUANTUM)), Piece(priority, XtFree)];
      start := start + PARSE_QUANTUM;
      count := count - PARSE_QUANTUM;
      priority := 1;
    }
    plan := plan
      + [Piece(priority, ParseFontNames(start, n)), Piece(priority, XFreeFontNames), Piece(priority, XtFree)];
    assert plan == ParsePlan(0, n, 0);
    if scaledFonts {
      plan := plan + [Piece(priority, FixScalables)];
    }
    plan := plan + [Piece(priority, SortFields)];
    if select {
      plan := plan + [Piece(1, SetCurrentFont)];
    }
  }

  /** The menu pieces that main schedules for the fields from f on. */
  function Menus(f: nat): seq<Work>
    requires f <= MENU_COUNT
    decreases MENU_COUNT - f
  {
    if f == MENU_COUNT then [] else [Piece(2, MakeFieldMenu(f)), Piece(2, XtFree)] + Menus(f + 1)
  }

  /** The parse pieces of a run, in order, cover the names from p up to n, each once. */
  ghost predicate Tiles(ws: seq<Work>, p: nat, n: nat)
    decreases |ws|
  {
    if ws == [] then p == n
    else if ws[0].task.ParseFontNames? then
      var t := ws[0].task;
      t.start == p && p < t.end <= p + PARSE_QUANTUM && Tiles(ws[1..], t.end, n)
    else Tiles(ws[1..], p, n)
  }

  lemma {:induction false} ParsePlanTiles(start: nat, n: nat, priority: int, rest: seq<Work>)
    requires start < n && forall i :: 0 <= i < |rest| ==> !rest[i].task.ParseFontNames?
    ensures Tiles(ParsePlan(start, n, priority) + rest, start, n)
    decreases n - start
  {
    var ws := ParsePlan(start, n, priority) + rest;
    if n - start > PARSE_QUANTUM {
      assert ws[1..][1..] == ParsePlan(start + PARSE_QUANTUM, n, 1) + rest;
      ParsePlanTiles(start + PARSE_QUANTUM, n, 1, rest);
    } else {
      assert ws[1..][1..][1..] == rest;
      NoParseTiles(rest, n);
    }
  }

  lemma {:induction false} NoParseTiles(rest: seq<Work>, n: nat)
    requires forall i :: 0 <= i < |rest| ==> !rest[i].task.ParseFontNames?
    ensures Tiles(rest, n, n)
  {
    if rest != [] {
      NoParseTiles(rest[1..], n);
    }
  }

  ghost predicate Within(ws: seq<Work>, low: int, high: int) {
    forall i :: 0 <= i < |ws| ==> low <= ws[i].priority <= high && ws[i].plan == []
  }

  lemma {:induction false} ParsePlanOrder(start: nat, n: nat, priority: int)
    requires start <= n && 0 <= priority <= 1
    ensures InOrder(ParsePlan(start, n, priority))
    ensures Within(ParsePlan(start, n, priority), priority, if n - start > PARSE_QUANTUM then 1 else priority)
    decreases n - start
  {
    if n - start > PARSE_QUANTUM {
      ParsePlanOrder(start + PARSE_QUANTUM, n, 1);
    }
  }

  lemma OrderConcat(a: seq<Work>, b: seq<Work>)
    requires InOrder(a) && InOrder(b)
    requires forall i, j :: 0 <= i < |a| && 0 <= j < |b| ==> a[i].priority <= b[j].priority
    ensures InOrder(a + b)
  {
  }

  lemma TailPlanOrder(priority: int, scaledFonts: bool, select: bool)
    requires 0 <= priority <= 1
    ensures InOrder(TailPlan(priority, scaledFonts, select))
    ensures Within(TailPlan(priority, scaledFonts, select), priority, 1)
    ensures forall i :: 0 <= i < |TailPlan(priority, scaledFonts, select)| ==>
      !TailPlan(priority, scaledFonts, select)[i].task.ParseFontNames?
  {
  }

  lemma PlanOrder(n: nat, scaledFonts: bool, select: bool)
    ensures InOrder(Plan(n, scaledFonts, select)) && Within(Plan(n, scaledFonts, select), 0, 1)
  {
    var priority := if n > PARSE_QUANTUM then 1 else 0;
    ParsePlanOrder(0, n, 0);
    TailPlanOrder(priority, scaledFonts, select);
    OrderConcat(ParsePlan(0, n, 0), TailPlan(priority, scaledFonts, select));
  }

  lemma {:induction false} MenusOrder(f: nat)
    requires f <= MENU_COUNT
    ensures Within(Menus(f), 2, 2)
    ensures forall i :: 0 <= i < |Menus(f)| ==> !Menus(f)[i].task.ParseFontNames?
    decreases MENU_COUNT - f
  {
    if f < MENU_COUNT {
      MenusOrder(f + 1);
    }
  }

  /** A newcomer goes between what is not above it and what is. */
  lemma InsertBetween(a: seq<Work>, w: Work, b: seq<Work>)
    requires forall i :: 0 <= i < |a| ==> a[i].priority <= w.priority
    requires forall i :: 0 <= i < |b| ==> w.priority < b[i].priority
    ensures Insert(a + b, w) == a + [w] + b
  {
    var q := a + b;
    PlaceIs(q, w.priority, |a|);
    assert q[..|a|] == a && q[|a|..] == b;
  }

  /** None of the first is above any of the second. */
  ghost predicate NoneAbove(a: seq<Work>, b: seq<Work>) {
    forall i, j :: 0 <= i < |a| && 0 <= j < |b| ==> a[i].priority <= b[j].priority
  }

  ghost predicate AllBelow(a: seq<Work>, b: seq<Work>) {
    forall i, j :: 0 <= i < |a| && 0 <= j < |b| ==> a[i].priority < b[j].priority
  }

  lemma LastOfBlock(a: seq<Work>, init: seq<Work>, last: Work, b: seq<Work>)
    requires InOrder(init + [last]) && NoneAbove(a, init + [last]) && AllBelow(init + [last], b)
    ensures InOrder(init) && NoneAbove(a, init) && AllBelow(init, b)
    ensures forall i :: 0 <= i < |a + init| ==> (a + init)[i].priority <= last.priority
    ensures forall i :: 0 <= i < |b| ==> last.priority < b[i].priority
  {
    var plan := init + [last];
    assert forall i :: 0 <= i < |init| ==> plan[i] == init[i];
    assert plan[|init|] == last;
  }

  /** An ordered plan goes in as a block between what is not above it and what is. */
  lemma {:induction false} InsertBlock(a: seq<Work>, plan: seq<Work>, b: seq<Work>)
    requires InOrder(plan) && NoneAbove(a, plan) && AllBelow(plan, b)
    ensures InsertAll(a + b, plan) == a + plan + b
    decreases |plan|
  {
    hide NoneAbove, AllBelow, InOrder;
    if plan == [] {
      assert a + plan + b == a + b;
    } else {
      var init, last := plan[..|plan| - 1], plan[|plan| - 1];
      assert plan == init + [last];
      LastOfBlock(a, init, last, b);
      InsertBlock(a, init, b);
      InsertBetween(a + init, last, b);
      assert a + init + [last] == a + plan;
    }
  }

  lemma {:induction false} LeavesRunInOrder(q: seq<Work>)
    requires forall i :: 0 <= i < |q| ==> q[i].plan == []
    ensures Trace(q) == q
  {
    if q != [] {
      assert After(q) == q[1..];
      LeavesRunInOrder(q[1..]);
    }
  }

  lemma PlanTiles(n: nat, scaledFonts: bool, select: bool)
    requires n > 0
    ensures Tiles(Plan(n, scaledFonts, select) + Menus(0), 0, n)
  {
    var priority := if n > PARSE_QUANTUM then 1 else 0;
    var parses, tail, menus := ParsePlan(0, n, 0), TailPlan(priority, scaledFonts, select), Menus(0);
    TailPlanOrder(priority, scaledFonts, select);
    MenusOrder(0);
    TilesWithRest(n, parses, tail, menus);
  }

  lemma TilesWithRest(n: nat, parses: seq<Work>, tail: seq<Work>, menus: seq<Work>)
    requires n > 0 && parses == ParsePlan(0, n, 0)
    requires forall i :: 0 <= i < |tail| ==> !tail[i].task.ParseFontNames?
    requires forall i :: 0 <= i < |menus| ==> !menus[i].task.ParseFontNames?
    ensures Tiles(parses + tail + menus, 0, n)
  {
    ParsePlanTiles(0, n, 0, tail + menus);
    assert parses + tail + menus == parses + (tail + menus);
  }

  /** The queue after GetFontNames has been scheduled before the menus, and after it has run. */
  lemma ScheduledFirst(first: Work, menus: seq<Work>)
    requires first.priority == 0 && Within(menus, 2, 2)
    ensures InsertAll([first], menus) == [first] + menus
  {
    InsertBlock([first], menus, []);
    assert [first] + [] == [first] && [first] + menus + [] == [first] + menus;
  }

  lemma AfterFirst(first: Work, menus: seq<Work>)
    requires InOrder(first.plan) && Within(first.plan, 0, 1) && first.priority == 0 && Within(menus, 2, 2)
    ensures After([first] + menus) == first.plan + menus
  {
    var plan := first.plan;
    KeptIsAll(plan, 0);
    PlanBefore(plan, menus);
    assert ([first] + menus)[1..] == menus;
  }

  lemma PlanBefore(plan: seq<Work>, menus: seq<Work>)
    requires InOrder(plan) && Within(plan, 0, 1) && Within(menus, 2, 2)
    ensures InsertAll(menus, plan) == plan + menus
  {
    InsertBlock([], plan, menus);
    assert [] + menus == menus && [] + plan == plan;
  }

  lemma TraceFirst(first: Work, menus: seq<Work>)
    requires InOrder(first.plan) && Within(first.plan, 0, 1) && first.priority == 0 && Within(menus, 2, 2)
    ensures Trace(InsertAll([first], menus)) == [first] + (first.plan + menus)
  {
    ScheduledFirst(first, menus);
    AfterFirst(first, menus);
    LeavesRunInOrder(first.plan + menus);
    TraceStep([], [first] + menus);
  }

  /** From start-up: GetFontNames, then the parse chunks over all names in order, then FixScalables, SortFields and
      SetCurrentFont, then the menus of all fields. */
  lemma StartUpRun(n: nat, scaledFonts: bool, select: bool)
    ensures var first := Work(0, GetFontNames, Plan(n, scaledFonts, select));
      Trace(InsertAll([first], Menus(0))) == [first] + (Plan(n, scaledFonts, select) + Menus(0))
    ensures n > 0 ==> Tiles(Plan(n, scaledFonts, select) + Menus(0), 0, n)
  {
    hide Plan, Menus, InOrder, Within, Tiles, Trace, InsertAll;
    var plan, menus := Plan(n, scaledFonts, select), Menus(0);
    var first := Work(0, GetFontNames, plan);
    PlanOrder(n, scaledFonts, select);
    MenusOrder(0);
    TraceFirst(first, menus);
    if n > 0 {
      PlanTiles(n, scaledFonts, select);
    }
  }

  // ---------------------------------------------------------------------------------------
  // The start-up in words of its own
  // ---------------------------------------------------------------------------------------

  /** What is run, without the pieces that only free memory. */
  function Deeds(ws: seq<Work>): seq<Task> {
    if ws == [] then []
    else
      var t := ws[0].task;
      (if t.XtFree? || t.XFreeFontNames? then [] else [t]) + Deeds(ws[1..])
  }

  lemma {:induction false} DeedsConcat(a: seq<Work>, b: seq<Work>)
    ensures Deeds(a + b) == Deeds(a) + Deeds(b)
  {
    if a == [] {
      assert a + b == b;
    } else {
      assert (a + b)[1..] == a[1..] + b;
      DeedsConcat(a[1..], b);
    }
  }

  /** The names from start on in twenty-fives. */
  function Chunks(start: nat, n: nat): seq<Task>
    requires start <= n
    decreases n - start
  {
    if n - start > 25 then [ParseFontNames(start, start + 25)] + Chunks(start + 25, n) else [ParseFontNames(start, n)]
  }

  /** Chunk i begins with name 25 i, and there are as many as are needed. */
  lemma {:induction false} ChunkAt(start: nat, n: nat, i: nat)
    requires start < n && start + 25 * i < n
    ensures i < |Chunks(start, n)|
    ensures Chunks(start, n)[i]
         == ParseFontNames(start + 25 * i, if start + 25 * i + 25 < n then start + 25 * i + 25 else n)
    ensures start + 25 * |Chunks(start, n)| >= n > start + 25 * (|Chunks(start, n)| - 1)
    decreases n - start
  {
    if n - start > 25 {
      ChunkAt(start + 25, n, if i > 0 then i - 1 else 0);
    }
  }

  lemma DeedsStep(w: Work, ws: seq<Work>)
    ensures Deeds([w] + ws) == (if w.task.XtFree? || w.task.XFreeFontNames? then [] else [w.task]) + Deeds(ws)
  {
    assert ([w] + ws)[0] == w && ([w] + ws)[1..] == ws;
  }

  lemma {:induction false} ParseDeeds(start: nat, n: nat, priority: int)
    requires start <= n
    ensures Deeds(ParsePlan(start, n, priority)) == Chunks(start, n)
    decreases n - start
  {
    hide Deeds;
    var free := Piece(priority, XtFree);
    if n - start > PARSE_QUANTUM {
      var rest := ParsePlan(start + PARSE_QUANTUM, n, 1);
      var parse := Piece(priority, ParseFontNames(start, start + PARSE_QUANTUM));
      ParseDeeds(start + PARSE_QUANTUM, n, 1);
      DeedsStep(parse, [free] + rest);
      DeedsStep(free, rest);
      assert [parse, free] + rest == [parse] + ([free] + rest);
    } else {
      var parse, names := Piece(priority, ParseFontNames(start, n)), Piece(priority, XFreeFontNames);
      DeedsStep(parse, [names, free]);
      DeedsStep(names, [free]);
      DeedsStep(free, []);
      NoDeeds();
      assert [parse, names, free] == [parse] + [names, free] && [names, free] == [names] + [free];
      assert [free] == [free] + [];
    }
  }

  lemma NoDeeds()
    ensures Deeds([]) == []
  {
  }

  lemma {:induction false} MenuDeeds(f: nat)
    requires f <= 14
    ensures Deeds(Menus(f)) == seq(14 - f, i requires 0 <= i < 14 - f => MakeFieldMenu(f + i))
    decreases 14 - f
  {
    hide Deeds;
    if f == 14 {
      NoDeeds();
    } else {
      var menu, free := Piece(2, MakeFieldMenu(f)), Piece(2, XtFree);
      MenuDeeds(f + 1);
      DeedsStep(menu, [free] + Menus(f + 1));
      DeedsStep(free, Menus(f + 1));
      assert Menus(f) == [menu] + ([free] + Menus(f + 1));
    }
  }

  lemma TailDeeds(priority: int, scaledFonts: bool, select: bool)
    ensures Deeds(TailPlan(priority, scaledFonts, select)) ==
      (if scaledFonts then [FixScalables] else []) + [SortFields] + (if select then [SetCurrentFont] else [])
  {
    var fix: seq<Work> := if scaledFonts then [Piece(priority, FixScalables)] else [];
    var sort := [Piece(priority, SortFields)];
    var current: seq<Work> := if select then [Piece(1, SetCurrentFont)] else [];
    DeedsConcat(fix + sort, current);
    DeedsConcat(fix, sort);
    assert fix != [] ==> fix[1..] == [];
    assert sort[1..] == [] && (current != [] ==> current[1..] == []);
  }

  /** From start-up the names are read in twenty-fives from the first to the last, then the scalable fonts are added if
      that is wanted, the menus sorted, the current font looked up, and the fourteen menus made, from the first. */
  lemma StartUpDeeds(n: nat, scaledFonts: bool, select: bool)
    requires n > 0
    ensures var first := Work(0, GetFontNames, Plan(n, scaledFonts, select));
      Deeds(Trace(InsertAll([first], Menus(0)))) ==
        [GetFontNames] + Chunks(0, n) + (if scaledFonts then [FixScalables] else []) + [SortFields]
        + (if select then [SetCurrentFont] else []) + seq(14, f requires 0 <= f < 14 => MakeFieldMenu(f))
  {
    hide Menus, ParsePlan, TailPlan, Trace, InsertAll, Chunks, Deeds;
    var priority := if n > PARSE_QUANTUM then 1 else 0;
    var parses, tail, menus := ParsePlan(0, n, 0), TailPlan(priority, scaledFonts, select), Menus(0);
    var first := Work(0, GetFontNames, parses + tail);
    StartUpRun(n, scaledFonts, select);
    FirstDeed(first);
    ParseDeeds(0, n, 0);
    TailDeeds(priority, scaledFonts, select);
    MenuDeeds(0);
    DeedsConcat([first], parses + tail + menus);
    DeedsConcat(parses + tail, menus);
    DeedsConcat(parses, tail);
  }

  lemma FirstDeed(first: Work)
    requires first.task == GetFontNames
    ensures Deeds([first]) == [GetFontNames]
  {
    assert [first][1..] == [];
  }
}

/**
 The start-up trace of xfontsel's queue, carried out on the font index: the pieces that parse, scale and sort, in the
 order in which the queue runs them, build the index of all accepted names.
 */
module StartUpIndex {
  import opened Common
  import opened XlfdName
  import opened FontIndex
  import opened ScalableFonts
  import opened SortedFields
  import opened FontSession
  import W = WorkQueue
  import WorkRuns
  import StartUp

  /** What remains to be done on the index when it holds the names up to p, with the scalable fonts in it or not, and
      sorted or not. */
  ghost predicate Rest(ws: seq<W.Work>, names: seq<string>, p: nat, scaled: bool, fixed: bool, sorted: bool)
    requires p <= |names|
    decreases |ws|
  {
    if ws == [] then p == |names| && fixed == scaled && sorted
    else
      match ws[0].task
      case ParseFontNames(a, b) =>
        && a == p < |names| && b == ChunkEnd(names, p) && !fixed && !sorted
        && Rest(ws[1..], names, b, scaled, fixed, sorted)
      case FixScalables =>
        p == |names| && scaled && !fixed && !sorted && Rest(ws[1..], names, p, scaled, true, sorted)
      case SortFields =>
        p == |names| && fixed == scaled && !sorted && Rest(ws[1..], names, p, scaled, fixed, true)
      case _ => Rest(ws[1..], names, p, scaled, fixed, sorted)
  }

  /** Pieces that do not touch the index. */
  predicate Elsewhere(w: W.Work) {
    !w.task.ParseFontNames? && !w.task.FixScalables? && !w.task.SortFields?
  }

  lemma {:induction false} RestElsewhere(ws: seq<W.Work>, names: seq<string>, scaled: bool)
    requires forall i :: 0 <= i < |ws| ==> Elsewhere(ws[i])
    ensures Rest(ws, names, |names|, scaled, scaled, true)
  {
    if ws != [] {
      assert Elsewhere(ws[0]);
      RestElsewhere(ws[1..], names, scaled);
    }
  }

  lemma {:induction false} MenusElsewhere(f: nat)
    requires f <= StartUp.MENU_COUNT
    ensures forall i :: 0 <= i < |StartUp.Menus(f)| ==> Elsewhere(StartUp.Menus(f)[i])
    decreases StartUp.MENU_COUNT - f
  {
    if f < StartUp.MENU_COUNT {
      MenusElsewhere(f + 1);
    }
  }

  lemma RestStep(w: W.Work, ws: seq<W.Work>, names: seq<string>, p: nat, scaled: bool, fixed: bool, sorted: bool)
    requires p <= |names| && Elsewhere(w) && Rest(ws, names, p, scaled, fixed, sorted)
    ensures Rest([w] + ws, names, p, scaled, fixed, sorted)
  {
    assert ([w] + ws)[1..] == ws;
  }

  lemma SortRest(w: W.Work, ws: seq<W.Work>, names: seq<string>, scaled: bool)
    requires w.task.SortFields? && Rest(ws, names, |names|, scaled, scaled, true)
    ensures Rest([w] + ws, names, |names|, scaled, scaled, false)
  {
    assert ([w] + ws)[1..] == ws;
  }

  lemma FixRest(w: W.Work, ws: seq<W.Work>, names: seq<string>)
    requires w.task.FixScalables? && Rest(ws, names, |names|, true, true, false)
    ensures Rest([w] + ws, names, |names|, true, false, false)
  {
    assert ([w] + ws)[1..] == ws;
  }

  lemma TailRest(priority: int, names: seq<string>, scaled: bool, select: bool)
    ensures Rest(StartUp.TailPlan(priority, scaled, select) + StartUp.Menus(0), names, |names|, scaled, false, false)
  {
    hide Rest, StartUp.Menus;
    MenusElsewhere(0);
    var fix, sort := StartUp.Piece(priority, W.FixScalables), StartUp.Piece(priority, W.SortFields);
    var current: seq<W.Work> := if select then [StartUp.Piece(1, W.SetCurrentFont)] else [];
    var rest := current + StartUp.Menus(0);
    RestElsewhere(rest, names, scaled);
    SortRest(sort, rest, names, scaled);
    if scaled {
      FixRest(fix, [sort] + rest, names);
      assert [fix] + [sort] + current + StartUp.Menus(0) == [fix] + ([sort] + rest);
    } else {
      assert [] + [sort] + current + StartUp.Menus(0) == [sort] + rest;
    }
  }

  lemma {:induction false} ParseRest(start: nat, names: seq<string>, priority: int, rest: seq<W.Work>, scaled: bool)
    requires start < |names| && Rest(rest, names, |names|, scaled, false, false)
    ensures Rest(StartUp.ParsePlan(start, |names|, priority) + rest, names, start, scaled, false, false)
    decreases |names| - start
  {
    var ws := StartUp.ParsePlan(start, |names|, priority) + rest;
    var end := ChunkEnd(names, start);
    if end < |names| {
      ParseRest(end, names, 1, rest, scaled);
      var tail := StartUp.ParsePlan(end, |names|, 1) + rest;
      RestStep(StartUp.Piece(priority, W.XtFree), tail, names, end, scaled, false, false);
      assert ws[1..] == [StartUp.Piece(priority, W.XtFree)] + tail;
    } else {
      RestStep(StartUp.Piece(priority, W.XtFree), rest, names, end, scaled, false, false);
      RestStep(StartUp.Piece(priority, W.XFreeFontNames), [StartUp.Piece(priority, W.XtFree)] + rest, names, end,
               scaled, false, false);
      assert ws[1..] == [StartUp.Piece(priority, W.XFreeFontNames)] + ([StartUp.Piece(priority, W.XtFree)] + rest);
    }
  }

  /** The pieces of the plan and the menus do everything, in this order. */
  lemma PlanRest(names: seq<string>, scaled: bool, select: bool)
    requires names != []
    ensures Rest(StartUp.Plan(|names|, scaled, select) + StartUp.Menus(0), names, 0, scaled, false, false)
  {
    hide Rest, StartUp.ParsePlan, StartUp.TailPlan, StartUp.Menus;
    var priority := if |names| > StartUp.PARSE_QUANTUM then 1 else 0;
    var parses, tail, menus :=
      StartUp.ParsePlan(0, |names|, 0), StartUp.TailPlan(priority, scaled, select), StartUp.Menus(0);
    TailRest(priority, names, scaled, select);
    ParseRest(0, names, 0, tail + menus, scaled);
    assert parses + tail + menus == parses + (tail + menus);
  }

  /** The index between two pieces. */
  ghost predicate IndexAt(s: FontSelector, names: seq<string>, p: nat, fixed: bool, sorted: bool, pixelSizes: string,
                          pointSizes: string)
    requires p <= |names|
    reads s, s.fonts
  {
    && s.fonts.Length == |names|
    && if !fixed && !sorted then s.Parsed(p) && ParsedUpTo(s.rows, names, p)
       else
         && s.rows == RowsOf(Accepted(names, 0)) && s.numFonts == |s.rows| <= |names|
         && IndexOk(s.fieldValues, s.rows, s.fonts[..], fixed) && EverythingEnabled(s.fieldValues)
         && (forall f :: 0 <= f < FIELD_COUNT ==>
               Offered(s.fieldValues[f], f, s.rows, fixed, pixelSizes, pointSizes))
         && (sorted ==> forall f :: 0 <= f < FIELD_COUNT ==> Sorted(s.fieldValues[f], Scales(f)))
  }

  /** When all names are parsed the rows are those of the accepted names. */
  lemma AllParsed(rows: seq<Row>, names: seq<string>)
    requires ParsedUpTo(rows, names, |names|)
    ensures rows == RowsOf(Accepted(names, 0))
  {
    assert rows + [] == rows;
  }

  method Parse(s: FontSelector, names: seq<string>, start: nat, end: nat, ghost pixelSizes: string,
      ghost pointSizes: string)
    requires start < |names| && end == ChunkEnd(names, start)
    requires IndexAt(s, names, start, false, false, pixelSizes, pointSizes)
    modifies s, s.fonts
    ensures IndexAt(s, names, end, false, false, pixelSizes, pointSizes)
  {
    ParseStep(s.rows, names, start, end);
    s.ParseFontNames(names, start, end);
  }

  method Fix(s: FontSelector, ghost names: seq<string>, pixelSizes: string, pointSizes: string)
    requires IndexAt(s, names, |names|, false, false, pixelSizes, pointSizes)
    modifies s`fieldValues
    ensures IndexAt(s, names, |names|, true, false, pixelSizes, pointSizes)
  {
    hide Offered, FieldOk;
    AllParsed(s.rows, names);
    FixScalables(s, pixelSizes, pointSizes);
  }

  method Sort(s: FontSelector, ghost names: seq<string>, ghost fixed: bool, ghost pixelSizes: string,
      ghost pointSizes: string)
    requires IndexAt(s, names, |names|, fixed, false, pixelSizes, pointSizes)
    modifies s`fieldValues, s.fonts
    ensures IndexAt(s, names, |names|, fixed, true, pixelSizes, pointSizes)
  {
    hide Offered, FieldOk, Sorted, AllEnabled;
    if !fixed {
      AllParsed(s.rows, names);
      forall f | 0 <= f < FIELD_COUNT ensures Offered(s.fieldValues[f], f, s.rows, false, pixelSizes, pointSizes) {
        assert FieldOk(s.fieldValues[f], f, s.rows, s.fonts[..], false);
        OfferedUnscaled(s.fieldValues[f], f, s.rows, s.fonts[..], false, pixelSizes, pointSizes);
      }
    }
    ghost var before := s.fieldValues;
    SortFields(s, fixed);
    forall f | 0 <= f < FIELD_COUNT
      ensures AllEnabled(s.fieldValues[f]) && Sorted(s.fieldValues[f], Scales(f))
      ensures Offered(s.fieldValues[f], f, s.rows, fixed, pixelSizes, pointSizes)
    {
      SortedMenu(before[f], s.fieldValues[f], f, s.rows, fixed, pixelSizes, pointSizes);
    }
  }

  /** The pieces of a trace, one after the other; those that do not touch the index are passed over. */
  method RunPieces(s: FontSelector, ws: seq<W.Work>, names: seq<string>, ghost scaled: bool, pixelSizes: string,
      pointSizes: string)
    requires IndexAt(s, names, 0, false, false, pixelSizes, pointSizes)
    requires Rest(ws, names, 0, scaled, false, false)
    modifies s, s.fonts
    ensures IndexAt(s, names, |names|, scaled, true, pixelSizes, pointSizes)
  {
    hide Offered, FieldOk, Sorted, EverythingEnabled;
    ghost var p: nat, fixed, sorted := 0, false, false;
    for i := 0 to |ws|
      invariant p <= |names| && IndexAt(s, names, p, fixed, sorted, pixelSizes, pointSizes)
      invariant Rest(ws[i..], names, p, scaled, fixed, sorted)
    {
      assert ws[i..][0] == ws[i] && ws[i..][1..] == ws[i + 1..];
      match ws[i].task
      case ParseFontNames(start, end) =>
        Parse(s, names, start, end, pixelSizes, pointSizes);
        p := end;
      case FixScalables =>
        Fix(s, names, pixelSizes, pointSizes);
        fixed := true;
      case SortFields =>
        Sort(s, names, fixed, pixelSizes, pointSizes);
        sorted := true;
      case _ =>
    }
  }

  /** The trace of the start-up queue, carried out from an empty index, gives what parsing, scaling and sorting all
      the names one after the other gives. */
  method RunStartUp(trace: seq<W.Work>, names: seq<string>, scaledFonts: bool, select: bool, pixelSizes: string,
      pointSizes: string)
      returns (s: FontSelector)
    requires names != []
    requires var first := W.Work(0, W.GetFontNames, StartUp.Plan(|names|, scaledFonts, select));
      trace == WorkRuns.Trace(W.InsertAll([first], StartUp.Menus(0)))
    ensures fresh(s) && fresh(s.fonts) && s.fonts.Length == |names| && s.numFonts == |s.rows| <= |names|
    ensures s.rows == RowsOf(Accepted(names, 0))
    ensures IndexOk(s.fieldValues, s.rows, s.fonts[..], scaledFonts) && EverythingEnabled(s.fieldValues)
    ensures forall f :: 0 <= f < FIELD_COUNT ==> Sorted(s.fieldValues[f], Scales(f))
    ensures forall f :: 0 <= f < FIELD_COUNT ==>
      Offered(s.fieldValues[f], f, s.rows, scaledFonts, pixelSizes, pointSizes)
  {
    hide Offered, Rest, WorkRuns.Trace, W.InsertAll, StartUp.Plan, StartUp.Menus, IndexOk, Sorted;
    ghost var first := W.Work(0, W.GetFontNames, StartUp.Plan(|names|, scaledFonts, select));
    StartUp.StartUpRun(|names|, scaledFonts, select);
    PlanRest(names, scaledFonts, select);
    RestStep(first, StartUp.Plan(|names|, scaledFonts, select) + StartUp.Menus(0), names, 0, scaledFonts, false, false);
    s := new FontSelector(|names|);
    RunPieces(s, trace, names, scaledFonts, pixelSizes, pointSizes);
  }
}

/**
  TechDraw::DrawViewDraft and TechDraw::DrawViewArch: symbol views whose
  SVG is produced by a script from a Draft or Arch source object.

  Both decide whether to recompute from their own touched properties
  (unless the document is being restored) and fall back to
  DrawViewSymbol::mustExecute(); both skip the script when not kept up to
  date or without a source. Of the script only its `getSVG` call's
  modules and argument list are modelled.
*/
module TechDrawViews {

  /** The properties the two views add. */
  datatype ViewProperty =
    | Source | AllOn | RenderMode | FillSpaces | ShowHidden | ShowFill
    | LineWidth | FontSize | Direction | Color | LineStyle | LineSpacing

  /** The properties whose change makes a Draft view recompute. */
  const DraftWatched: set<ViewProperty> :=
    {Source, LineWidth, FontSize, Direction, Color, LineStyle, LineSpacing}

  /** The properties whose change makes an Arch view recompute; FillSpaces is not among them. */
  const ArchWatched: set<ViewProperty> :=
    {Source, AllOn, RenderMode, ShowHidden, ShowFill, LineWidth, FontSize}

  /**
    `RenderModeEnums`, without its terminating null: the names of the
    RenderMode property, which is among the properties an Arch view
    watches and whose index the script hands to `getSVG` as `renderMode=`.
  */
  const RenderModeEnums: seq<string> := ["Wireframe", "Solid"]

  /**
    What `mustExecute` reads: `isRestoring()`, the view's touched
    properties and DrawViewSymbol::mustExecute().
  */
  datatype ViewState = ViewState(restoring: bool, touched: set<ViewProperty>, symbolMustExecute: int)

  /** The shared shape of both `mustExecute`s, over the set of watched properties. */
  function WatchedMustExecute(watched: set<ViewProperty>, v: ViewState): (r: int)
    ensures v.restoring ==> r == v.symbolMustExecute
    ensures !v.restoring && (exists p :: p in watched && p in v.touched) ==> r == 1
    ensures !v.restoring && (forall p :: p in watched ==> p !in v.touched) ==> r == v.symbolMustExecute
  {
    var result := if !v.restoring && exists p :: p in watched && p in v.touched then 1 else 0;
    if result != 0 then result else v.symbolMustExecute
  }

  /** `DrawViewDraft::mustExecute()` */
  function DraftMustExecute(v: ViewState): (r: int)
    ensures v.restoring ==> r == v.symbolMustExecute
    ensures !v.restoring && (exists p :: p in DraftWatched && p in v.touched) ==> r == 1
    ensures !v.restoring && (forall p :: p in DraftWatched ==> p !in v.touched) ==> r == v.symbolMustExecute
  {
    WatchedMustExecute(DraftWatched, v)
  }

  /** `DrawViewArch::mustExecute()` */
  function ArchMustExecute(v: ViewState): (r: int)
    ensures v.restoring ==> r == v.symbolMustExecute
    ensures !v.restoring && (exists p :: p in ArchWatched && p in v.touched) ==> r == 1
    ensures !v.restoring && (forall p :: p in ArchWatched ==> p !in v.touched) ==> r == v.symbolMustExecute
  {
    WatchedMustExecute(ArchWatched, v)
  }

  /** Only the watched properties matter: touching any other one changes nothing. */
  lemma {:induction false} UnwatchedIgnored(watched: set<ViewProperty>, v: ViewState, p: ViewProperty)
    requires p !in watched
    ensures WatchedMustExecute(watched, v.(touched := v.touched + {p})) == WatchedMustExecute(watched, v)
  {
    var w := v.(touched := v.touched + {p});
    if exists q :: q in watched && q in w.touched {
      var q :| q in watched && q in w.touched;
      assert q in v.touched;
    }
  }

  /** Touching FillSpaces never makes an Arch view recompute, while it still makes no difference to a Draft view either. */
  lemma ArchIgnoresFillSpaces(v: ViewState)
    ensures ArchMustExecute(v.(touched := v.touched + {FillSpaces})) == ArchMustExecute(v)
    ensures DraftMustExecute(v.(touched := v.touched + {FillSpaces})) == DraftMustExecute(v)
  {
    UnwatchedIgnored(ArchWatched, v, FillSpaces);
    UnwatchedIgnored(DraftWatched, v, FillSpaces);
  }

  /** The Arch view recomputes on a touched AllOn, RenderMode, ShowHidden or ShowFill; the Draft view on Direction, Color, LineStyle or LineSpacing. */
  lemma WatchedDiffer(v: ViewState)
    requires !v.restoring && v.symbolMustExecute == 0
    ensures ArchMustExecute(v.(touched := {AllOn})) == 1 && DraftMustExecute(v.(touched := {AllOn})) == 0
    ensures DraftMustExecute(v.(touched := {Color})) == 1 && ArchMustExecute(v.(touched := {Color})) == 0
  {
    assert AllOn in ArchWatched;
    assert Color in DraftWatched;
  }

  /** What `execute` does, in order. */
  datatype Step = RunSymbolScript | CallDrawViewExecute

  datatype ExecReturn = StdReturn | Returned(code: int)

  /** How `execute` ends: with a report, or with the exception `runString` throws for a failing script. */
  datatype Outcome = Finished(ret: ExecReturn) | ScriptException

  /**
    `execute()` of either view: nothing and StdReturn when not kept
    updated; otherwise the script when there is a source, then
    DrawView::execute(), whose result `drawView` is returned. A script that
    raises (`scriptRaises`) ends `execute` with its exception before
    DrawView::execute() is reached.
  */
  function Execute(keepUpdated: bool, hasSource: bool, scriptRaises: bool, drawView: ExecReturn): (r: (seq<Step>, Outcome))
    ensures !keepUpdated ==> r == ([], Finished(StdReturn))
    ensures keepUpdated ==> (RunSymbolScript in r.0 <==> hasSource)
    ensures keepUpdated ==> (CallDrawViewExecute in r.0 <==> !(hasSource && scriptRaises))
    ensures keepUpdated ==> (r.1 == ScriptException <==> hasSource && scriptRaises)
    ensures keepUpdated && !(hasSource && scriptRaises) ==>
              r.1 == Finished(drawView) && |r.0| > 0 && r.0[|r.0| - 1] == CallDrawViewExecute
  {
    if !keepUpdated then ([], Finished(StdReturn))
    else if hasSource && scriptRaises then ([RunSymbolScript], ScriptException)
    else ((if hasSource then [RunSymbolScript] else []) + [CallDrawViewExecute], Finished(drawView))
  }

  /** The script runs at most once, and before DrawView::execute(). */
  lemma ExecuteOrder(keepUpdated: bool, hasSource: bool, scriptRaises: bool, drawView: ExecReturn)
    ensures var steps := Execute(keepUpdated, hasSource, scriptRaises, drawView).0;
            |steps| <= 2 && (|steps| == 2 ==> steps == [RunSymbolScript, CallDrawViewExecute])
  {
  }

  // ---------------------------------------------------------------------
  // The symbol script's call

  /**
    The `getSVG` call the script makes: the module it imports, the module
    whose `getSVG` it calls, and the argument texts between the call's
    parentheses. How the numbers in the arguments are formatted is not
    modelled.
  */
  datatype SymbolCall = SymbolCall(imported: string, called: string, args: seq<string>)

  /** The arguments as they appear in the call, separated by commas. */
  function JoinArgs(args: seq<string>): (r: string)
    ensures |args| == 1 ==> r == args[0]
    ensures |args| > 1 ==> r == args[0] + "," + JoinArgs(args[1..])
  {
    if |args| == 0 then "" else if |args| == 1 then args[0] else args[0] + "," + JoinArgs(args[1..])
  }

  /**
    A script that Python rejects: an empty argument is a syntax error, and
    a call through a module name the script did not import is a name error.
  */
  predicate ScriptRaises(c: SymbolCall) {
    c.imported != c.called || exists i :: 0 <= i < |c.args| && c.args[i] == ""
  }

  /**
    The call `DrawViewDraft::execute` writes, as written: the source object,
    then a "," and another "," before `scale=`, which leaves an empty
    argument.
  */
  function DraftCallAsWritten(source: string, options: seq<string>): (c: SymbolCall)
    ensures c.imported == c.called == "Draft"
    ensures |c.args| >= 2 && c.args[0] == source && c.args[1] == ""
  {
    SymbolCall("Draft", "Draft", [source, ""] + options)
  }

  /**
    The call `DrawViewArch::execute` writes, as written: it imports
    `ArchSectionPlane` but calls `ArchSelectionPlane.getSVG`, and has the
    same empty argument.
  */
  function ArchCallAsWritten(source: string, options: seq<string>): (c: SymbolCall)
    ensures c.imported != c.called
    ensures |c.args| >= 2 && c.args[0] == source && c.args[1] == ""
  {
    SymbolCall("ArchSectionPlane", "ArchSelectionPlane", [source, ""] + options)
  }

  /** The argument list of either call holds ",," between the source and the first option: `getObject('…'),,scale=…`. */
  lemma AsWrittenDoubleComma(source: string, options: seq<string>)
    requires options != []
    ensures JoinArgs(DraftCallAsWritten(source, options).args) == source + ",," + JoinArgs(options)
    ensures JoinArgs(ArchCallAsWritten(source, options).args) == source + ",," + JoinArgs(options)
  {
    var args := [source, ""] + options;
    assert args[1..] == [""] + options && ([""] + options)[1..] == options;
    assert JoinArgs(args) == source + "," + ("" + "," + JoinArgs(options));
  }

  /**
    However the options are formatted, both scripts as written raise, so a
    view with a source never reaches DrawView::execute() and its Symbol is
    never set.
  */
  lemma AsWrittenScriptsRaise(source: string, options: seq<string>, drawView: ExecReturn)
    ensures ScriptRaises(DraftCallAsWritten(source, options))
    ensures ScriptRaises(ArchCallAsWritten(source, options))
    ensures Execute(true, true, ScriptRaises(DraftCallAsWritten(source, options)), drawView) ==
              ([RunSymbolScript], ScriptException)
    ensures Execute(true, true, ScriptRaises(ArchCallAsWritten(source, options)), drawView) ==
              ([RunSymbolScript], ScriptException)
  {
    assert DraftCallAsWritten(source, options).args[1] == "";
  }

  /** The Draft call with the extra comma removed. */
  function DraftCall(source: string, options: seq<string>): (c: SymbolCall)
    ensures c.imported == c.called == DraftCallAsWritten(source, options).called
    ensures |c.args| >= 1 && c.args[0] == source && c.args[1..] == DraftCallAsWritten(source, options).args[2..]
  {
    SymbolCall("Draft", "Draft", [source] + options)
  }

  /** The Arch call with the extra comma removed and the imported module called. */
  function ArchCall(source: string, options: seq<string>): (c: SymbolCall)
    ensures c.imported == c.called == ArchCallAsWritten(source, options).imported
    ensures c.called != ArchCallAsWritten(source, options).called
    ensures |c.args| >= 1 && c.args[0] == source && c.args[1..] == ArchCallAsWritten(source, options).args[2..]
  {
    SymbolCall("ArchSectionPlane", "ArchSectionPlane", [source] + options)
  }

  /**
    With a source and options that are all non-empty, the corrected calls
    are not rejected, and `execute` goes on to DrawView::execute() and
    returns its result.
  */
  lemma CorrectedScriptsRun(source: string, options: seq<string>, drawView: ExecReturn)
    requires source != [] && forall i :: 0 <= i < |options| ==> options[i] != []
    ensures !ScriptRaises(DraftCall(source, options)) && !ScriptRaises(ArchCall(source, options))
    ensures Execute(true, true, ScriptRaises(DraftCall(source, options)), drawView) ==
              ([RunSymbolScript, CallDrawViewExecute], Finished(drawView))
    ensures Execute(true, true, ScriptRaises(ArchCall(source, options)), drawView) ==
              ([RunSymbolScript, CallDrawViewExecute], Finished(drawView))
  {
    assert forall i :: 0 <= i < |[source] + options| ==> ([source] + options)[i] != [] by {
      forall i | 0 <= i < |[source] + options|
        ensures ([source] + options)[i] != []
      {
        if i > 0 {
          assert ([source] + options)[i] == options[i - 1];
        }
      }
    }
    assert DraftCall(source, options).args == [source] + options == ArchCall(source, options).args;
    assert [RunSymbolScript] + [CallDrawViewExecute] == [RunSymbolScript, CallDrawViewExecute];
  }

  /**
    The three pieces `getSVGHead()` joins, the same for both views. Each
    attribute is written as its name, then its URL cut at the host, path
    and query, so that the lemmas below can look at one short piece at a
    time.
  */
  const SvgOpen: string := "<svg\\n"
  const SvgNamespace: string :=
    "\txmlns=\"" + "http://www.w3.org" + "/2000/svg" + "\" version=\"1.1\"\\n"
  const SvgFreecadNamespace: string :=
    "\txmlns:freecad=\"" + "http://www.freecadweb.org" + "/wiki/index.php" + "?title=Svg_Namespace" + "\">\\n"

  /** `getSVGHead()` */
  const SvgHead: string := SvgOpen + SvgNamespace + SvgFreecadNamespace

  /** `getSVGTail()`, the same for both views. */
  const SvgTail: string := "\\n</svg>"

  /** Text that can be spliced into a single-quoted one-line script literal. */
  predicate FitsQuotedLiteral(s: string) {
    '\'' !in s && '\n' !in s
  }

  lemma NamespaceFits()
    ensures FitsQuotedLiteral(SvgNamespace)
  {
    assert FitsQuotedLiteral("\txmlns=\"");
    assert FitsQuotedLiteral("http://www.w3.org");
    assert FitsQuotedLiteral("/2000/svg");
    assert FitsQuotedLiteral("\" version=\"1.1\"\\n");
  }

  lemma FreecadNamespaceFits()
    ensures FitsQuotedLiteral(SvgFreecadNamespace)
  {
    assert FitsQuotedLiteral("\txmlns:freecad=\"");
    assert FitsQuotedLiteral("http://www.freecadweb.org");
    assert FitsQuotedLiteral("/wiki/index.php");
    assert FitsQuotedLiteral("?title=Svg_Namespace");
    assert FitsQuotedLiteral("\">\\n");
  }

  /**
    The head opens an `svg` element and the tail closes it; both carry their
    line breaks as the escape backslash-n, so they can stand inside the
    single-quoted literal of the script.
  */
  lemma SvgFrame()
    ensures |SvgHead| >= 4 && SvgHead[..4] == "<svg"
    ensures |SvgTail| >= 6 && SvgTail[|SvgTail| - 6..] == "</svg>"
    ensures FitsQuotedLiteral(SvgHead) && FitsQuotedLiteral(SvgTail)
  {
    NamespaceFits();
    FreecadNamespaceFits();
    assert SvgHead[..4] == SvgOpen[..4];
  }
}

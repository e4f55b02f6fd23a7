/** The fold renderer (`highlight_json`): it walks the document's lines once,
    keeping the indentation level and a `skip_depth`, and for each line either
    suppresses it (it lies inside a collapsed block) or emits one row of the
    render plan. The iced widgets are replaced by `RenderLine` values. */
module Render {
  import opened Text
  import opened Tokenizer
  import opened Colors
  import opened Collapse

  datatype Option<T> = None | Some(value: T)

  /** A coloured piece of text: one token and its tone. */
  datatype Span = Span(text: string, tone: Tone)

  /** The toggle button at the head of a row: a blank spacer on lines that
      cannot collapse, a caret (pointing up when collapsed) on those that can. */
  datatype Toggle = Spacer | Caret(collapsed: bool)

  /** What a collapsed opener shows after its own tokens: ` {count} lines `
      and the closing bracket in that bracket's tone. */
  datatype Marker = Marker(count: nat, closing: char, tone: Tone)

  /** One emitted row: the source line index, its toggle, its indentation level
      (the row is indented by twice this many spaces), its spans and, when
      collapsed, its marker. */
  datatype RenderLine = RenderLine(line: nat, toggle: Toggle, indent: nat, spans: seq<Span>, marker: Option<Marker>)

  /** The renderer's loop state: `indent_level`, `skip_depth` and the rows so far. */
  datatype Fold = Fold(level: nat, skip: Option<nat>, rows: seq<RenderLine>)

  /** What the renderer reads besides its loop state: the trimmed lines, the
      block matcher's map, the set of collapsed line indices, the numeric predicate
      the colour resolver uses and the line tokenizer (`Tokens` for a document,
      see `ViewOf`; the fold itself does not depend on how lines tokenize). */
  datatype View = View(
    ts: seq<string>,
    counts: map<nat, nat>,
    collapsed: set<nat>,
    isNumeric: string -> bool,
    tokenize: string -> seq<Token>)

  /** Each token becomes one span coloured by the colour resolver. */
  function Paint(tokens: seq<Token>, isNumeric: string -> bool): (spans: seq<Span>)
    ensures |spans| == |tokens|
    ensures forall i :: 0 <= i < |tokens| ==>
      spans[i].text == tokens[i].text
      && spans[i].tone == ColorForToken(tokens[i].text, tokens[i].isKey, tokens[i].inString, isNumeric)
  {
    if tokens == [] then []
    else
      var t := tokens[0];
      [Span(t.text, ColorForToken(t.text, t.isKey, t.inString, isNumeric))] + Paint(tokens[1..], isNumeric)
  }

  /** `trimmed_line.ends_with('{')`. */
  predicate EndsWithBrace(t: string) {
    |t| > 0 && t[|t| - 1] == '{'
  }

  /** The marker of a collapsed opener on line `idx`: the map's count (0 when
      the opener was never matched) and the bracket that would close it. */
  function MarkerFor(v: View, idx: nat, t: string): Marker {
    var count := if idx in v.counts then v.counts[idx] else 0;
    var closing := if EndsWithBrace(t) then '}' else ']';
    Marker(count, closing, ColorForToken([closing], false, false, v.isNumeric))
  }

  /** The row that line `idx` (trimmed text `t`) renders as when it is shown
      at level `indent`. */
  function Row(v: View, idx: nat, t: string, indent: nat): RenderLine {
    var collapsible := EndsOpening(t) && idx != 0;
    var isCollapsed := idx in v.collapsed;
    var tokens := if !(isCollapsed && collapsible && t == []) then v.tokenize(t) else [];
    RenderLine(
      idx,
      if collapsible then Caret(isCollapsed) else Spacer,
      indent,
      Paint(tokens, v.isNumeric),
      if collapsible && isCollapsed then Some(MarkerFor(v, idx, t)) else None)
  }

  /** One iteration of the renderer's loop on line `idx`. */
  function FoldLine(v: View, f: Fold, idx: nat, t: string): Fold {
    if f.skip.Some? && f.level > f.skip.value then
      Fold(NextLevel(f.level, t), f.skip, f.rows)
    else
      var collapsible := EndsOpening(t) && idx != 0;
      var isCollapsed := idx in v.collapsed;
      Fold(
        NextLevel(f.level, t),
        if collapsible && isCollapsed then Some(f.level) else None,
        f.rows + [Row(v, idx, t, f.level)])
  }

  /** The renderer's state after the first `n` lines. */
  function FoldPrefix(v: View, n: nat): Fold
    requires n <= |v.ts|
    decreases n
  {
    if n == 0 then Fold(0, None, [])
    else FoldLine(v, FoldPrefix(v, n - 1), n - 1, v.ts[n - 1])
  }

  /** The whole document's View: its trimmed lines and their block map. */
  function ViewOf(lines: seq<string>, collapsed: set<nat>, isNumeric: string -> bool): View {
    var ts := TrimAll(lines);
    View(ts, CollapseCounts(ts), collapsed, isNumeric, Tokens)
  }

  /** The rows `highlight_json` emits. */
  function Highlight(lines: seq<string>, collapsed: set<nat>, isNumeric: string -> bool): seq<RenderLine> {
    var v := ViewOf(lines, collapsed, isNumeric);
    FoldPrefix(v, |v.ts|).rows
  }

  /** `highlight_json` with widget building replaced by the render plan. What
      the rows are is stated about `Highlight` by the lemmas below. */
  method HighlightJson(lines: seq<string>, collapsed: set<nat>, isNumeric: string -> bool)
    returns (elements: seq<RenderLine>)
    ensures elements == Highlight(lines, collapsed, isNumeric)
  {
    var collapseCounts := CalculateCollapseCounts(lines);
    ghost var v := View(TrimAll(lines), collapseCounts, collapsed, isNumeric, Tokens);
    assert v == ViewOf(lines, collapsed, isNumeric);
    elements := HighlightLines(v, lines, collapsed, collapseCounts, isNumeric);
  }

  /** The inputs the renderer's loop reads are the ones `v` describes. */
  ghost predicate Serves(v: View, collapsed: set<nat>, collapseCounts: map<nat, nat>, isNumeric: string -> bool) {
    v.collapsed == collapsed && v.counts == collapseCounts && v.isNumeric == isNumeric && v.tokenize == Tokens
  }

  /** One more line folds in as `FoldLine`. */
  lemma FoldPrefixStep(v: View, idx: nat)
    requires idx < |v.ts|
    ensures FoldPrefix(v, idx + 1) == FoldLine(v, FoldPrefix(v, idx), idx, v.ts[idx])
  {
  }

  /** The renderer's loop over every line. */
  method HighlightLines(ghost v: View, lines: seq<string>,
                        collapsed: set<nat>, collapseCounts: map<nat, nat>, isNumeric: string -> bool)
    returns (elements: seq<RenderLine>)
    requires Serves(v, collapsed, collapseCounts, isNumeric) && v.ts == TrimAll(lines)
    ensures elements == FoldPrefix(v, |v.ts|).rows
  {
    elements := [];
    var indentLevel: nat := 0;
    var skipDepth: Option<nat> := None;
    for idx := 0 to |lines|
      invariant Fold(indentLevel, skipDepth, elements) == FoldPrefix(v, idx)
    {
      var trimmedLine := Trim(lines[idx]);
      FoldPrefixStep(v, idx);
      indentLevel, skipDepth, elements :=
        HighlightLine(v, idx, trimmedLine, indentLevel, skipDepth, elements, collapsed, collapseCounts, isNumeric);
    }
  }

  /** One iteration of the renderer's loop, on line `idx` whose trimmed text is
      `trimmedLine`: it takes the state after the first `idx` lines to the
      state after the first `idx + 1`. */
  method HighlightLine(ghost v: View, idx: nat, trimmedLine: string,
                       indentLevel: nat, skipDepth: Option<nat>, elements: seq<RenderLine>,
                       collapsed: set<nat>, collapseCounts: map<nat, nat>, isNumeric: string -> bool)
    returns (level: nat, skip: Option<nat>, rows: seq<RenderLine>)
    requires Serves(v, collapsed, collapseCounts, isNumeric)
    ensures Fold(level, skip, rows) == FoldLine(v, Fold(indentLevel, skipDepth, elements), idx, trimmedLine)
  {
    if skipDepth.Some? && indentLevel > skipDepth.value {
      level := SkipLine(trimmedLine, indentLevel);
      skip, rows := skipDepth, elements;
    } else {
      level, skip, rows := ShowLine(v, idx, trimmedLine, indentLevel, elements, collapsed, collapseCounts, isNumeric);
    }
  }

  /** The part of one loop iteration that runs on a suppressed line: only the
      level moves. */
  method SkipLine(trimmedLine: string, indentLevel: nat) returns (level: nat)
    ensures level == NextLevel(indentLevel, trimmedLine)
  {
    level := indentLevel;
    if StartsClosing(trimmedLine) {
      level := SatDec(level);
    }
    if EndsOpening(trimmedLine) {
      level := level + 1;
    }
  }

  /** The part of one loop iteration that runs on a line that is not skipped:
      emit its row, then update the level and `skip_depth`. */
  method ShowLine(ghost v: View, idx: nat, trimmedLine: string, indentLevel: nat, elements: seq<RenderLine>,
                  collapsed: set<nat>, collapseCounts: map<nat, nat>, isNumeric: string -> bool)
    returns (level: nat, skipDepth: Option<nat>, rows: seq<RenderLine>)
    requires Serves(v, collapsed, collapseCounts, isNumeric)
    ensures Fold(level, skipDepth, rows) == FoldLine(v, Fold(indentLevel, None, elements), idx, trimmedLine)
  {
    level := indentLevel;
    var currentIndent := indentLevel;
    if StartsClosing(trimmedLine) {
      level := SatDec(level);
    }
    var row := RowElement(v, idx, trimmedLine, currentIndent, collapsed, collapseCounts, isNumeric);
    var isCollapsible := EndsOpening(trimmedLine) && idx != 0;
    var isCollapsed := idx in collapsed;
    rows := elements + [row];
    skipDepth := None;
    if isCollapsible && isCollapsed {
      skipDepth := Some(currentIndent);
      if EndsOpening(trimmedLine) {
        level := level + 1;
      }
    } else if EndsOpening(trimmedLine) {
      level := level + 1;
    }
  }

  /** The row element of a shown line (lines 102-237 of the renderer, without
      the widgets). */
  method RowElement(ghost v: View, idx: nat, trimmedLine: string, currentIndent: nat,
                    collapsed: set<nat>, collapseCounts: map<nat, nat>, isNumeric: string -> bool)
    returns (row: RenderLine)
    requires Serves(v, collapsed, collapseCounts, isNumeric)
    ensures row == Row(v, idx, trimmedLine, currentIndent)
  {
    var isCollapsible := EndsOpening(trimmedLine) && idx != 0;
    var isCollapsed := idx in collapsed;
    var tokens := [];
    if !(isCollapsed && isCollapsible && trimmedLine == []) {
      tokens := Tokenize(trimmedLine);
    }
    var marker := None;
    if isCollapsible && isCollapsed {
      var count := if idx in collapseCounts then collapseCounts[idx] else 0;
      var closingChar := if EndsWithBrace(trimmedLine) then '}' else ']';
      marker := Some(Marker(count, closingChar, ColorForToken([closingChar], false, false, isNumeric)));
    }
    var toggle := if isCollapsible then Caret(isCollapsed) else Spacer;
    row := RenderLine(idx, toggle, currentIndent, Paint(tokens, isNumeric), marker);
  }

  /** The rows are in source order, one per shown line at most, each indented
      by the level its line has in the document. */
  lemma HighlightRows(lines: seq<string>, collapsed: set<nat>, isNumeric: string -> bool)
    ensures var rows := Highlight(lines, collapsed, isNumeric);
      && |rows| <= |lines|
      && (forall i :: 0 <= i < |rows| ==> rows[i].line < |lines| && rows[i].indent == Depth(TrimAll(lines), rows[i].line))
      && (forall i, j :: 0 <= i < j < |rows| ==> rows[i].line < rows[j].line)
  {
    var v := ViewOf(lines, collapsed, isNumeric);
    assert Highlight(lines, collapsed, isNumeric) == FoldPrefix(v, |v.ts|).rows;
    FoldRows(v);
  }

  /** `HighlightRows` for any view. */
  lemma FoldRows(v: View)
    ensures |FoldPrefix(v, |v.ts|).rows| <= |v.ts|
    ensures forall i :: 0 <= i < |FoldPrefix(v, |v.ts|).rows| ==>
      FoldPrefix(v, |v.ts|).rows[i].line < |v.ts|
      && FoldPrefix(v, |v.ts|).rows[i].indent == Depth(v.ts, FoldPrefix(v, |v.ts|).rows[i].line)
    ensures forall i, j :: 0 <= i < j < |FoldPrefix(v, |v.ts|).rows| ==>
      FoldPrefix(v, |v.ts|).rows[i].line < FoldPrefix(v, |v.ts|).rows[j].line
  {
    var vis := VisibleUpTo(v, |v.ts|);
    RenderMatchesReference(v, |v.ts|);
    RowsForShape(v, vis);
  }

  // ---------------------------------------------------------------------------
  // The reference: which lines are shown, and what each shows

  /** A line the user collapsed that can collapse. */
  predicate Anchor(v: View, s: nat) {
    0 < s < |v.ts| && s in v.collapsed && EndsOpening(v.ts[s])
  }

  /** The level has stayed strictly above line `s`'s level on every line after
      `s` up to and including `j`. */
  ghost predicate HeldThrough(v: View, s: nat, j: nat)
    requires s <= j <= |v.ts|
  {
    forall k :: s < k <= j ==> Depth(v.ts, k) > Depth(v.ts, s)
  }

  /** Line `j` is suppressed: it lies after a collapsed opener and the level has
      stayed above that opener's level ever since. */
  ghost predicate Hidden(v: View, j: nat)
    requires j <= |v.ts|
  {
    exists s: nat :: s < j && Anchor(v, s) && HeldThrough(v, s, j)
  }

  /** The indices of the lines among the first `n` that are shown, in order. */
  ghost function VisibleUpTo(v: View, n: nat): (vis: seq<nat>)
    requires n <= |v.ts|
    ensures |vis| <= n
    ensures forall i :: 0 <= i < |vis| ==> vis[i] < n
    ensures forall i, j :: 0 <= i < j < |vis| ==> vis[i] < vis[j]
    decreases n
  {
    if n == 0 then []
    else VisibleUpTo(v, n - 1) + (if Hidden(v, n - 1) then [] else [n - 1])
  }

  /** Line `j` shown at the level it has in the document. */
  function RowFor(v: View, j: nat): RenderLine
    requires j < |v.ts|
  {
    Row(v, j, v.ts[j], Depth(v.ts, j))
  }

  /** The rows of the given lines, in order. */
  function RowsFor(v: View, lines: seq<nat>): seq<RenderLine>
    requires forall i :: 0 <= i < |lines| ==> lines[i] < |v.ts|
  {
    if lines == [] then []
    else RowsFor(v, lines[..|lines| - 1]) + [RowFor(v, lines[|lines| - 1])]
  }

  /** A line is listed exactly when the reference does not hide it. */
  lemma {:induction false} VisibleIffNotHidden(v: View, n: nat)
    requires n <= |v.ts|
    ensures forall j: nat :: j < n ==> (j in VisibleUpTo(v, n) <==> !Hidden(v, j))
    decreases n
  {
    if n > 0 {
      VisibleIffNotHidden(v, n - 1);
    }
  }

  /** Each row of `RowsFor` is the reference row of its line. */
  lemma {:induction false} RowsForLines(v: View, lines: seq<nat>)
    requires forall i :: 0 <= i < |lines| ==> lines[i] < |v.ts|
    ensures |RowsFor(v, lines)| == |lines|
    ensures forall i :: 0 <= i < |lines| ==> RowsFor(v, lines)[i] == RowFor(v, lines[i])
    decreases |lines|
  {
    if lines != [] {
      var init := lines[..|lines| - 1];
      var last := RowFor(v, lines[|lines| - 1]);
      RowsForLines(v, init);
      assert RowsFor(v, lines) == RowsFor(v, init) + [last];
      forall i | 0 <= i < |lines|
        ensures RowsFor(v, lines)[i] == RowFor(v, lines[i])
      {
        if i < |init| {
          assert init[i] == lines[i];
        }
      }
    }
  }

  /** Each row of `RowsFor` names its line and carries that line's level. */
  lemma RowsForShape(v: View, lines: seq<nat>)
    requires forall i :: 0 <= i < |lines| ==> lines[i] < |v.ts|
    ensures |RowsFor(v, lines)| == |lines|
    ensures forall i :: 0 <= i < |lines| ==>
      RowsFor(v, lines)[i].line == lines[i] && RowsFor(v, lines)[i].indent == Depth(v.ts, lines[i])
  {
    RowsForLines(v, lines);
    forall i | 0 <= i < |lines|
      ensures RowsFor(v, lines)[i].line == lines[i] && RowsFor(v, lines)[i].indent == Depth(v.ts, lines[i])
    {
      assert RowsFor(v, lines)[i] == RowFor(v, lines[i]);
    }
  }

  /** What the renderer's `skip_depth` means after `n` lines: when set, it is
      the level of a shown collapsed opener that the level has stayed above
      since; when unset, the previous line was shown and is not a collapsed
      opener. */
  ghost predicate SkipMeans(v: View, n: nat, skip: Option<nat>)
    requires n <= |v.ts|
  {
    match skip
    case Some(d) =>
      exists s: nat :: s < n && Anchor(v, s) && !Hidden(v, s) && d == Depth(v.ts, s) && HeldThrough(v, s, n - 1)
    case None =>
      n == 0 || (!Hidden(v, n - 1) && !Anchor(v, n - 1))
  }

  /** With `skip_depth` unset, line `n` is shown. */
  lemma NoSkipShows(v: View, n: nat)
    requires n < |v.ts| && SkipMeans(v, n, None)
    ensures !Hidden(v, n)
  {
  }

  /** With `skip_depth` set to `d`, a line above level `d` is hidden. */
  lemma SkipHides(v: View, n: nat, d: nat)
    requires n < |v.ts| && SkipMeans(v, n, Some(d)) && Depth(v.ts, n) > d
    ensures Hidden(v, n)
  {
    var s: nat :| s < n && Anchor(v, s) && !Hidden(v, s) && d == Depth(v.ts, s) && HeldThrough(v, s, n - 1);
    forall k | s < k <= n
      ensures Depth(v.ts, k) > Depth(v.ts, s)
    {
      if k < n {
        assert HeldThrough(v, s, n - 1);
      }
    }
    assert HeldThrough(v, s, n);
  }

  /** With `skip_depth` set to `d`, a hidden line is above level `d`. */
  lemma HiddenAboveSkip(v: View, n: nat, d: nat)
    requires n < |v.ts| && SkipMeans(v, n, Some(d)) && Hidden(v, n)
    ensures Depth(v.ts, n) > d
  {
    var s: nat :| s < n && Anchor(v, s) && !Hidden(v, s) && d == Depth(v.ts, s) && HeldThrough(v, s, n - 1);
    var s': nat :| s' < n && Anchor(v, s') && HeldThrough(v, s', n);
    if s < s' {
      assert Depth(v.ts, s') > Depth(v.ts, s);
    }
  }

  /** With `skip_depth` set to `d`, line `n` is hidden exactly when its level is
      above `d`. */
  lemma SkipHidesAbove(v: View, n: nat, d: nat)
    requires n < |v.ts| && SkipMeans(v, n, Some(d))
    ensures Depth(v.ts, n) > d <==> Hidden(v, n)
  {
    if Depth(v.ts, n) > d {
      SkipHides(v, n, d);
    }
    if Hidden(v, n) {
      HiddenAboveSkip(v, n, d);
    }
  }

  /** Under `SkipMeans`, the renderer suppresses line `n` exactly when the
      reference hides it. */
  lemma SkipDecidesHidden(v: View, n: nat, skip: Option<nat>)
    requires n < |v.ts| && SkipMeans(v, n, skip)
    ensures (skip.Some? && Depth(v.ts, n) > skip.value) <==> Hidden(v, n)
  {
    match skip
    case None => NoSkipShows(v, n);
    case Some(d) => SkipHidesAbove(v, n, d);
  }

  /** A suppressed line leaves the rows alone and keeps `skip_depth`. */
  lemma FoldHiddenLine(v: View, n: nat, f: Fold)
    requires n < |v.ts| && f.level == Depth(v.ts, n) && SkipMeans(v, n, f.skip) && Hidden(v, n)
    requires f.skip.Some? && f.level > f.skip.value
    ensures SkipMeans(v, n + 1, f.skip)
  {
    var s: nat :| s < n && Anchor(v, s) && !Hidden(v, s) && f.skip.value == Depth(v.ts, s) && HeldThrough(v, s, n - 1);
    assert HeldThrough(v, s, n);
  }

  /** A shown line sets `skip_depth` exactly when it is a collapsed opener. */
  lemma FoldShownLine(v: View, n: nat, f: Fold)
    requires n < |v.ts| && !Hidden(v, n) && f.level == Depth(v.ts, n)
    ensures SkipMeans(v, n + 1, FoldLine(v, f, n, v.ts[n]).skip) || (f.skip.Some? && f.level > f.skip.value)
  {
    if Anchor(v, n) {
      assert HeldThrough(v, n, n);
    }
  }

  /** The renderer's state after `n` lines agrees with the reference: its level
      is the document's level, its rows are the reference rows of exactly the
      lines the reference shows, and `skip_depth` means what `SkipMeans` says. */
  ghost predicate Agrees(v: View, n: nat, f: Fold)
    requires n <= |v.ts|
  {
    f.level == Depth(v.ts, n) && f.rows == RowsFor(v, VisibleUpTo(v, n)) && SkipMeans(v, n, f.skip)
  }

  /** One line of the renderer agrees with the reference. */
  lemma FoldLineMatches(v: View, n: nat)
    requires n < |v.ts| && Agrees(v, n, FoldPrefix(v, n))
    ensures Agrees(v, n + 1, FoldPrefix(v, n + 1))
  {
    var f := FoldPrefix(v, n);
    assert FoldPrefix(v, n + 1) == FoldLine(v, f, n, v.ts[n]);
    if Hidden(v, n) {
      HiddenLineAgrees(v, n, f);
    } else {
      ShownLineAgrees(v, n, f);
    }
  }

  /** A hidden line adds no row and keeps the skip. */
  lemma HiddenLineAgrees(v: View, n: nat, f: Fold)
    requires n < |v.ts| && Agrees(v, n, f) && Hidden(v, n)
    ensures Agrees(v, n + 1, FoldLine(v, f, n, v.ts[n]))
  {
    var g := FoldLine(v, f, n, v.ts[n]);
    SkipDecidesHidden(v, n, f.skip);
    assert g.level == Depth(v.ts, n + 1);
    assert VisibleUpTo(v, n + 1) == VisibleUpTo(v, n);
    FoldHiddenLine(v, n, f);
  }

  /** A shown line adds its reference row. */
  lemma ShownLineAgrees(v: View, n: nat, f: Fold)
    requires n < |v.ts| && Agrees(v, n, f) && !Hidden(v, n)
    ensures Agrees(v, n + 1, FoldLine(v, f, n, v.ts[n]))
  {
    var g := FoldLine(v, f, n, v.ts[n]);
    SkipDecidesHidden(v, n, f.skip);
    assert g.level == Depth(v.ts, n + 1);
    var vis := VisibleUpTo(v, n + 1);
    assert vis == VisibleUpTo(v, n) + [n];
    assert vis[..|vis| - 1] == VisibleUpTo(v, n);
    assert g.rows == f.rows + [RowFor(v, n)];
    FoldShownLine(v, n, f);
  }


  /** The renderer agrees with the reference after every prefix of the
      document; in particular its level never depends on what is collapsed. */
  lemma {:induction false} RenderMatchesReference(v: View, n: nat)
    requires n <= |v.ts|
    ensures Agrees(v, n, FoldPrefix(v, n))
    decreases n
  {
    if n > 0 {
      RenderMatchesReference(v, n - 1);
      FoldLineMatches(v, n - 1);
    }
  }

  // ---------------------------------------------------------------------------
  // Consequences for the rendered document

  /** Some row of `rows` renders line `j`. */
  predicate HasRow(rows: seq<RenderLine>, j: nat) {
    exists i :: 0 <= i < |rows| && rows[i].line == j
  }

  /** Line `j` has a row among the rows of `lines` exactly when it is listed. */
  lemma ListedAt(v: View, lines: seq<nat>, j: nat)
    requires forall i :: 0 <= i < |lines| ==> lines[i] < |v.ts|
    ensures HasRow(RowsFor(v, lines), j) <==> j in lines
  {
    RowsForShape(v, lines);
    if j in lines {
      var i :| 0 <= i < |lines| && lines[i] == j;
      assert RowsFor(v, lines)[i].line == j;
    }
  }

  /** A line has a reference row exactly when the reference does not hide it. */
  lemma ListedIffShown(v: View, n: nat)
    requires n <= |v.ts|
    ensures forall j :: 0 <= j < n ==> (HasRow(RowsFor(v, VisibleUpTo(v, n)), j) <==> !Hidden(v, j))
  {
    var vis := VisibleUpTo(v, n);
    VisibleIffNotHidden(v, n);
    forall j | 0 <= j < n
      ensures HasRow(RowsFor(v, vis), j) <==> !Hidden(v, j)
    {
      ListedAt(v, vis, j);
    }
  }

  /** A line gets a row exactly when the reference does not hide it. */
  lemma RenderedIffShown(v: View)
    ensures forall j :: 0 <= j < |v.ts| ==> (HasRow(FoldPrefix(v, |v.ts|).rows, j) <==> !Hidden(v, j))
  {
    RenderMatchesReference(v, |v.ts|);
    ListedIffShown(v, |v.ts|);
  }

  /** The row a shown line gets is its reference row. */
  lemma ShownRowIsReference(v: View, j: nat)
    requires j < |v.ts| && !Hidden(v, j)
    ensures exists i :: 0 <= i < |FoldPrefix(v, |v.ts|).rows| && FoldPrefix(v, |v.ts|).rows[i] == RowFor(v, j)
  {
    var vis := VisibleUpTo(v, |v.ts|);
    RenderMatchesReference(v, |v.ts|);
    RowsForLines(v, vis);
    VisibleIffNotHidden(v, |v.ts|);
    assert j in vis;
    var i :| 0 <= i < |vis| && vis[i] == j;
    assert FoldPrefix(v, |v.ts|).rows[i] == RowFor(v, j);
  }

  /** No line that can collapse is in the collapsed set. */
  predicate NoOpenerCollapsed(ts: seq<string>, collapsed: set<nat>) {
    forall s :: s in collapsed ==> !Opens(ts, s)
  }

  /** With no opener collapsed no line is hidden: every line is listed, in
      order. */
  lemma {:induction false} NoOpenerCollapsedListsAll(v: View, n: nat)
    requires NoOpenerCollapsed(v.ts, v.collapsed) && n <= |v.ts|
    ensures |VisibleUpTo(v, n)| == n
    ensures forall i :: 0 <= i < n ==> VisibleUpTo(v, n)[i] == i
    decreases n
  {
    if n > 0 {
      NoOpenerCollapsedListsAll(v, n - 1);
      assert forall s: nat :: !Anchor(v, s);
      assert !Hidden(v, n - 1);
    }
  }

  /** The reference row of a line when no opener is collapsed. */
  lemma NoOpenerRow(v: View, i: nat)
    requires NoOpenerCollapsed(v.ts, v.collapsed) && i < |v.ts|
    ensures RowFor(v, i).line == i && RowFor(v, i).indent == Depth(v.ts, i)
    ensures RowFor(v, i).toggle == (if Opens(v.ts, i) then Caret(false) else Spacer)
    ensures RowFor(v, i).marker == None
  {
    assert Opens(v.ts, i) ==> i !in v.collapsed;
  }

  /** Row `r` shows line `i` expanded: at the line's level, with a down caret
      exactly when the line can collapse, and no marker. */
  predicate PlainRow(ts: seq<string>, i: nat, r: RenderLine)
    requires i < |ts|
  {
    && r.line == i
    && r.indent == Depth(ts, i)
    && r.toggle == (if Opens(ts, i) then Caret(false) else Spacer)
    && r.marker == None
  }

  /** With no opener collapsed the fold lists every line, in order, each as
      a `PlainRow`. */
  lemma NoOpenerRows(v: View)
    requires NoOpenerCollapsed(v.ts, v.collapsed)
    ensures var rows := FoldPrefix(v, |v.ts|).rows;
      && |rows| == |v.ts|
      && forall i :: 0 <= i < |rows| ==> PlainRow(v.ts, i, rows[i])
  {
    var vis := VisibleUpTo(v, |v.ts|);
    var rows := FoldPrefix(v, |v.ts|).rows;
    RenderMatchesReference(v, |v.ts|);
    NoOpenerCollapsedListsAll(v, |v.ts|);
    RowsForLines(v, vis);
    forall i | 0 <= i < |rows|
      ensures PlainRow(v.ts, i, rows[i])
    {
      assert rows[i] == RowFor(v, i);
      NoOpenerRow(v, i);
    }
  }

  /** With no opener collapsed, line `i` of the document is row `i`: at its
      level, with a down caret exactly on the lines that can collapse, and no
      marker. */
  lemma NoOpenerCollapsedShowsEveryLine(lines: seq<string>, collapsed: set<nat>, isNumeric: string -> bool)
    requires NoOpenerCollapsed(TrimAll(lines), collapsed)
    ensures var rows := Highlight(lines, collapsed, isNumeric);
      && |rows| == |lines|
      && forall i :: 0 <= i < |rows| ==> PlainRow(TrimAll(lines), i, rows[i])
  {
    var v := ViewOf(lines, collapsed, isNumeric);
    assert v.ts == TrimAll(lines);
    NoOpenerRows(v);
    assert Highlight(lines, collapsed, isNumeric) == FoldPrefix(v, |v.ts|).rows;
  }

  /** The level after each line is the nesting depth of the document up to
      it, whichever lines are collapsed: hidden and shown lines move the level
      by the same rule. */
  lemma LevelIgnoresCollapsed(lines: seq<string>, collapsed: set<nat>, isNumeric: string -> bool, n: nat)
    requires n <= |lines|
    ensures FoldPrefix(ViewOf(lines, collapsed, isNumeric), n).level == Depth(TrimAll(lines), n)
  {
    RenderMatchesReference(ViewOf(lines, collapsed, isNumeric), n);
  }

  /** Collapsing never moves a row: every row has the indent its line has when
      nothing is collapsed. */
  lemma CollapsingKeepsIndent(lines: seq<string>, collapsed: set<nat>, isNumeric: string -> bool)
    ensures var rows := Highlight(lines, collapsed, isNumeric);
      var all := Highlight(lines, {}, isNumeric);
      forall i :: 0 <= i < |rows| ==> rows[i].line < |all| && rows[i].indent == all[rows[i].line].indent
  {
    HighlightRows(lines, collapsed, isNumeric);
    NoOpenerCollapsedShowsEveryLine(lines, {}, isNumeric);
  }

  /** On well-nested lines, collapsing the single opener `s` whose block first
      closes on line `e` hides exactly lines `s + 1` through `e`. */
  lemma CollapsedBlockHidden(v: View, s: nat, e: nat)
    requires WellNested(v.ts) && v.collapsed == {s} && Anchor(v, s) && FirstCloseAt(v.ts, s, e)
    ensures forall j :: 0 <= j < |v.ts| ==> (Hidden(v, j) <==> s < j <= e)
  {
    BlockHidden(v, s, e);
    forall j | 0 <= j < |v.ts| && e < j
      ensures !Hidden(v, j)
    {
      CloseRestoresDepth(v.ts, s, e);
      forall s': nat | s' < j && Anchor(v, s')
        ensures !HeldThrough(v, s', j)
      {
        assert s' == s;
        assert Depth(v.ts, e + 1) == Depth(v.ts, s);
      }
    }
  }

  /** On well-nested lines a collapsed opener hides every line after it up to
      and including its first closer, whatever else is collapsed. */
  lemma BlockHidden(v: View, s: nat, e: nat)
    requires WellNested(v.ts) && Anchor(v, s) && FirstCloseAt(v.ts, s, e)
    ensures forall j :: s < j <= e ==> Hidden(v, j)
  {
    forall j | s < j <= e
      ensures Hidden(v, j)
    {
      forall k | s < k <= j
        ensures Depth(v.ts, k) > Depth(v.ts, s)
      {
        DepthAboveUntilClose(v.ts, s, e, k);
      }
      assert HeldThrough(v, s, j);
    }
  }

  /** A block has one first closer. */
  lemma FirstCloseUnique(ts: seq<string>, k: nat, e: nat, e': nat)
    requires FirstCloseAt(ts, k, e) && FirstCloseAt(ts, k, e')
    ensures e == e'
  {
  }

  /** On well-nested lines the row of a collapsed opener carries an up caret
      and a marker counting the lines strictly between it and its first
      closer, standing in for that closer with the matching bracket. */
  lemma CollapsedMarkerCount(v: View, s: nat, e: nat)
    requires WellNested(v.ts) && v.counts == CollapseCounts(v.ts) && Anchor(v, s) && FirstCloseAt(v.ts, s, e)
    ensures RowFor(v, s).toggle == Caret(true)
    ensures RowFor(v, s).marker.Some? && RowFor(v, s).marker.value.count == e - s - 1
    ensures RowFor(v, s).marker.value.closing == if v.ts[s][|v.ts[s]| - 1] == '{' then '}' else ']'
  {
    CollapseCountsMatchBlocks(v.ts);
    assert Opens(v.ts, s) && ClosesAt(v.ts, s, e);
    assert s in v.counts;
    FirstCloseUnique(v.ts, s, e, s + v.counts[s] + 1);
  }

  /** On well-nested lines, collapsing the single opener `s` whose block first
      closes on line `e` leaves a row for every line except `s + 1` through
      `e`, and the row of `s` carries an up caret and a marker counting the
      `e - s - 1` lines between the opener and its closer, closed by the
      bracket matching the one the opener ends with. */
  lemma CollapsingOneBlock(lines: seq<string>, s: nat, e: nat, isNumeric: string -> bool)
    requires WellNested(TrimAll(lines)) && Opens(TrimAll(lines), s) && FirstCloseAt(TrimAll(lines), s, e)
    ensures var rows := Highlight(lines, {s}, isNumeric);
      && (forall j :: 0 <= j < |lines| ==> (HasRow(rows, j) <==> !(s < j <= e)))
      && exists i :: 0 <= i < |rows| && rows[i].line == s && rows[i].toggle == Caret(true)
           && rows[i].marker.Some? && rows[i].marker.value.count == e - s - 1
           && rows[i].marker.value.closing == if TrimAll(lines)[s][|TrimAll(lines)[s]| - 1] == '{' then '}' else ']'
  {
    var v := ViewOf(lines, {s}, isNumeric);
    assert v.ts == TrimAll(lines) && Anchor(v, s);
    OneBlockRows(v, s, e);
    assert Highlight(lines, {s}, isNumeric) == FoldPrefix(v, |v.ts|).rows;
  }

  /** `CollapsingOneBlock` for the fold over a view. */
  lemma OneBlockRows(v: View, s: nat, e: nat)
    requires WellNested(v.ts) && v.counts == CollapseCounts(v.ts) && v.collapsed == {s}
    requires Anchor(v, s) && FirstCloseAt(v.ts, s, e)
    ensures var rows := FoldPrefix(v, |v.ts|).rows;
      && (forall j :: 0 <= j < |v.ts| ==> (HasRow(rows, j) <==> !(s < j <= e)))
      && exists i :: 0 <= i < |rows| && rows[i].line == s && rows[i].toggle == Caret(true)
           && rows[i].marker.Some? && rows[i].marker.value.count == e - s - 1
           && rows[i].marker.value.closing == if v.ts[s][|v.ts[s]| - 1] == '{' then '}' else ']'
  {
    CollapsedBlockHidden(v, s, e);
    RenderedIffShown(v);
    ShownRowIsReference(v, s);
    CollapsedMarkerCount(v, s, e);
  }

  /** On well-nested lines, with any set of lines collapsed, a collapsed
      opener `s` whose block first closes on line `e` leaves no row for lines
      `s + 1` through `e`; if `s` itself has a row (no enclosing collapsed
      block hides it), that row carries an up caret and a marker counting the
      `e - s - 1` lines between, closed by the matching bracket. */
  lemma CollapsingHidesBlock(lines: seq<string>, collapsed: set<nat>, s: nat, e: nat, isNumeric: string -> bool)
    requires WellNested(TrimAll(lines)) && s in collapsed && Opens(TrimAll(lines), s)
    requires FirstCloseAt(TrimAll(lines), s, e)
    ensures var rows := Highlight(lines, collapsed, isNumeric);
      && (forall j :: s < j <= e ==> !HasRow(rows, j))
      && forall i :: 0 <= i < |rows| && rows[i].line == s ==>
           && rows[i].toggle == Caret(true)
           && rows[i].marker.Some? && rows[i].marker.value.count == e - s - 1
           && rows[i].marker.value.closing == if TrimAll(lines)[s][|TrimAll(lines)[s]| - 1] == '{' then '}' else ']'
  {
    var v := ViewOf(lines, collapsed, isNumeric);
    assert v.ts == TrimAll(lines) && Anchor(v, s);
    BlockRows(v, s, e);
    assert Highlight(lines, collapsed, isNumeric) == FoldPrefix(v, |v.ts|).rows;
  }

  /** `CollapsingHidesBlock` for the fold over a view. */
  lemma BlockRows(v: View, s: nat, e: nat)
    requires WellNested(v.ts) && v.counts == CollapseCounts(v.ts) && Anchor(v, s) && FirstCloseAt(v.ts, s, e)
    ensures var rows := FoldPrefix(v, |v.ts|).rows;
      && (forall j :: s < j <= e ==> !HasRow(rows, j))
      && forall i :: 0 <= i < |rows| && rows[i].line == s ==>
           && rows[i].toggle == Caret(true)
           && rows[i].marker.Some? && rows[i].marker.value.count == e - s - 1
           && rows[i].marker.value.closing == if v.ts[s][|v.ts[s]| - 1] == '{' then '}' else ']'
  {
    BlockHidden(v, s, e);
    RenderedIffShown(v);
    FoldRowsAreReference(v);
    CollapsedMarkerCount(v, s, e);
  }

  /** Every rendered row is the reference row of the line it names. */
  lemma FoldRowsAreReference(v: View)
    ensures var rows := FoldPrefix(v, |v.ts|).rows;
      forall i :: 0 <= i < |rows| ==> rows[i].line < |v.ts| && rows[i] == RowFor(v, rows[i].line)
  {
    var rows := FoldPrefix(v, |v.ts|).rows;
    var vis := VisibleUpTo(v, |v.ts|);
    RenderMatchesReference(v, |v.ts|);
    RowsForLines(v, vis);
    forall i | 0 <= i < |rows|
      ensures rows[i].line < |v.ts| && rows[i] == RowFor(v, rows[i].line)
    {
      assert rows[i] == RowFor(v, vis[i]);
    }
  }

  /** Lines that only close leave the level at zero throughout. */
  lemma {:induction false} ClosersStayAtZero(ts: seq<string>, n: nat)
    requires n <= |ts|
    requires forall k :: 0 <= k < |ts| ==> StartsClosing(ts[k]) && !EndsOpening(ts[k])
    ensures Depth(ts, n) == 0
    decreases n
  {
    if n > 0 {
      ClosersStayAtZero(ts, n - 1);
    }
  }

  /** Stray closers cannot push the level below zero: a document of `}`
      lines renders one row per line, all at level 0. */
  lemma ExtraClosersStayAtLevelZero(lines: seq<string>, isNumeric: string -> bool)
    requires forall k :: 0 <= k < |lines| ==> lines[k] == "}"
    ensures var rows := Highlight(lines, {}, isNumeric);
      |rows| == |lines| && forall i :: 0 <= i < |rows| ==> rows[i].line == i && rows[i].indent == 0
  {
    BraceLinesOnlyClose(lines);
    ClosersRenderFlat(lines, isNumeric);
  }

  /** A document whose every line only closes renders one row per line, all
      at level 0. */
  lemma ClosersRenderFlat(lines: seq<string>, isNumeric: string -> bool)
    requires forall k :: 0 <= k < |lines| ==> StartsClosing(TrimAll(lines)[k]) && !EndsOpening(TrimAll(lines)[k])
    ensures var rows := Highlight(lines, {}, isNumeric);
      |rows| == |lines| && forall i :: 0 <= i < |rows| ==> rows[i].line == i && rows[i].indent == 0
  {
    var ts := TrimAll(lines);
    NoOpenerCollapsedShowsEveryLine(lines, {}, isNumeric);
    forall i | 0 <= i < |ts|
      ensures Depth(ts, i) == 0
    {
      ClosersStayAtZero(ts, i);
    }
  }
}

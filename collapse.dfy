/** The block matcher (`calculate_collapse_counts`): one pass over the lines
    that tracks the indentation level and a stack of open blocks, and records
    for every block-opening line how many lines lie between it and the line
    that closes it. Blocks are matched by indentation level, not by bracket
    kind. Apart from the method, everything here is stated over the document's
    lines already trimmed (`ts`). */
module Collapse {
  import opened Text

  /** The level after a line whose trimmed text is `t`: a leading closer first
      lowers it (saturating at 0), a trailing opener then raises it. */
  function NextLevel(level: nat, t: string): nat {
    var afterClose := if StartsClosing(t) then SatDec(level) else level;
    if EndsOpening(t) then afterClose + 1 else afterClose
  }

  /** The indentation level in force when line `i` is reached. */
  function Depth(ts: seq<string>, i: nat): nat
    requires i <= |ts|
    decreases i
  {
    if i == 0 then 0 else NextLevel(Depth(ts, i - 1), ts[i - 1])
  }

  /** A line that can start a collapsible block: not the first line, and its
      trimmed text ends with `{` or `[`. */
  predicate Opens(ts: seq<string>, k: nat) {
    0 < k < |ts| && EndsOpening(ts[k])
  }

  /** Line `e` closes back to the level in force before line `k`: it starts
      with `}` or `]` and the level after its decrement is that level. */
  predicate ClosesAt(ts: seq<string>, k: nat, e: nat) {
    k < e < |ts| && StartsClosing(ts[e]) && SatDec(Depth(ts, e)) == Depth(ts, k)
  }

  /** `e` is the first line after `k` that closes back to `k`'s level. */
  predicate FirstCloseAt(ts: seq<string>, k: nat, e: nat) {
    ClosesAt(ts, k, e) && forall j :: k < j < e ==> !ClosesAt(ts, k, j)
  }

  /** No line both starts with a closer and ends with an opener (such as `}, {`),
      as in the output of a pretty-printer. */
  predicate WellNested(ts: seq<string>) {
    forall i :: 0 <= i < |ts| ==> !(StartsClosing(ts[i]) && EndsOpening(ts[i]))
  }

  // ---------------------------------------------------------------------------
  // The matcher as a fold over the trimmed lines

  /** An entry of `block_starts`: an opening line and the level before it. */
  datatype Opener = Opener(line: nat, indent: nat)

  /** The loop state: `indent_level`, `block_starts` and `collapse_counts`. */
  datatype Matcher = Matcher(level: nat, stack: seq<Opener>, counts: map<nat, nat>)

  /** On a closing line (level already lowered): pop the top entry if it was
      opened at this level, and record its hidden-line count. */
  function CloseBlock(m: Matcher, idx: nat): Matcher {
    if |m.stack| > 0 && m.stack[|m.stack| - 1].indent == m.level then
      var start := m.stack[|m.stack| - 1].line;
      Matcher(m.level, m.stack[..|m.stack| - 1], m.counts[start := SatSub(SatSub(idx, start), 1)])
    else
      m
  }

  /** One iteration of the matcher's loop on line `idx` with trimmed text `t`. */
  function MatchLine(m: Matcher, idx: nat, t: string): Matcher {
    var indentBefore := m.level;
    var closed := if StartsClosing(t) then CloseBlock(m.(level := SatDec(m.level)), idx) else m;
    var pushed :=
      if EndsOpening(t) && idx != 0 then closed.(stack := closed.stack + [Opener(idx, indentBefore)])
      else closed;
    if EndsOpening(t) then pushed.(level := pushed.level + 1) else pushed
  }

  /** The matcher's state after the first `n` lines. */
  function MatchPrefix(ts: seq<string>, n: nat): Matcher
    requires n <= |ts|
    decreases n
  {
    if n == 0 then Matcher(0, [], map[])
    else MatchLine(MatchPrefix(ts, n - 1), n - 1, ts[n - 1])
  }

  /** The map `calculate_collapse_counts` returns. */
  function CollapseCounts(ts: seq<string>): map<nat, nat> {
    MatchPrefix(ts, |ts|).counts
  }

  /** `calculate_collapse_counts` over the raw lines: every key is an opening
      line and its count is the number of lines strictly between it and a line
      that closes back to its level. */
  method CalculateCollapseCounts(lines: seq<string>) returns (collapseCounts: map<nat, nat>)
    ensures collapseCounts == CollapseCounts(TrimAll(lines))
    ensures forall k :: k in collapseCounts ==>
      Opens(TrimAll(lines), k) && ClosesAt(TrimAll(lines), k, k + collapseCounts[k] + 1)
  {
    ghost var ts := TrimAll(lines);
    collapseCounts := map[];
    var indentLevel: nat := 0;
    var blockStarts: seq<Opener> := [];
    var idx := 0;
    while idx < |lines|
      invariant 0 <= idx <= |lines|
      invariant Matcher(indentLevel, blockStarts, collapseCounts) == MatchPrefix(ts, idx)
    {
      var trimmed := Trim(lines[idx]);
      MatchPrefixStep(ts, idx);
      indentLevel, blockStarts, collapseCounts := MatchOneLine(idx, trimmed, indentLevel, blockStarts, collapseCounts);
      idx := idx + 1;
    }
    CollapseCountsSound(ts);
  }

  /** One more line folds in as `MatchLine`. */
  lemma MatchPrefixStep(ts: seq<string>, idx: nat)
    requires idx < |ts|
    ensures MatchPrefix(ts, idx + 1) == MatchLine(MatchPrefix(ts, idx), idx, ts[idx])
  {
  }

  /** The body of the matcher's loop on line `idx` with trimmed text `trimmed`. */
  method MatchOneLine(idx: nat, trimmed: string, indentLevel: nat, blockStarts: seq<Opener>, collapseCounts: map<nat, nat>)
    returns (level: nat, stack: seq<Opener>, counts: map<nat, nat>)
    ensures Matcher(level, stack, counts) == MatchLine(Matcher(indentLevel, blockStarts, collapseCounts), idx, trimmed)
  {
    level, stack, counts := indentLevel, blockStarts, collapseCounts;
    var startsClosing := StartsClosing(trimmed);
    var endsOpening := EndsOpening(trimmed);
    var indentBeforeLine := level;
    if startsClosing {
      level := SatDec(level);
      if |stack| > 0 && stack[|stack| - 1].indent == level {
        var poppedStartIdx := stack[|stack| - 1].line;
        stack := stack[..|stack| - 1];
        var lineCount := SatSub(SatSub(idx, poppedStartIdx), 1);
        counts := counts[poppedStartIdx := lineCount];
      }
    }
    if endsOpening && idx != 0 {
      stack := stack + [Opener(idx, indentBeforeLine)];
    }
    if endsOpening {
      level := level + 1;
    }
  }

  // ---------------------------------------------------------------------------
  // Soundness: every recorded count belongs to an opener and a closer at its level

  /** Every count among the first `n` lines belongs to an opener and a line
      that closes back to its level. */
  ghost predicate CountsSound(ts: seq<string>, counts: map<nat, nat>, n: nat) {
    forall k :: k in counts ==> k + counts[k] + 1 < n && Opens(ts, k) && ClosesAt(ts, k, k + counts[k] + 1)
  }

  /** The matcher's level is the document's, every stacked entry is an
      opener with the level before it, and every count is sound. */
  ghost predicate Sound(ts: seq<string>, n: nat, m: Matcher)
    requires n <= |ts|
  {
    m.level == Depth(ts, n) && StackSound(ts, m.stack, n) && CountsSound(ts, m.counts, n)
  }

  /** A closer that matches the top of the stack records a sound count. */
  lemma SoundPop(ts: seq<string>, n: nat, m: Matcher)
    requires n < |ts| && StartsClosing(ts[n]) && Sound(ts, n, m)
    requires |m.stack| > 0 && m.stack[|m.stack| - 1].indent == SatDec(m.level)
    ensures var c := CloseBlock(m.(level := SatDec(m.level)), n);
      StackSound(ts, c.stack, n + 1) && CountsSound(ts, c.counts, n + 1)
  {
    var start := m.stack[|m.stack| - 1].line;
    var c := CloseBlock(m.(level := SatDec(m.level)), n);
    assert c.counts == m.counts[start := n - start - 1];
    assert ClosesAt(ts, start, n);
    assert forall a :: 0 <= a < |c.stack| ==> c.stack[a] == m.stack[a];
  }

  /** The closing half of a line keeps the stack and the counts sound. */
  lemma SoundClose(ts: seq<string>, n: nat, m: Matcher)
    requires n < |ts| && Sound(ts, n, m)
    ensures var c := if StartsClosing(ts[n]) then CloseBlock(m.(level := SatDec(m.level)), n) else m;
      && StackSound(ts, c.stack, n + 1) && CountsSound(ts, c.counts, n + 1)
      && c.level == (if StartsClosing(ts[n]) then SatDec(m.level) else m.level)
  {
    if StartsClosing(ts[n]) && |m.stack| > 0 && m.stack[|m.stack| - 1].indent == SatDec(m.level) {
      SoundPop(ts, n, m);
    }
  }

  /** One line keeps the matcher sound. */
  lemma SoundStep(ts: seq<string>, n: nat, m: Matcher)
    requires n < |ts| && Sound(ts, n, m)
    ensures Sound(ts, n + 1, MatchLine(m, n, ts[n]))
  {
    var t := ts[n];
    var closed := if StartsClosing(t) then CloseBlock(m.(level := SatDec(m.level)), n) else m;
    SoundClose(ts, n, m);
    if EndsOpening(t) && n != 0 {
      var st := closed.stack + [Opener(n, m.level)];
      assert StackSound(ts, st, n + 1) by {
        forall a | 0 <= a < |st|
          ensures st[a].line < n + 1 && Opens(ts, st[a].line) && st[a].indent == Depth(ts, st[a].line)
        {
          if a < |closed.stack| {
            assert st[a] == closed.stack[a];
          }
        }
      }
    }
    assert Depth(ts, n + 1) == NextLevel(Depth(ts, n), t);
  }

  lemma {:induction false} MatchSound(ts: seq<string>, n: nat)
    requires n <= |ts|
    ensures Sound(ts, n, MatchPrefix(ts, n))
    decreases n
  {
    if n > 0 {
      MatchSound(ts, n - 1);
      SoundStep(ts, n - 1, MatchPrefix(ts, n - 1));
    }
  }

  /** Every key of the map is an opening line, and the line `count + 1` after it
      starts with a closer that brings the level back to the opener's. */
  lemma CollapseCountsSound(ts: seq<string>)
    ensures forall k :: k in CollapseCounts(ts) ==>
      Opens(ts, k) && ClosesAt(ts, k, k + CollapseCounts(ts)[k] + 1)
  {
    MatchSound(ts, |ts|);
  }

  // ---------------------------------------------------------------------------
  // Completeness on well-nested input

  /** The line indices of the openers still on the stack. */
  function StackLines(stack: seq<Opener>): set<nat> {
    set a | 0 <= a < |stack| :: stack[a].line
  }

  /** What `MatchSound` establishes about the stack. */
  ghost predicate StackSound(ts: seq<string>, stack: seq<Opener>, n: nat) {
    forall a :: 0 <= a < |stack| ==>
      stack[a].line < n && Opens(ts, stack[a].line) && stack[a].indent == Depth(ts, stack[a].line)
  }

  /** The stack's levels increase strictly towards the top. */
  ghost predicate Ascending(stack: seq<Opener>) {
    forall a, b :: 0 <= a < b < |stack| ==> stack[a].indent < stack[b].indent
  }

  /** Every stacked level is below the current level. */
  ghost predicate Below(stack: seq<Opener>, level: nat) {
    forall a :: 0 <= a < |stack| ==> stack[a].indent < level
  }

  /** Since each stacked opener, the level has stayed above its level. */
  ghost predicate Held(ts: seq<string>, n: nat, stack: seq<Opener>)
    requires n <= |ts|
  {
    forall a, j :: 0 <= a < |stack| && stack[a].line < j <= n ==> Depth(ts, j) > stack[a].indent
  }

  /** Every count places its closer at the first line closing back to the opener. */
  ghost predicate Firsts(ts: seq<string>, counts: map<nat, nat>) {
    forall k {:trigger counts[k]} :: k in counts ==> FirstCloseAt(ts, k, k + counts[k] + 1)
  }

  /** Every opener among the first `n` lines is counted or still stacked. */
  ghost predicate Tracked(ts: seq<string>, n: nat, m: Matcher)
    requires n <= |ts|
  {
    forall s {:trigger EndsOpening(ts[s])} :: 0 < s < n && EndsOpening(ts[s]) ==> s in m.counts || s in StackLines(m.stack)
  }

  /** The invariant of the matcher on well-nested input after `n` lines. */
  ghost predicate Complete(ts: seq<string>, n: nat, m: Matcher)
    requires n <= |ts|
  {
    Ascending(m.stack) && Below(m.stack, m.level) && Held(ts, n, m.stack) && Firsts(ts, m.counts) && Tracked(ts, n, m)
  }

  /** The top opener's first closer is the line that pops it. */
  lemma PopIsFirstClose(ts: seq<string>, n: nat, m: Matcher)
    requires WellNested(ts) && n < |ts| && StartsClosing(ts[n]) && m.level == Depth(ts, n)
    requires Held(ts, n, m.stack) && StackSound(ts, m.stack, n)
    requires |m.stack| > 0 && m.stack[|m.stack| - 1].indent == SatDec(m.level)
    ensures FirstCloseAt(ts, m.stack[|m.stack| - 1].line, n)
  {
    var top := m.stack[|m.stack| - 1];
    forall j | top.line < j < n
      ensures !ClosesAt(ts, top.line, j)
    {
      assert Depth(ts, j + 1) > top.indent;
      assert Depth(ts, j + 1) == NextLevel(Depth(ts, j), ts[j]);
      assert !(StartsClosing(ts[j]) && EndsOpening(ts[j]));
    }
  }

  /** Popping keeps the level held above the remaining openers on the closing line. */
  lemma PopHeld(ts: seq<string>, n: nat, m: Matcher)
    requires n < |ts| && m.level == Depth(ts, n) && Held(ts, n, m.stack) && Ascending(m.stack)
    requires |m.stack| > 0 && m.stack[|m.stack| - 1].indent == SatDec(m.level)
    requires Depth(ts, n + 1) == SatDec(m.level)
    ensures Held(ts, n + 1, m.stack[..|m.stack| - 1])
  {
    var rest := m.stack[..|m.stack| - 1];
    forall a, j | 0 <= a < |rest| && rest[a].line < j <= n + 1
      ensures Depth(ts, j) > rest[a].indent
    {
      assert rest[a] == m.stack[a];
      if j == n + 1 {
        assert m.stack[a].indent < m.stack[|m.stack| - 1].indent;
      }
    }
  }

  /** Popping keeps every opener counted or stacked. */
  lemma PopTracked(ts: seq<string>, n: nat, m: Matcher, m': Matcher, c: nat)
    requires n < |ts| && !EndsOpening(ts[n]) && Tracked(ts, n, m) && |m.stack| > 0
    requires m'.stack == m.stack[..|m.stack| - 1]
    requires m'.counts == m.counts[m.stack[|m.stack| - 1].line := c]
    ensures Tracked(ts, n + 1, m')
  {
    var top := m.stack[|m.stack| - 1];
    forall s | 0 < s < n + 1 && EndsOpening(ts[s])
      ensures s in m'.counts || s in StackLines(m'.stack)
    {
      assert s in m.counts || s in StackLines(m.stack);
      if s !in m.counts && s != top.line {
        var a :| 0 <= a < |m.stack| && m.stack[a].line == s;
        assert m'.stack[a].line == s;
      }
    }
  }

  /** A closer that matches the top of the stack pops it at its first closer. */
  lemma CompletePop(ts: seq<string>, n: nat, m: Matcher)
    requires WellNested(ts) && n < |ts| && StartsClosing(ts[n])
    requires Complete(ts, n, m) && StackSound(ts, m.stack, n) && m.level == Depth(ts, n)
    requires |m.stack| > 0 && m.stack[|m.stack| - 1].indent == SatDec(m.level)
    ensures Complete(ts, n + 1, MatchLine(m, n, ts[n]))
  {
    var top := m.stack[|m.stack| - 1];
    var rest := m.stack[..|m.stack| - 1];
    var m' := Matcher(SatDec(m.level), rest, m.counts[top.line := n - top.line - 1]);
    assert MatchLine(m, n, ts[n]) == m';
    assert Depth(ts, n + 1) == SatDec(m.level) by {
      assert Depth(ts, n + 1) == NextLevel(Depth(ts, n), ts[n]);
    }
    PopIsFirstClose(ts, n, m);
    PopHeld(ts, n, m);
    PopTracked(ts, n, m, m', n - top.line - 1);
    PopFirsts(ts, m.counts, top.line, n);
    PopOrdered(m.stack, m.level);
  }

  /** Recording the top opener's first closer keeps every count first. */
  lemma PopFirsts(ts: seq<string>, counts: map<nat, nat>, k0: nat, n: nat)
    requires Firsts(ts, counts) && k0 < n && FirstCloseAt(ts, k0, n)
    ensures Firsts(ts, counts[k0 := n - k0 - 1])
  {
    var counts' := counts[k0 := n - k0 - 1];
    forall k | k in counts'
      ensures FirstCloseAt(ts, k, k + counts'[k] + 1)
    {
      if k != k0 {
        assert counts'[k] == counts[k];
      }
    }
  }

  /** Popping keeps the stack ascending and below the lowered level. */
  lemma PopOrdered(stack: seq<Opener>, level: nat)
    requires Ascending(stack) && |stack| > 0 && stack[|stack| - 1].indent == SatDec(level)
    ensures Ascending(stack[..|stack| - 1]) && Below(stack[..|stack| - 1], SatDec(level))
  {
    var rest := stack[..|stack| - 1];
    forall a, b | 0 <= a < b < |rest| ensures rest[a].indent < rest[b].indent {
      assert rest[a] == stack[a] && rest[b] == stack[b];
    }
    forall a | 0 <= a < |rest| ensures rest[a].indent < SatDec(level) {
      assert rest[a] == stack[a];
    }
  }

  /** A closer that does not match the top leaves the stack as it is. */
  lemma CompleteNoPop(ts: seq<string>, n: nat, m: Matcher)
    requires WellNested(ts) && n < |ts| && StartsClosing(ts[n])
    requires Complete(ts, n, m) && m.level == Depth(ts, n)
    requires !(|m.stack| > 0 && m.stack[|m.stack| - 1].indent == SatDec(m.level))
    ensures Complete(ts, n + 1, MatchLine(m, n, ts[n]))
  {
    assert MatchLine(m, n, ts[n]) == m.(level := SatDec(m.level));
    assert Depth(ts, n + 1) == SatDec(m.level) by {
      assert Depth(ts, n + 1) == NextLevel(Depth(ts, n), ts[n]);
    }
    assert Below(m.stack, SatDec(m.level)) by {
      forall a | 0 <= a < |m.stack| ensures m.stack[a].indent < SatDec(m.level) {
        var top := m.stack[|m.stack| - 1];
        assert top.indent < m.level;
        if a < |m.stack| - 1 {
          assert m.stack[a].indent < top.indent;
        }
      }
    }
    assert Held(ts, n + 1, m.stack);
  }

  /** An opener (other than line 0) is pushed with the level before it. */
  lemma CompletePush(ts: seq<string>, n: nat, m: Matcher)
    requires WellNested(ts) && 0 < n < |ts| && !StartsClosing(ts[n]) && EndsOpening(ts[n])
    requires Complete(ts, n, m) && m.level == Depth(ts, n)
    ensures Complete(ts, n + 1, MatchLine(m, n, ts[n]))
  {
    var st := m.stack + [Opener(n, m.level)];
    assert MatchLine(m, n, ts[n]) == Matcher(m.level + 1, st, m.counts);
    assert Depth(ts, n + 1) == m.level + 1 by {
      assert Depth(ts, n + 1) == NextLevel(Depth(ts, n), ts[n]);
    }
    assert Ascending(st) && Below(st, m.level + 1) by {
      assert forall a :: 0 <= a < |m.stack| ==> st[a] == m.stack[a];
    }
    assert Held(ts, n + 1, st) by {
      forall a, j | 0 <= a < |st| && st[a].line < j <= n + 1
        ensures Depth(ts, j) > st[a].indent
      {
        if a < |m.stack| {
          assert st[a] == m.stack[a];
        }
      }
    }
    assert Tracked(ts, n + 1, Matcher(m.level + 1, st, m.counts)) by {
      forall s | 0 < s < n + 1 && EndsOpening(ts[s])
        ensures s in m.counts || s in StackLines(st)
      {
        if s == n {
          assert st[|m.stack|].line == n;
        } else if s !in m.counts {
          var a :| 0 <= a < |m.stack| && m.stack[a].line == s;
          assert st[a].line == s;
        }
      }
    }
  }

  /** A line that neither closes nor is pushed changes at most the level. */
  lemma CompleteKeep(ts: seq<string>, n: nat, m: Matcher)
    requires WellNested(ts) && n < |ts| && !StartsClosing(ts[n]) && (n == 0 || !EndsOpening(ts[n]))
    requires Complete(ts, n, m) && m.level == Depth(ts, n)
    ensures Complete(ts, n + 1, MatchLine(m, n, ts[n]))
  {
    var m' := m.(level := NextLevel(m.level, ts[n]));
    assert MatchLine(m, n, ts[n]) == m';
    assert Depth(ts, n + 1) == m'.level >= m.level by {
      assert Depth(ts, n + 1) == NextLevel(Depth(ts, n), ts[n]);
    }
    assert Held(ts, n + 1, m.stack) by {
      forall a, j | 0 <= a < |m.stack| && m.stack[a].line < j <= n + 1
        ensures Depth(ts, j) > m.stack[a].indent
      {
        if j == n + 1 {
          assert m.stack[a].indent < m.level;
        }
      }
    }
    assert Tracked(ts, n + 1, m') by {
      forall s | 0 < s < n + 1 && EndsOpening(ts[s])
        ensures s in m'.counts || s in StackLines(m'.stack)
      {
        assert s < n;
      }
    }
  }

  lemma {:induction false} MatchComplete(ts: seq<string>, n: nat)
    requires WellNested(ts) && n <= |ts|
    ensures Complete(ts, n, MatchPrefix(ts, n))
    decreases n
  {
    if n > 0 {
      var idx := n - 1;
      MatchComplete(ts, idx);
      MatchSound(ts, idx);
      var m := MatchPrefix(ts, idx);
      var t := ts[idx];
      assert MatchPrefix(ts, n) == MatchLine(m, idx, t);
      if StartsClosing(t) {
        assert !EndsOpening(t);
        if |m.stack| > 0 && m.stack[|m.stack| - 1].indent == SatDec(m.level) {
          CompletePop(ts, idx, m);
        } else {
          CompleteNoPop(ts, idx, m);
        }
      } else if EndsOpening(t) && idx != 0 {
        CompletePush(ts, idx, m);
      } else {
        CompleteKeep(ts, idx, m);
      }
    }
  }

  /** On well-nested input an opener that some later line closes back to is
      always counted. */
  lemma ClosedOpenerCounted(ts: seq<string>, k: nat, e: nat)
    requires WellNested(ts) && Opens(ts, k) && ClosesAt(ts, k, e)
    ensures k in CollapseCounts(ts)
  {
    var m := MatchPrefix(ts, |ts|);
    MatchSound(ts, |ts|);
    MatchComplete(ts, |ts|);
    assert Depth(ts, e + 1) == SatDec(Depth(ts, e)) by {
      assert Depth(ts, e + 1) == NextLevel(Depth(ts, e), ts[e]);
      assert !(StartsClosing(ts[e]) && EndsOpening(ts[e]));
    }

  }

  /** On well-nested input the map has an entry exactly for the opening lines
      some later line closes back to, and the entry's count places its closer at
      the FIRST such line; openers never closed get no entry. */
  lemma CollapseCountsMatchBlocks(ts: seq<string>)
    requires WellNested(ts)
    ensures forall k :: k in CollapseCounts(ts) <==> Opens(ts, k) && exists e: nat :: ClosesAt(ts, k, e)
    ensures forall k :: k in CollapseCounts(ts) ==> FirstCloseAt(ts, k, k + CollapseCounts(ts)[k] + 1)
  {
    var m := MatchPrefix(ts, |ts|);
    MatchSound(ts, |ts|);
    MatchComplete(ts, |ts|);
    forall k | Opens(ts, k) && (exists e: nat :: ClosesAt(ts, k, e))
      ensures k in m.counts
    {
      var e: nat :| ClosesAt(ts, k, e);
      ClosedOpenerCounted(ts, k, e);
    }
    forall k | k in m.counts
      ensures Opens(ts, k) && (exists e: nat :: ClosesAt(ts, k, e)) && FirstCloseAt(ts, k, k + m.counts[k] + 1)
    {
      assert ClosesAt(ts, k, k + m.counts[k] + 1);
    }
  }

  /** On well-nested input the level stays above an opener's level on every line
      up to its first closer, and that closer brings it back. */
  lemma {:induction false} DepthAboveUntilClose(ts: seq<string>, s: nat, e: nat, k: nat)
    requires WellNested(ts) && s < |ts| && EndsOpening(ts[s]) && FirstCloseAt(ts, s, e)
    requires s < k <= e
    ensures Depth(ts, k) > Depth(ts, s)
    decreases k
  {
    if k == s + 1 {
      assert Depth(ts, k) == NextLevel(Depth(ts, s), ts[s]);
    } else {
      DepthAboveUntilClose(ts, s, e, k - 1);
      assert Depth(ts, k) == NextLevel(Depth(ts, k - 1), ts[k - 1]);
      assert !ClosesAt(ts, s, k - 1);
    }
  }

  lemma CloseRestoresDepth(ts: seq<string>, s: nat, e: nat)
    requires WellNested(ts) && FirstCloseAt(ts, s, e)
    ensures Depth(ts, e + 1) == Depth(ts, s)
  {
    assert Depth(ts, e + 1) == NextLevel(Depth(ts, e), ts[e]);
  }

  // ---------------------------------------------------------------------------
  // What indentation matching misses when a line both closes and opens

  /** With a `], [` line the stack keeps an entry that no later line matches,
      and it hides the outer opener: line 1 gets no entry although line 5 closes
      back to its level. */
  lemma MixedLineLeavesOpenerUnmatched()
    ensures var ts := ["{", "\"a\": [", "[", "], [", "]", "]", "}"];
      && Opens(ts, 1) && ClosesAt(ts, 1, 5) && 1 !in CollapseCounts(ts)
      && CollapseCounts(ts) == map[2 := 0]
  {
    var ts := ["{", "\"a\": [", "[", "], [", "]", "]", "}"];
    assert ts[0] == "{";
    assert ts[1] == "\"a\": [";
    assert ts[2] == "[";
    assert ts[3] == "], [";
    assert ts[4] == "]";
    assert ts[5] == "]";
    assert ts[6] == "}";
    assert MatchPrefix(ts, 1) == Matcher(1, [], map[]);
    assert MatchPrefix(ts, 2) == Matcher(2, [Opener(1, 1)], map[]);
    assert MatchPrefix(ts, 3) == Matcher(3, [Opener(1, 1), Opener(2, 2)], map[]);
    assert MatchPrefix(ts, 4) == Matcher(3, [Opener(1, 1), Opener(3, 3)], map[2 := 0]);
    assert MatchPrefix(ts, 5) == Matcher(2, [Opener(1, 1), Opener(3, 3)], map[2 := 0]);
    assert MatchPrefix(ts, 6) == Matcher(1, [Opener(1, 1), Opener(3, 3)], map[2 := 0]);
    assert MatchPrefix(ts, 7) == Matcher(0, [Opener(1, 1), Opener(3, 3)], map[2 := 0]);
    assert Depth(ts, 1) == 1;
    assert Depth(ts, 2) == 2;
    assert Depth(ts, 3) == 3;
    assert Depth(ts, 4) == 3;
    assert Depth(ts, 5) == 2;
  }
}

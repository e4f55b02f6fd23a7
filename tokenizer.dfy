/** The per-line tokenizer of the JSON outline renderer: a character-by-character
    state machine over one trimmed line that splits it into quoted strings,
    structural punctuation and bare characters. */
module Tokenizer {
  import opened Text

  /** One emitted token: its text, the `is_key` flag at the time it was pushed,
      and whether it was closed as a quoted string. */
  datatype Token = Token(text: string, isKey: bool, inString: bool)

  /** The scanner's state: `in_string`, `is_key`, `prev_char`, the token buffer
      and the tokens emitted so far. */
  datatype Scan = Scan(inString: bool, isKey: bool, prev: char, buf: string, out: seq<Token>)

  /** `is_key` starts true; `prev_char` starts as NUL. */
  const Start := Scan(false, true, '\0', [], [])

  /** The six structural characters emitted as their own tokens. */
  predicate IsStructural(c: char) {
    c == '{' || c == '}' || c == '[' || c == ']' || c == ':' || c == ','
  }

  /** `String::pop`, which does nothing on an empty string. */
  function Pop(s: string): string {
    if s == [] then [] else s[..|s| - 1]
  }

  /** Pushes a non-empty buffer as a token tagged not-in-string, then clears it. */
  function Flush(st: Scan): Scan {
    if st.buf != [] then st.(out := st.out + [Token(st.buf, st.isKey, false)], buf := [])
    else st
  }

  /** The key context a structural character sets (`f` is the state after the
      flush): `,` `{` `[` make the next string a key, `:` a value. */
  function StructuralKey(f: Scan, c: char): bool {
    if c == ',' || c == '{' || c == '[' then true else if c == ':' then false else f.isKey
  }

  /** One iteration of the scanning loop on character `c`. */
  function Step(st: Scan, c: char): Scan {
    var next :=
      if c == '"' then
        if st.inString && st.prev != '\\' then
          // closing quote: the buffer becomes a string token
          st.(out := st.out + [Token(st.buf, st.isKey, true)], buf := [], inString := false)
        else if !st.inString then
          // opening quote
          Flush(st).(inString := true)
        else if st.prev == '\\' then
          // escaped quote: the backslash already in the buffer is replaced
          st.(buf := Pop(st.buf) + ['"'])
        else
          // never reached: the first branch takes every other in-string quote
          st.(buf := st.buf + ['"'])
      else if st.inString then
        st.(buf := st.buf + [c])
      else
        var f := Flush(st);
        if IsStructural(c) then
          f.(out := f.out + [Token([c], false, false)], isKey := StructuralKey(f, c))
        else if !IsWhitespace(c) then
          f.(buf := f.buf + [c])
        else
          f;
    next.(prev := c)
  }

  /** Runs the scanner over `s` from state `st`. */
  function Run(st: Scan, s: string): Scan
    decreases |s|
  {
    if s == [] then st else Run(Step(st, s[0]), s[1..])
  }

  /** The tokens of one line: scan every character, then push what is left in
      the buffer (tagged not-in-string, even when the line ended inside a string). */
  function Tokens(line: string): seq<Token> {
    Flush(Run(Start, line)).out
  }

  /** True when the line ends inside an unterminated string. */
  predicate EndsInString(line: string) {
    Run(Start, line).inString
  }

  /** True when the line ends inside an unterminated string that holds some
      text: that text is then pushed as the last token. */
  predicate EndsInStringText(line: string) {
    Run(Start, line).inString && Run(Start, line).buf != []
  }

  /** The tokenizer loop of `highlight_json`, extracted as its own method. */
  method Tokenize(line: string) returns (tokens: seq<Token>)
    ensures tokens == Tokens(line)
    ensures forall i :: 0 <= i < |tokens| && !(i == |tokens| - 1 && EndsInStringText(line)) ==> BareToken(tokens[i])
  {
    var isKey := true;
    var inString := false;
    var current: string := [];
    tokens := [];
    var prevChar := '\0';
    var i := 0;
    while i < |line|
      invariant 0 <= i <= |line|
      invariant Run(Scan(inString, isKey, prevChar, current, tokens), line[i..]) == Run(Start, line)
    {
      var c := line[i];
      assert line[i..][0] == c && line[i..][1..] == line[i + 1..];
      if c == '"' {
        if inString && prevChar != '\\' {
          tokens := tokens + [Token(current, isKey, true)];
          current := [];
          inString := false;
        } else if !inString {
          if current != [] {
            tokens := tokens + [Token(current, isKey, false)];
            current := [];
          }
          inString := true;
        } else {
          if prevChar == '\\' {
            if current != [] {
              current := current[..|current| - 1];
            }
            current := current + [c];
          } else {
            current := current + [c];
          }
        }
      } else if inString {
        current := current + [c];
      } else {
        if current != [] {
          tokens := tokens + [Token(current, isKey, false)];
          current := [];
        }
        if IsStructural(c) {
          tokens := tokens + [Token([c], false, false)];
          if c == ',' || c == '{' || c == '[' {
            isKey := true;
          } else if c == ':' {
            isKey := false;
          }
        } else if !IsWhitespace(c) {
          current := current + [c];
        }
      }
      prevChar := c;
      i := i + 1;
    }
    if current != [] {
      tokens := tokens + [Token(current, isKey, false)];
    }
    TokensShape(line);
  }

  // ---------------------------------------------------------------------------
  // Token shape

  /** A token that was not closed as a string is exactly one character that is
      neither whitespace nor a quote, and a structural one is never tagged key. */
  predicate BareToken(t: Token) {
    !t.inString ==>
      && |t.text| == 1
      && !IsWhitespace(t.text[0])
      && t.text[0] != '"'
      && (IsStructural(t.text[0]) ==> !t.isKey)
  }

  /** What every reachable scanner state satisfies. */
  ghost predicate Shaped(st: Scan) {
    && (forall i :: 0 <= i < |st.out| ==> BareToken(st.out[i]))
    && (!st.inString ==>
          |st.buf| <= 1 && (st.buf != [] ==> !IsWhitespace(st.buf[0]) && st.buf[0] != '"' && !IsStructural(st.buf[0])))
  }

  lemma StepShaped(st: Scan, c: char)
    requires Shaped(st)
    ensures Shaped(Step(st, c))
  {
  }

  lemma {:induction false} RunShaped(st: Scan, s: string)
    requires Shaped(st)
    ensures Shaped(Run(st, s))
    decreases |s|
  {
    if s != [] {
      StepShaped(st, s[0]);
      RunShaped(Step(st, s[0]), s[1..]);
    }
  }

  /** Outside strings each structural character is its own one-character token
      tagged not-key, whitespace is dropped, and every other character is a token
      of its own (the buffer is flushed before each character outside a string);
      only the buffer left over when the line ends inside a string can break this. */
  lemma TokensShape(line: string)
    ensures forall i :: 0 <= i < |Tokens(line)| && !(i == |Tokens(line)| - 1 && EndsInStringText(line)) ==>
      BareToken(Tokens(line)[i])
    ensures forall i :: 0 <= i < |Tokens(line)| && !Tokens(line)[i].inString ==> Tokens(line)[i].text != []
  {
    RunShaped(Start, line);
  }

  // ---------------------------------------------------------------------------
  // Key tagging

  /** Whether the next string is a key, judged from the tokens before it: true
      at the start and after `,` `{` `[`, false after `:`, unchanged otherwise. */
  function KeyContext(ts: seq<Token>): bool
    decreases |ts|
  {
    if ts == [] then true
    else
      var t := ts[|ts| - 1];
      if !t.inString && (t.text == "," || t.text == "{" || t.text == "[") then true
      else if !t.inString && t.text == ":" then false
      else KeyContext(ts[..|ts| - 1])
  }

  ghost predicate Keyed(st: Scan) {
    && st.isKey == KeyContext(st.out)
    && forall i :: 0 <= i < |st.out| && st.out[i].inString ==> st.out[i].isKey == KeyContext(st.out[..i])
  }

  lemma PushKeyed(out: seq<Token>, t: Token)
    requires forall i :: 0 <= i < |out| && out[i].inString ==> out[i].isKey == KeyContext(out[..i])
    requires t.inString ==> t.isKey == KeyContext(out)
    ensures forall i :: 0 <= i < |out + [t]| && (out + [t])[i].inString ==>
      (out + [t])[i].isKey == KeyContext((out + [t])[..i])
  {
    forall i | 0 <= i < |out + [t]| && (out + [t])[i].inString
      ensures (out + [t])[i].isKey == KeyContext((out + [t])[..i])
    {
      if i < |out| {
        assert (out + [t])[..i] == out[..i];
      } else {
        assert (out + [t])[..i] == out;
      }
    }
  }

  /** Flushing a bare one-character buffer does not change the key context. */
  lemma FlushKeyed(st: Scan)
    requires Shaped(st) && Keyed(st) && !st.inString
    ensures Keyed(Flush(st)) && Flush(st).isKey == st.isKey
  {
    if st.buf != [] {
      var t := Token(st.buf, st.isKey, false);
      PushKeyed(st.out, t);
      assert (st.out + [t])[..|st.out|] == st.out;
      assert t.text != "," && t.text != "{" && t.text != "[" && t.text != ":";
      assert KeyContext(st.out + [t]) == KeyContext(st.out);
    }
  }

  /** A closing quote pushes a string token tagged with the current context. */
  lemma CloseKeyed(st: Scan, c: char)
    requires Keyed(st) && c == '"' && st.inString && st.prev != '\\'
    ensures Keyed(Step(st, c))
  {
    var t := Token(st.buf, st.isKey, true);
    assert Step(st, c) == Scan(false, st.isKey, c, [], st.out + [t]);
    PushKeyed(st.out, t);
    assert (st.out + [t])[..|st.out|] == st.out;
  }

  /** Pushing a structural token and updating the context keeps `Keyed`. */
  lemma StructuralKeyed(f: Scan, c: char)
    requires Keyed(f) && IsStructural(c)
    ensures Keyed(f.(out := f.out + [Token([c], false, false)], isKey := StructuralKey(f, c), prev := c))
  {
    var t := Token([c], false, false);
    PushKeyed(f.out, t);
    assert (f.out + [t])[..|f.out|] == f.out;
  }

  /** Outside a string a character flushes the buffer and may push a
      structural token, which sets the context. */
  lemma OutsideKeyed(st: Scan, c: char)
    requires Shaped(st) && Keyed(st) && c != '"' && !st.inString
    ensures Keyed(Step(st, c))
  {
    FlushKeyed(st);
    var f := Flush(st);
    if IsStructural(c) {
      StructuralKeyed(f, c);
      assert Step(st, c) == f.(out := f.out + [Token([c], false, false)], isKey := StructuralKey(f, c), prev := c);
    } else {
      assert Step(st, c).out == f.out && Step(st, c).isKey == f.isKey;
    }
  }

  lemma StepKeyed(st: Scan, c: char)
    requires Shaped(st) && Keyed(st)
    ensures Keyed(Step(st, c))
  {
    if c == '"' && st.inString && st.prev != '\\' {
      CloseKeyed(st, c);
    } else if c == '"' && !st.inString {
      FlushKeyed(st);
      assert Step(st, c) == Flush(st).(inString := true, prev := c);
    } else if st.inString {
      assert Step(st, c).out == st.out && Step(st, c).isKey == st.isKey;
    } else {
      OutsideKeyed(st, c);
    }
  }

  lemma {:induction false} RunKeyed(st: Scan, s: string)
    requires Shaped(st) && Keyed(st)
    ensures Keyed(Run(st, s))
    decreases |s|
  {
    if s != [] {
      StepKeyed(st, s[0]);
      StepShaped(st, s[0]);
      RunKeyed(Step(st, s[0]), s[1..]);
    }
  }

  /** A quoted string is tagged key exactly when the last `,` `{` `[` or `:`
      token before it (if any) is not `:`. */
  lemma TokensKeyContext(line: string)
    ensures forall i :: 0 <= i < |Tokens(line)| && Tokens(line)[i].inString ==>
      Tokens(line)[i].isKey == KeyContext(Tokens(line)[..i])
  {
    RunShaped(Start, line);
    RunKeyed(Start, line);
    var st := Run(Start, line);
    if st.buf != [] {
      PushKeyed(st.out, Token(st.buf, st.isKey, false));
    }
  }

  // ---------------------------------------------------------------------------
  // Reconstruction

  /** Concatenation of the tokens' texts. */
  function Texts(ts: seq<Token>): string
    decreases |ts|
  {
    if ts == [] then [] else Texts(ts[..|ts| - 1]) + ts[|ts| - 1].text
  }

  lemma TextsSnoc(ts: seq<Token>, t: Token)
    ensures Texts(ts + [t]) == Texts(ts) + t.text
  {
    assert (ts + [t])[..|ts|] == ts;
  }

  /** Reference reading of a line: quote characters are dropped, whitespace is
      dropped outside strings, every other character is kept in order. */
  function Meaningful(s: string, inString: bool): string
    decreases |s|
  {
    if s == [] then []
    else if s[0] == '"' then Meaningful(s[1..], !inString)
    else if inString || !IsWhitespace(s[0]) then [s[0]] + Meaningful(s[1..], inString)
    else Meaningful(s[1..], inString)
  }

  lemma FlushTexts(st: Scan)
    ensures Texts(Flush(st).out) + Flush(st).buf == Texts(st.out) + st.buf
  {
    if st.buf != [] {
      TextsSnoc(st.out, Token(st.buf, st.isKey, false));
    }
  }

  /** What one character contributes to the reference reading. */
  function Contribution(c: char, inString: bool): string {
    if c == '"' then [] else if inString || !IsWhitespace(c) then [c] else []
  }

  /** A quote contributes nothing: a closing one moves the buffer into a
      token, an opening one flushes it. */
  lemma QuoteTexts(st: Scan, c: char)
    requires st.prev != '\\' && c == '"'
    ensures Texts(Step(st, c).out) + Step(st, c).buf == Texts(st.out) + st.buf
  {
    var n := Step(st, c);
    var whole := Texts(st.out) + st.buf;
    if st.inString {
      var t := Token(st.buf, st.isKey, true);
      assert n == Scan(false, st.isKey, c, [], st.out + [t]);
      TextsSnoc(st.out, t);
      assert Texts(n.out) + n.buf == Texts(st.out + [t]) + [];
    } else {
      FlushTexts(st);
      assert n == Flush(st).(inString := true, prev := c);
    }
  }

  /** Outside a string a character other than a quote flushes the buffer and
      contributes itself unless it is whitespace. */
  lemma OutsideTexts(st: Scan, c: char)
    requires c != '"' && !st.inString
    ensures Texts(Step(st, c).out) + Step(st, c).buf == Texts(st.out) + st.buf + Contribution(c, false)
  {
    var n := Step(st, c);
    var f := Flush(st);
    var whole := Texts(st.out) + st.buf;
    FlushTexts(st);
    assert Texts(f.out) == whole by {
      assert f.buf == [];
      assert Texts(f.out) + [] == Texts(f.out);
    }
    if IsStructural(c) {
      var t := Token([c], false, false);
      assert n.out == f.out + [t] && n.buf == [];
      TextsSnoc(f.out, t);
      assert Texts(n.out) + [] == whole + [c];
    } else if !IsWhitespace(c) {
      assert n.out == f.out && n.buf == [c];
    } else {
      assert n.out == f.out && n.buf == [];
      assert Texts(n.out) + [] == whole + [];
    }
  }

  lemma StepTexts(st: Scan, c: char)
    requires st.prev != '\\' && c != '\\'
    ensures Texts(Step(st, c).out) + Step(st, c).buf == Texts(st.out) + st.buf + Contribution(c, st.inString)
    ensures Step(st, c).inString == (if c == '"' then !st.inString else st.inString)
    ensures Step(st, c).prev != '\\'
  {
    var whole := Texts(st.out) + st.buf;
    if c == '"' {
      QuoteTexts(st, c);
      assert whole + [] == whole;
    } else if st.inString {
      assert Step(st, c) == st.(buf := st.buf + [c], prev := c);
      assert Texts(st.out) + (st.buf + [c]) == whole + [c];
    } else {
      OutsideTexts(st, c);
    }
  }

  lemma {:induction false} RunTexts(st: Scan, s: string)
    requires st.prev != '\\'
    requires '\\' !in s
    ensures Texts(Flush(Run(st, s)).out) == Texts(st.out) + st.buf + Meaningful(s, st.inString)
    decreases |s|
  {
    if s == [] {
      FlushTexts(st);
      assert Flush(st).buf == [];
    } else {
      var c := s[0];
      var next := Step(st, c);
      var rest := s[1..];
      StepTexts(st, c);
      assert '\\' !in rest by {
        assert forall k :: 0 <= k < |rest| ==> rest[k] == s[k + 1];
      }
      RunTexts(next, rest);
      assert Run(st, s) == Run(next, rest);
      assert Meaningful(s, st.inString) == Contribution(c, st.inString) + Meaningful(rest, next.inString);
      SplitJoin(Texts(Flush(Run(st, s)).out), Texts(next.out) + next.buf, Texts(st.out) + st.buf,
                Contribution(c, st.inString), Meaningful(rest, next.inString), Meaningful(s, st.inString));
    }
  }

  lemma SplitJoin(x: string, y: string, z: string, step: string, tail: string, whole: string)
    requires x == y + tail && y == z + step && whole == step + tail
    ensures x == z + whole
  {
  }

  /** On a line without backslashes, the tokens' texts concatenate to the line
      with its quote characters and its whitespace outside strings removed. */
  lemma TokensReconstructLine(line: string)
    requires '\\' !in line
    ensures Texts(Tokens(line)) == Meaningful(line, false)
  {
    assert Start.prev != '\\' && Start.out == [] && Start.buf == [] && !Start.inString;
    RunTexts(Start, line);
    assert Texts(Tokens(line)) == [] + [] + Meaningful(line, false);
  }

  // ---------------------------------------------------------------------------
  // Unterminated strings and the escape example

  lemma {:induction false} RunInsideString(st: Scan, s: string)
    requires st.inString && st.prev != '\\'
    requires forall k :: 0 <= k < |s| ==> s[k] != '"' && s[k] != '\\'
    ensures Run(st, s) == st.(buf := st.buf + s, prev := if s == [] then st.prev else s[|s| - 1])
    decreases |s|
  {
    if s != [] {
      RunInsideString(Step(st, s[0]), s[1..]);
      assert st.buf + [s[0]] + s[1..] == st.buf + s;
    }
  }

  /** A line that opens a string after a prefix `p` and never closes it ends
      inside the string; the prefix's pending token is flushed when the quote
      opens, and the string's text becomes the last token, tagged
      not-in-string and carrying the key flag in force after `p`. */
  lemma UnterminatedString(p: string, s: string)
    requires !Run(Start, p).inString
    requires forall k :: 0 <= k < |s| ==> s[k] != '"' && s[k] != '\\'
    ensures EndsInString(p + ['"'] + s)
    ensures Tokens(p + ['"'] + s)
      == Flush(Run(Start, p)).out + (if s == [] then [] else [Token(s, Run(Start, p).isKey, false)])
  {
    var st := Run(Start, p);
    var quoted := Flush(st).(inString := true, prev := '"');
    RunAppend(Start, p, ['"']);
    assert Run(st, ['"']) == quoted by {
      assert Step(st, '"') == quoted;
      assert ['"'][1..] == [];
    }
    RunAppend(Start, p + ['"'], s);
    RunInsideString(quoted, s);
    assert Flush(st).buf == [];
    assert Run(quoted, s).buf == s && Run(quoted, s).inString;
    assert Run(quoted, s).out == Flush(st).out && Run(quoted, s).isKey == st.isKey;
  }

  /** Scanning a concatenation scans the first part, then the second. */
  lemma {:induction false} RunAppend(st: Scan, a: string, b: string)
    ensures Run(st, a + b) == Run(Run(st, a), b)
    decreases |a|
  {
    if a == [] {
      assert a + b == b;
    } else {
      assert (a + b)[0] == a[0] && (a + b)[1..] == a[1..] + b;
      RunAppend(Step(st, a[0]), a[1..], b);
    }
  }

  /** The opening quote, the key text and the escaped quote: the backslash is
      replaced by the quote in the buffer. */
  lemma EscapedQuoteKey()
    ensures Run(Start, "\"a\\\"b") == Scan(true, true, 'b', "a\"b", [])
  {
    var s1 := Step(Start, '"');
    assert s1 == Scan(true, true, '"', [], []);
    var s2 := Step(s1, 'a');
    assert s2 == Scan(true, true, 'a', "a", []);
    var s3 := Step(s2, '\\');
    assert s3 == Scan(true, true, '\\', "a\\", []);
    var s4 := Step(s3, '"');
    assert s4 == Scan(true, true, '"', "a\"", []);
    var s5 := Step(s4, 'b');
    assert s5 == Scan(true, true, 'b', "a\"b", []);
    assert Run(s5, []) == s5;
    assert Run(s4, "b") == s5;
    assert Run(s3, "\"b") == s5;
    assert Run(s2, "\\\"b") == s5;
    assert Run(s1, "a\\\"b") == s5;
  }

  /** The closing quote, the colon, a space and the digit. */
  lemma EscapedQuoteRest()
    ensures Run(Scan(true, true, 'b', "a\"b", []), "\": 1")
      == Scan(false, false, '1', "1", [Token("a\"b", true, true), Token(":", false, false)])
  {
    var s5 := Scan(true, true, 'b', "a\"b", []);
    var s6 := Step(s5, '"');
    assert s6 == Scan(false, true, '"', [], [Token("a\"b", true, true)]);
    var s7 := Step(s6, ':');
    assert s7 == Scan(false, false, ':', [], [Token("a\"b", true, true), Token(":", false, false)]);
    var s8 := Step(s7, ' ');
    assert s8 == s7.(prev := ' ');
    var s9 := Step(s8, '1');
    assert s9 == s8.(buf := "1", prev := '1');
    assert Run(s9, []) == s9;
    assert Run(s8, "1") == s9;
    assert Run(s7, " 1") == s9;
    assert Run(s6, ": 1") == s9;
  }

  /** `"a\"b": 1` is the key string `a"b`, then `:`, then the bare `1`. */
  lemma EscapedQuoteExample()
    ensures Tokens("\"a\\\"b\": 1")
      == [Token("a\"b", true, true), Token(":", false, false), Token("1", false, false)]
  {
    assert "\"a\\\"b\": 1" == "\"a\\\"b" + "\": 1";
    RunAppend(Start, "\"a\\\"b", "\": 1");
    EscapedQuoteKey();
    EscapedQuoteRest();
  }
}

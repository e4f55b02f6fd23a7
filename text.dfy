/** Character classes and line trimming shared by the block matcher, the
    tokenizer and the fold renderer. Lines are strings of Unicode scalar
    values; no encoding is modelled. */
module Text {

  /** Rust's `char::is_whitespace`: the Unicode White_Space property. `str::trim`
      and the tokenizer's whitespace condition both use it. */
  predicate IsWhitespace(c: char) {
    || ('\U{9}' <= c <= '\U{D}')
    || c == ' '
    || c == '\U{85}'
    || c == '\U{A0}'
    || c == '\U{1680}'
    || ('\U{2000}' <= c <= '\U{200A}')
    || c == '\U{2028}'
    || c == '\U{2029}'
    || c == '\U{202F}'
    || c == '\U{205F}'
    || c == '\U{3000}'
  }

  /** Drops leading whitespace: the result is the suffix of `s` that starts
      at its first non-whitespace character. */
  function TrimStart(s: string): (r: string)
    ensures |r| <= |s| && r == s[|s| - |r|..]
    ensures r == [] || !IsWhitespace(r[0])
    ensures forall k :: 0 <= k < |s| - |r| ==> IsWhitespace(s[k])
  {
    if s != [] && IsWhitespace(s[0]) then TrimStart(s[1..]) else s
  }

  /** Drops trailing whitespace: the result is the prefix of `s` that ends
      at its last non-whitespace character. */
  function TrimEnd(s: string): (r: string)
    ensures |r| <= |s| && r == s[..|r|]
    ensures r == [] || !IsWhitespace(r[|r| - 1])
    ensures forall k :: |r| <= k < |s| ==> IsWhitespace(s[k])
  {
    if s != [] && IsWhitespace(s[|s| - 1]) then TrimEnd(s[..|s| - 1]) else s
  }

  /** `str::trim`: neither end of the result is whitespace, and the result is
      empty exactly when the whole line is whitespace. */
  function Trim(s: string): (r: string)
    ensures |r| <= |s|
    ensures r == [] || (!IsWhitespace(r[0]) && !IsWhitespace(r[|r| - 1]))
    ensures r == [] <==> forall k :: 0 <= k < |s| ==> IsWhitespace(s[k])
  {
    var front := TrimStart(s);
    var r := TrimEnd(front);
    assert front != [] ==> !IsWhitespace(front[0]);
    r
  }

  /** Every line of a document, trimmed. */
  function TrimAll(lines: seq<string>): (ts: seq<string>)
    ensures |ts| == |lines|
    ensures forall i {:trigger Trim(lines[i])} :: 0 <= i < |lines| ==> ts[i] == Trim(lines[i])
  {
    if lines == [] then [] else [Trim(lines[0])] + TrimAll(lines[1..])
  }

  /** `trimmed.starts_with('}') || trimmed.starts_with(']')` */
  predicate StartsClosing(t: string) {
    |t| > 0 && (t[0] == '}' || t[0] == ']')
  }

  /** `trimmed.ends_with('{') || trimmed.ends_with('[')` */
  predicate EndsOpening(t: string) {
    |t| > 0 && (t[|t| - 1] == '{' || t[|t| - 1] == '[')
  }

  /** `usize::saturating_sub(1)` */
  function SatDec(n: nat): (r: nat)
    ensures n > 0 ==> r + 1 == n
    ensures n == 0 ==> r == 0
  {
    if n == 0 then 0 else n - 1
  }

  /** `usize::saturating_sub(b)` */
  function SatSub(a: nat, b: nat): (r: nat)
    ensures a >= b ==> r + b == a
    ensures a < b ==> r == 0
  {
    if a >= b then a - b else 0
  }

  /** A lone `}` has no whitespace to trim. */
  lemma BraceTrimmed()
    ensures Trim("}") == "}"
  {
    var b: string := "}";
    assert !IsWhitespace(b[0]);
    assert TrimStart(b) == b;
    assert TrimEnd(b) == b;
  }

  /** A line holding only `}` stays `}` once the document is trimmed. */
  lemma BraceLineTrimmed(lines: seq<string>, k: nat)
    requires k < |lines| && lines[k] == "}"
    ensures TrimAll(lines)[k] == "}"
  {
    BraceTrimmed();
  }

  /** In a document of `}` lines every trimmed line closes and none opens. */
  lemma BraceLinesOnlyClose(lines: seq<string>)
    requires forall k :: 0 <= k < |lines| ==> lines[k] == "}"
    ensures forall k :: 0 <= k < |lines| ==> StartsClosing(TrimAll(lines)[k]) && !EndsOpening(TrimAll(lines)[k])
  {
    forall k | 0 <= k < |lines|
      ensures StartsClosing(TrimAll(lines)[k]) && !EndsOpening(TrimAll(lines)[k])
    {
      BraceLineTrimmed(lines, k);
    }
  }
}

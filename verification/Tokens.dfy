/**
 Pass 1 of the query-template compiler as a token stream: what `preprocess` recognises at each
 caret position, what it writes for it, and which clean sections it records.
 */
module Tokens {
  import opened Lexing

  datatype CleanSection = CleanSection(position: nat, size: nat)

  datatype Token =
    | Plain(c: char)
    | Literal(text: string, closed: bool)
    | Open
    | Close

  const OPEN_MARK := "<!!"
  const CLOSE_MARK := "!!>"

  // The input text a token stands for.
  function Raw(t: Token): string {
    match t
    case Plain(c) => [c]
    case Literal(text, _) => text
    case Open => OPEN_MARK
    case Close => CLOSE_MARK
  }

  // What pass 1 writes for a token: markers are erased.
  function Written(t: Token): string {
    match t
    case Plain(c) => [c]
    case Literal(text, _) => text
    case _ => ""
  }

  predicate IsMarker(t: Token) {
    t.Open? || t.Close?
  }

  predicate IsBroken(t: Token) {
    t.Literal? && !t.closed
  }

  // The token at the caret; `open` says whether a section has been opened and not closed.
  function NextToken(s: string, open: bool): (t: Token)
    requires |s| > 0
    ensures Raw(t) <= s && |Raw(t)| > 0
    ensures IsBroken(t) ==> Raw(t) == s
  {
    if StartsLiteral(s[0]) then
      var r := LiteralSpan(s);
      Literal(s[..r.len], r.closed)
    else if s[0] == '<' && !open && OPEN_MARK <= s then
      Open
    else if s[0] == '!' && open && CLOSE_MARK <= s then
      Close
    else
      Plain(s[0])
  }

  function After(t: Token, open: bool): bool {
    if t.Open? then true else if t.Close? then false else open
  }

  function Tokenize(s: string, open: bool): (ts: seq<Token>)
    decreases |s|
  {
    if |s| == 0 then
      []
    else
      var t := NextToken(s, open);
      [t] + Tokenize(s[|Raw(t)|..], After(t, open))
  }

  // A character that starts nothing is read on its own.
  lemma PlainToken(s: string, open: bool, c: char, rest: string)
    requires s == [c] + rest && !StartsLiteral(c) && c != '<' && c != '!'
    ensures Tokenize(s, open) == [Plain(c)] + Tokenize(rest, open)
  {
    assert s[1..] == rest;
  }

  function RawText(ts: seq<Token>): string {
    if ts == [] then "" else Raw(ts[0]) + RawText(ts[1..])
  }

  // The processed text: the concatenation of everything pass 1 writes.
  function Out(ts: seq<Token>): string {
    if ts == [] then "" else Written(ts[0]) + Out(ts[1..])
  }

  // The clean sections recorded from here on, `pos` characters having been written and the last
  // unclosed section having been opened at `start`, or -1.
  function Sections(ts: seq<Token>, pos: nat, start: int): seq<CleanSection>
    requires -1 <= start <= pos
  {
    if ts == [] then
      []
    else
      match ts[0]
      case Open => Sections(ts[1..], pos, pos)
      case Close =>
        (if start < 0 then [] else [CleanSection(start, pos - start)]) + Sections(ts[1..], pos, -1)
      case _ => Sections(ts[1..], pos + |Written(ts[0])|, start)
  }

  // Where the section left open at the end of the text was opened, or -1.
  function Dangling(ts: seq<Token>, pos: nat, start: int): int {
    if ts == [] then
      start
    else
      match ts[0]
      case Open => Dangling(ts[1..], pos, pos)
      case Close => Dangling(ts[1..], pos, -1)
      case _ => Dangling(ts[1..], pos + |Written(ts[0])|, start)
  }

  // Whether the stream ends in an unterminated literal, which is when pass 1 puts its caret in error.
  predicate HasBroken(ts: seq<Token>) {
    ts != [] && (IsBroken(ts[0]) || HasBroken(ts[1..]))
  }

  datatype Processed = Processed(text: string, sections: seq<CleanSection>)

  function Preprocessed(text: string): Processed {
    var ts := Tokenize(text, false);
    Processed(Out(ts), Sections(ts, 0, -1))
  }

  // ---------- What every token stream of pass 1 satisfies ----------

  predicate GoodToken(t: Token) {
    match t
    case Plain(c) => !StartsLiteral(c)
    case Literal(text, closed) =>
      |text| > 0 && StartsLiteral(text[0]) && LiteralSpan(text) == Span(|text|, closed)
    case _ => true
  }

  predicate Good(ts: seq<Token>) {
    ts == [] || (GoodToken(ts[0]) && (IsBroken(ts[0]) ==> |ts| == 1) && Good(ts[1..]))
  }

  // Markers alternate, so a section is never opened twice nor closed when none is open.
  predicate Alternating(ts: seq<Token>, open: bool) {
    ts == [] ||
    ((ts[0].Open? ==> !open) && (ts[0].Close? ==> open) && Alternating(ts[1..], After(ts[0], open)))
  }

  lemma NextTokenGood(s: string, open: bool)
    requires |s| > 0
    ensures GoodToken(NextToken(s, open))
  {
    if StartsLiteral(s[0]) {
      var r := LiteralSpan(s);
      if r.closed {
        LiteralSpanCut(s, r.len);
      } else {
        assert s[..r.len] == s;
      }
    }
  }

  // Tokenization loses nothing, keeps markers alternating, and stops at an unterminated literal.
  lemma {:induction false} TokenizeGood(s: string, open: bool)
    ensures Good(Tokenize(s, open))
    ensures Alternating(Tokenize(s, open), open)
    ensures RawText(Tokenize(s, open)) == s
    decreases |s|
  {
    if |s| == 0 {
    } else {
      var t := NextToken(s, open);
      NextTokenGood(s, open);
      TokenizeGood(s[|Raw(t)|..], After(t, open));
      assert s == Raw(t) + s[|Raw(t)|..];
    }
  }

  // ---------- Concatenation ----------

  lemma {:induction false} OutConcat(a: seq<Token>, b: seq<Token>)
    ensures Out(a + b) == Out(a) + Out(b)
  {
    if a == [] {
      assert a + b == b;
    } else {
      assert (a + b)[1..] == a[1..] + b;
      OutConcat(a[1..], b);
    }
  }
}

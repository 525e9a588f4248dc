/**
 The converse of erasure: which processed texts and sections come back when their markers are woven
 in and pass 1 reads the result.
 */
module Weaving {
  import opened Wrappers
  import opened Lexing
  import opened Tokens
  import opened QueryParser
  import opened Erasure

  // Only text: no marker and no unterminated literal.
  predicate AllText(ts: seq<Token>) {
    ts == [] || (!IsMarker(ts[0]) && !IsBroken(ts[0]) && AllText(ts[1..]))
  }

  // A way to read text into tokens, `open` telling whether a section is open at its start.
  type Lexer = (string, bool) -> seq<Token>

  // The pieces the sections cut the text into are each well lexed on their own: no literal is left
  // open at a section boundary, no gap holds an unquoted `<!!`, no section body an unquoted `!!>`.
  predicate Clean(lex: Lexer, out: string, pos: nat, secs: seq<CleanSection>)
    requires Laid(|out|, pos, secs, -1)
    decreases |secs|
  {
    if secs == [] then
      AllText(lex(out[pos..], false))
    else
      var p := secs[0].position;
      var end := p + secs[0].size;
      && AllText(lex(out[pos..p], false))
      && AllText(lex(out[p..end], true))
      && Clean(lex, out, end, secs[1..])
  }

  predicate CleanLayout(out: string, secs: seq<CleanSection>)
    requires Laid(|out|, 0, secs, -1)
  {
    Clean((s, open) => Tokenize(s, open), out, 0, secs)
  }

  // What may follow a piece: nothing, or the marker that ends it.
  predicate Ends(rest: string, open: bool) {
    rest == "" || (if open then CLOSE_MARK <= rest else OPEN_MARK <= rest)
  }

  // ---------- Reading a piece on its own and reading it before a marker ----------

  lemma MarkNotAcross(s: string, rest: string, open: bool)
    requires |s| > 0 && Ends(rest, open)
    ensures !open && !(OPEN_MARK <= s) ==> !(OPEN_MARK <= s + rest)
    ensures open && !(CLOSE_MARK <= s) ==> !(CLOSE_MARK <= s + rest)
  {
    var mark := if open then CLOSE_MARK else OPEN_MARK;
    if |s| >= 3 {
      PrefixOfLonger(mark, s, rest);
    } else if rest != "" {
      assert (s + rest)[|s|] == mark[0] && (s + rest)[|s| + 1] == mark[1];
    }
  }

  lemma NextTokenBefore(s: string, rest: string, open: bool)
    requires |s| > 0 && Ends(rest, open) && !IsBroken(NextToken(s, open)) && !IsMarker(NextToken(s, open))
    ensures NextToken(s + rest, open) == NextToken(s, open)
  {
    MarkNotAcross(s, rest, open);
    if StartsLiteral(s[0]) {
      var n := LiteralSpan(s).len;
      var head, tail := s[..n], s[n..] + rest;
      assert s + rest == head + tail;
      LiteralSpanCut(s, n);
      if s[0] == '\'' {
        QuoteSpanEnds(s, false, n);
      }
      LiteralSpanConcat(head, tail);
    }
  }

  lemma {:induction false} PieceBefore(s: string, rest: string, open: bool, ts: seq<Token>, more: seq<Token>)
    requires ts == Tokenize(s, open) && AllText(ts) && Ends(rest, open) && more == Tokenize(rest, open)
    ensures Tokenize(s + rest, open) == ts + more
    decreases |s|
  {
    if |s| == 0 {
      assert s + rest == rest && ts + more == more;
    } else {
      var t := NextToken(s, open);
      var tail := s[|Raw(t)|..];
      NextTokenBefore(s, rest, open);
      PieceBefore(tail, rest, open, ts[1..], more);
      Dropped(s, rest, |Raw(t)|);
      TokenizeStep(s + rest, open, t, tail + rest);
      Grow([t], ts[1..], more);
    }
  }

  lemma Dropped(s: string, rest: string, n: nat)
    requires n <= |s|
    ensures (s + rest)[n..] == s[n..] + rest
  {
  }

  lemma TokenizeStep(s: string, open: bool, t: Token, left: string)
    requires |s| > 0 && t == NextToken(s, open) && left == s[|Raw(t)|..]
    ensures Tokenize(s, open) == [t] + Tokenize(left, After(t, open))
  {
  }

  lemma MarkerFirst(s: string)
    ensures Tokenize(OPEN_MARK + s, false) == [Open] + Tokenize(s, true)
    ensures Tokenize(CLOSE_MARK + s, true) == [Close] + Tokenize(s, false)
  {
    TokenizeStep(OPEN_MARK + s, false, Open, s);
    TokenizeStep(CLOSE_MARK + s, true, Close, s);
  }

  // ---------- What pass 1 makes of a woven text ----------

  lemma {:induction false} AllTextConcat(a: seq<Token>, b: seq<Token>, pos: nat, start: int, next: nat)
    requires -1 <= start <= pos && AllText(a) && next == pos + |Out(a)|
    ensures Sections(a + b, pos, start) == Sections(b, next, start)
    ensures Dangling(a + b, pos, start) == Dangling(b, next, start)
    ensures HasBroken(a + b) == HasBroken(b)
  {
    if a == [] {
      assert a + b == b;
    } else {
      assert (a + b)[1..] == a[1..] + b && (a + b)[0] == a[0];
      AllTextConcat(a[1..], b, pos + |Written(a[0])|, start, next);
    }
  }

  lemma {:induction false} AllTextRaw(ts: seq<Token>)
    requires AllText(ts)
    ensures Out(ts) == RawText(ts)
  {
    if |ts| == 0 {
    } else {
      AllTextRaw(ts[1..]);
    }
  }

  lemma PieceWritten(s: string, open: bool)
    requires AllText(Tokenize(s, open))
    ensures Out(Tokenize(s, open)) == s
  {
    TokenizeGood(s, open);
    AllTextRaw(Tokenize(s, open));
  }

  lemma NextTokenAlone(s: string, open: bool, t: Token, g: string, rest: string)
    requires |s| > 0 && t == NextToken(s, open) && !IsMarker(t) && !IsBroken(t) && s == g + rest && |Raw(t)| <= |g|
    ensures NextToken(g, open) == t
  {
    if StartsLiteral(s[0]) {
      var n := |t.text|;
      var tail := g[n..];
      assert s[..n] == g[..n] && g == g[..n] + tail;
      LiteralSpanCut(s, n);
      if s[0] == '\'' {
        QuoteSpanEnds(s, false, n);
      }
      LiteralSpanConcat(g[..n], tail);
    } else if |g| >= 3 {
      PrefixOfLonger(OPEN_MARK, g, rest);
      PrefixOfLonger(CLOSE_MARK, g, rest);
    }
  }

  lemma FirstToken(s: string, open: bool, a: seq<Token>, b: seq<Token>)
    requires Tokenize(s, open) == a + b && a != []
    ensures |s| > 0 && a[0] == NextToken(s, open) && s == Raw(a[0]) + s[|Raw(a[0])|..]
    ensures Tokenize(s[|Raw(a[0])|..], After(a[0], open)) == a[1..] + b
  {
    var t := NextToken(s, open);
    assert (a + b)[0] == a[0] && (a + b)[1..] == a[1..] + b;
    RawFirst(s, t);
  }

  lemma RawFirst(s: string, t: Token)
    requires Raw(t) <= s
    ensures s == Raw(t) + s[|Raw(t)|..]
  {
  }

  lemma FirstTokenAlone(s: string, open: bool, a: seq<Token>, b: seq<Token>, g: string, rest: string, t: Token,
                        tail: string, more: seq<Token>)
    requires Tokenize(s, open) == a + b && a != [] && !IsMarker(t) && !IsBroken(t) && s == g + rest
    requires t == a[0] && g == Raw(t) + tail && more == a[1..] + b
    ensures |g| > 0 && NextToken(g, open) == t && Tokenize(tail + rest, open) == more
  {
    FirstToken(s, open, a, b);
    Dropped(g, rest, |Raw(t)|);
    NextTokenAlone(s, open, t, g, rest);
  }

  // Tokens cut anywhere after text are read alike from where they are cut.
  lemma {:induction false} PieceBehind(s: string, open: bool, a: seq<Token>, b: seq<Token>, g: string, rest: string)
    requires Tokenize(s, open) == a + b && AllText(a) && g == Out(a) && rest == RawText(b)
    ensures s == g + rest && Tokenize(rest, open) == b
    decreases |a|
  {
    if a == [] {
      assert a + b == b;
      TokenizeGood(s, open);
    } else {
      var w, tail := Raw(a[0]), Out(a[1..]);
      FirstToken(s, open, a, b);
      PieceBehind(s[|w|..], open, a[1..], b, tail, rest);
      Grow(w, tail, rest);
    }
  }

  // They are read alike, too, when the text ends where they are cut.
  lemma {:induction false} PieceAlone(s: string, open: bool, a: seq<Token>, b: seq<Token>, g: string, rest: string)
    requires Tokenize(s, open) == a + b && AllText(a) && g == Out(a) && s == g + rest
    ensures Tokenize(g, open) == a
    decreases |a|
  {
    if |a| == 0 {
    } else {
      var t, tail := a[0], Out(a[1..]);
      FirstTokenAlone(s, open, a, b, g, rest, t, tail, a[1..] + b);
      PieceAlone(tail + rest, open, a[1..], b, tail, rest);
      TokenizeStep(g, open, t, tail);
    }
  }

  // A gap, a section body and the tokens behind them, with the markers between.
  function Section(gap: seq<Token>, body: seq<Token>, later: seq<Token>): seq<Token> {
    gap + ([Open] + (body + ([Close] + later)))
  }

  // What weaving needs of a lexer: it loses no text, reads a piece alike before the marker that
  // ends it, and recognises markers.
  predicate KeepsText(lex: Lexer, s: string, open: bool) {
    AllText(lex(s, open)) ==> Out(lex(s, open)) == s
  }

  predicate ReadsPiece(lex: Lexer, g: string, rest: string, open: bool) {
    AllText(lex(g, open)) && Ends(rest, open) ==> lex(g + rest, open) == lex(g, open) + lex(rest, open)
  }

  predicate ReadsMarks(lex: Lexer, s: string) {
    && lex(OPEN_MARK + s, false) == [Open] + lex(s, true)
    && lex(CLOSE_MARK + s, true) == [Close] + lex(s, false)
  }

  predicate SplitsAnywhere(lex: Lexer, s: string, open: bool, a: seq<Token>, b: seq<Token>) {
    lex(s, open) == a + b && AllText(a) ==> lex(Out(a), open) == a && lex(RawText(b), open) == b
  }

  ghost predicate Laws(lex: Lexer) {
    && (forall s: string, open: bool :: Alternating(lex(s, open), open))
    && (forall s: string, open: bool, a: seq<Token>, b: seq<Token> :: SplitsAnywhere(lex, s, open, a, b))
    && (forall s: string, open: bool :: KeepsText(lex, s, open))
    && (forall g: string, rest: string, open: bool :: ReadsPiece(lex, g, rest, open))
    && (forall s: string :: ReadsMarks(lex, s))
  }

  lemma TokenizeLaws(lex: Lexer)
    requires lex == ((s, open) => Tokenize(s, open))
    ensures Laws(lex)
  {
    forall s: string, open: bool ensures Alternating(lex(s, open), open) {
      TokenizeGood(s, open);
    }
    forall s: string, open: bool, a: seq<Token>, b: seq<Token> ensures SplitsAnywhere(lex, s, open, a, b) {
      if lex(s, open) == a + b && AllText(a) {
        PieceBehind(s, open, a, b, Out(a), RawText(b));
        PieceAlone(s, open, a, b, Out(a), RawText(b));
      }
    }
    forall s: string, open: bool ensures KeepsText(lex, s, open) {
      if AllText(lex(s, open)) {
        PieceWritten(s, open);
      }
    }
    forall g: string, rest: string, open: bool ensures ReadsPiece(lex, g, rest, open) {
      if AllText(lex(g, open)) && Ends(rest, open) {
        PieceBefore(g, rest, open, Tokenize(g, open), Tokenize(rest, open));
      }
    }
    forall s: string ensures ReadsMarks(lex, s) {
      MarkerFirst(s);
    }
  }

  lemma Joined(a: string, b: string, c: string, d: string, e: string)
    ensures a + b + c + d + e == a + (b + (c + (d + e)))
  {
  }

  // The tokens of the pieces, with the markers between them.
  function WovenTokens(lex: Lexer, out: string, pos: nat, secs: seq<CleanSection>): seq<Token>
    requires Laid(|out|, pos, secs, -1)
    decreases |secs|
  {
    if secs == [] then
      lex(out[pos..], false)
    else
      var p := secs[0].position;
      var end := p + secs[0].size;
      Section(lex(out[pos..p], false), lex(out[p..end], true), WovenTokens(lex, out, end, secs[1..]))
  }

  lemma SectionTokens(lex: Lexer, gap: string, body: string, later: string)
    requires Laws(lex) && AllText(lex(gap, false)) && AllText(lex(body, true))
    ensures lex(gap + OPEN_MARK + body + CLOSE_MARK + later, false) ==
            Section(lex(gap, false), lex(body, true), lex(later, false))
  {
    var s1 := CLOSE_MARK + later;
    var s2 := OPEN_MARK + (body + s1);
    Joined(gap, OPEN_MARK, body, CLOSE_MARK, later);
    assert ReadsMarks(lex, later) && ReadsPiece(lex, body, s1, true);
    assert ReadsMarks(lex, body + s1) && ReadsPiece(lex, gap, s2, false);
  }

  lemma {:induction false} WovenTokenized(lex: Lexer, out: string, pos: nat, secs: seq<CleanSection>, woven: string)
    requires Laws(lex) && Laid(|out|, pos, secs, -1) && Clean(lex, out, pos, secs) && woven == Weave(out, pos, secs, -1)
    ensures lex(woven, false) == WovenTokens(lex, out, pos, secs)
    decreases |secs|
  {
    if |secs| == 0 {
    } else {
      var p := secs[0].position;
      var end := p + secs[0].size;
      var later := Weave(out, end, secs[1..], -1);
      WovenTokenized(lex, out, end, secs[1..], later);
      SectionTokens(lex, out[pos..p], out[p..end], later);
    }
  }

  lemma OutMarker(t: Token, rest: seq<Token>)
    requires IsMarker(t)
    ensures Out([t] + rest) == Out(rest)
  {
    assert ([t] + rest)[1..] == rest;
  }

  lemma SectionWritten(gap: seq<Token>, body: seq<Token>, later: seq<Token>)
    ensures Out(Section(gap, body, later)) == Out(gap) + (Out(body) + Out(later))
  {
    var t1 := [Close] + later;
    var t2 := body + t1;
    OutConcat(gap, [Open] + t2);
    OutConcat(body, t1);
    OutMarker(Open, t2);
    OutMarker(Close, later);
  }

  lemma SectionRecorded(gap: seq<Token>, body: seq<Token>, later: seq<Token>, pos: nat, p: nat, end: nat)
    requires AllText(gap) && AllText(body) && p == pos + |Out(gap)| && end == p + |Out(body)|
    ensures var ts := Section(gap, body, later);
            && Sections(ts, pos, -1) == [CleanSection(p, end - p)] + Sections(later, end, -1)
            && Dangling(ts, pos, -1) == Dangling(later, end, -1) && HasBroken(ts) == HasBroken(later)
  {
    var t1 := [Close] + later;
    var t2 := [Open] + (body + t1);
    assert t1[1..] == later && t2[1..] == body + t1;
    AllTextConcat(gap, t2, pos, -1, p);
    AllTextConcat(body, t1, p, p, end);
  }

  // A cleanly laid out text comes back from its woven form, with its sections.
  lemma {:induction false} WovenRead(lex: Lexer, out: string, pos: nat, secs: seq<CleanSection>, ts: seq<Token>)
    requires Laws(lex) && Laid(|out|, pos, secs, -1) && Clean(lex, out, pos, secs)
    requires ts == WovenTokens(lex, out, pos, secs)
    ensures Out(ts) == out[pos..]
    ensures Sections(ts, pos, -1) == secs && Dangling(ts, pos, -1) == -1 && !HasBroken(ts)
    decreases |secs|
  {
    if secs == [] {
      assert KeepsText(lex, out[pos..], false) && ts + [] == ts;
      AllTextConcat(ts, [], pos, -1, pos + |Out(ts)|);
    } else {
      var p := secs[0].position;
      var end := p + secs[0].size;
      var gap, body, later := lex(out[pos..p], false), lex(out[p..end], true), WovenTokens(lex, out, end, secs[1..]);
      assert KeepsText(lex, out[pos..p], false) && KeepsText(lex, out[p..end], true);
      WovenRead(lex, out, end, secs[1..], later);
      SectionWritten(gap, body, later);
      SectionRecorded(gap, body, later, pos, p, end);
      Parts(out, pos, p, end);
      assert secs == [CleanSection(p, end - p)] + secs[1..];
    }
  }

  function FirstMarker(ts: seq<Token>): (k: nat)
    ensures k <= |ts|
  {
    if ts == [] || IsMarker(ts[0]) then 0 else 1 + FirstMarker(ts[1..])
  }

  lemma {:induction false} BeforeMarker(ts: seq<Token>, open: bool, k: nat)
    requires Alternating(ts, open) && !HasBroken(ts) && k == FirstMarker(ts)
    ensures AllText(ts[..k]) && Alternating(ts[k..], open)
    ensures k < |ts| ==> ts[k] == if open then Close else Open
  {
    if ts != [] && !IsMarker(ts[0]) {
      BeforeMarker(ts[1..], open, k - 1);
      assert ts[..k][1..] == ts[1..][..k - 1] && ts[k..] == ts[1..][k - 1..];
    }
  }

  // Tokens cut at their first marker.
  lemma CutAtMarker(lex: Lexer, s: string, open: bool, ts: seq<Token>, k: nat, pos: nat, start: int, next: nat)
    requires Laws(lex) && ts == lex(s, open) && !HasBroken(ts) && k == FirstMarker(ts)
    requires -1 <= start <= pos && next == pos + |Out(ts[..k])|
    ensures AllText(ts[..k]) && Out(ts) == Out(ts[..k]) + Out(ts[k..])
    ensures lex(Out(ts[..k]), open) == ts[..k] && lex(RawText(ts[k..]), open) == ts[k..]
    ensures k < |ts| ==> ts[k] == if open then Close else Open
    ensures Sections(ts, pos, start) == Sections(ts[k..], next, start)
    ensures Dangling(ts, pos, start) == Dangling(ts[k..], next, start)
    ensures !HasBroken(ts[k..])
  {
    BeforeMarker(ts, open, k);
    assert ts == ts[..k] + ts[k..];
    assert SplitsAnywhere(lex, s, open, ts[..k], ts[k..]);
    OutConcat(ts[..k], ts[k..]);
    AllTextConcat(ts[..k], ts[k..], pos, start, next);
  }

  lemma AfterMarker(lex: Lexer, open: bool, m: seq<Token>)
    requires Laws(lex) && m != [] && lex(RawText(m), open) == m && m[0] == if open then Close else Open
    ensures lex(RawText(m[1..]), !open) == m[1..]
  {
    var rest := m[1..];
    assert ReadsMarks(lex, RawText(rest));
    assert m == [m[0]] + rest;
    assert ([m[0]] + lex(RawText(rest), !open))[1..] == lex(RawText(rest), !open);
  }

  // The tokens up to the first marker and those behind it: a gap and what its opening marker opens.
  lemma UpToOpen(lex: Lexer, s: string, ts: seq<Token>, pos: nat) returns (gap: seq<Token>, inner: seq<Token>, p: nat)
    requires Laws(lex) && ts == lex(s, false) && FirstMarker(ts) < |ts| && !HasBroken(ts)
    ensures p == pos + |Out(gap)| && |inner| < |ts| && Out(ts) == Out(gap) + Out(inner)
    ensures AllText(gap) && lex(Out(gap), false) == gap
    ensures inner == lex(RawText(inner), true) && !HasBroken(inner)
    ensures Sections(ts, pos, -1) == Sections(inner, p, p) && Dangling(ts, pos, -1) == Dangling(inner, p, p)
  {
    var k := FirstMarker(ts);
    var m := ts[k..];
    gap, p := ts[..k], pos + |Out(ts[..k])|;
    CutAtMarker(lex, s, false, ts, k, pos, -1, p);
    AfterMarker(lex, false, m);
    inner := m[1..];
  }

  // Likewise inside a section opened at `p` that is closed: its body and what comes after.
  lemma UpToClose(lex: Lexer, s: string, ts: seq<Token>, p: nat) returns (body: seq<Token>, later: seq<Token>, end: nat)
    requires Laws(lex) && ts == lex(s, true) && Dangling(ts, p, p) == -1 && !HasBroken(ts)
    ensures end == p + |Out(body)| && |later| < |ts| && Out(ts) == Out(body) + Out(later)
    ensures AllText(body) && lex(Out(body), true) == body
    ensures later == lex(RawText(later), false) && Dangling(later, end, -1) == -1 && !HasBroken(later)
    ensures Sections(ts, p, p) == [CleanSection(p, end - p)] + Sections(later, end, -1)
  {
    var k := FirstMarker(ts);
    var m := ts[k..];
    body, end := ts[..k], p + |Out(ts[..k])|;
    CutAtMarker(lex, s, true, ts, k, p, p, end);
    assert m != [];
    AfterMarker(lex, true, m);
    later := m[1..];
  }

  // What pass 1 reads without an error and without a dangling marker is cleanly laid out.
  lemma {:induction false} ReadIsClean(lex: Lexer, s: string, ts: seq<Token>, out: string, pos: nat,
                                       secs: seq<CleanSection>)
    requires Laws(lex) && ts == lex(s, false) && pos <= |out| && Out(ts) == out[pos..]
    requires Sections(ts, pos, -1) == secs && Dangling(ts, pos, -1) == -1 && !HasBroken(ts)
    ensures Laid(|out|, pos, secs, -1) && Clean(lex, out, pos, secs)
    decreases |ts|
  {
    var k := FirstMarker(ts);
    if k == |ts| {
      CutAtMarker(lex, s, false, ts, k, pos, -1, pos + |Out(ts[..k])|);
      assert ts[..k] == ts && Sections(ts[k..], pos + |Out(ts)|, -1) == [];
    } else {
      var gap, inner, p := UpToOpen(lex, s, ts, pos);
      var body, later, end := UpToClose(lex, RawText(inner), inner, p);
      var secs' := Sections(later, end, -1);
      SliceOut(out, pos, Out(gap), Out(body), Out(later), p, end);
      ReadIsClean(lex, RawText(later), later, out, end, secs');
      CleanCons(lex, out, pos, p, end, Out(gap), Out(body), secs');
    }
  }

  lemma CleanCons(lex: Lexer, out: string, pos: nat, p: nat, end: nat, gap: string, body: string,
                  secs: seq<CleanSection>)
    requires pos <= p <= end <= |out| && gap == out[pos..p] && body == out[p..end]
    requires AllText(lex(gap, false)) && AllText(lex(body, true))
    requires Laid(|out|, end, secs, -1) && Clean(lex, out, end, secs)
    ensures Laid(|out|, pos, [CleanSection(p, end - p)] + secs, -1)
    ensures Clean(lex, out, pos, [CleanSection(p, end - p)] + secs)
  {
    assert ([CleanSection(p, end - p)] + secs)[1..] == secs;
  }

  lemma SliceOut(out: string, pos: nat, gap: string, body: string, later: string, p: nat, end: nat)
    requires pos <= |out| && out[pos..] == gap + (body + later) && p == pos + |gap| && end == p + |body|
    ensures end <= |out| && out[pos..p] == gap && out[p..end] == body && out[end..] == later
  {
    assert out[pos..][..|gap|] == gap && out[pos..][|gap|..] == body + later;
    assert out[p..][..|body|] == body && out[p..][|body|..] == later;
  }

  // Weaving markers around the sections of a text and preprocessing the result gives back exactly
  // that text and those sections, leaving nothing open, if and only if the text is cleanly laid out.
  lemma WeavingRoundTrip(out: string, secs: seq<CleanSection>)
    requires Laid(|out|, 0, secs, -1)
    ensures var woven := Weave(out, 0, secs, -1);
            CleanLayout(out, secs) <==>
            && Preprocessed(woven) == Processed(out, secs)
            && !HasBroken(Tokenize(woven, false)) && Dangling(Tokenize(woven, false), 0, -1) == -1
  {
    var lex := (s, open) => Tokenize(s, open);
    var woven := Weave(out, 0, secs, -1);
    var ts := Tokenize(woven, false);
    TokenizeLaws(lex);
    if CleanLayout(out, secs) {
      WovenTokenized(lex, out, 0, secs, woven);
      WovenRead(lex, out, 0, secs, ts);
    } else if Preprocessed(woven) == Processed(out, secs) && !HasBroken(ts) && Dangling(ts, 0, -1) == -1 {
      ReadIsClean(lex, woven, ts, out, 0, secs);
    }
  }

  // Every text that pass 1 reads without an error and without a dangling marker is such a weave.
  lemma PreprocessedIsClean(text: string)
    requires !HasBroken(Tokenize(text, false)) && Dangling(Tokenize(text, false), 0, -1) == -1
    ensures var p := Preprocessed(text);
            Laid(|p.text|, 0, p.sections, -1) && CleanLayout(p.text, p.sections) &&
            Weave(p.text, 0, p.sections, -1) == text
  {
    var lex := (s, open) => Tokenize(s, open);
    var p := Preprocessed(text);
    TokenizeLaws(lex);
    ReadIsClean(lex, text, Tokenize(text, false), p.text, 0, p.sections);
    ErasureRoundTrip(text);
  }
}

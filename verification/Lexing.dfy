/**
 The lexical rules shared by both passes of the query-template compiler. The first half reads the
 text that is left, so a span is a length; the second half reads from a caret position, so a span
 is the position at which a literal ends.
 */
module Lexing {

  // How far a literal reaches, and whether it was terminated.
  datatype Span = Span(len: nat, closed: bool)

  // The span seen from `n` characters earlier.
  function Shifted(n: nat, r: Span): Span {
    Span(n + r.len, r.closed)
  }

  predicate IsNameChar(c: char) {
    'a' <= c <= 'z' || 'A' <= c <= 'Z' || '0' <= c <= '9' || c == '_' || c == '.'
  }

  predicate StartsLiteral(c: char) {
    c == '\'' || c == '$'
  }

  // The distance to the next `c`, or the length of the text when there is none.
  function IndexOf(s: string, c: char): (n: nat)
    ensures n <= |s|
  {
    if |s| == 0 || s[0] == c then 0 else 1 + IndexOf(s[1..], c)
  }

  // The length of the longest run of name characters the text starts with.
  function NameLen(s: string): (n: nat)
    ensures n <= |s|
  {
    if |s| == 0 || !IsNameChar(s[0]) then 0 else 1 + NameLen(s[1..])
  }

  // A run of adjacent quoted strings, `inside` telling whether one is open; two adjacent ones
  // spell an escaped quote.
  function QuoteSpan(s: string, inside: bool): (r: Span)
    ensures r.len <= |s|
    ensures !r.closed ==> r.len == |s|
  {
    if |s| == 0 then
      Span(0, !inside)
    else if s[0] == '\'' then
      Shifted(1, QuoteSpan(s[1..], !inside))
    else if inside then
      Shifted(1, QuoteSpan(s[1..], true))
    else
      Span(0, true)
  }

  // The body of a dollar literal: up to and including the first `$` that is followed by `term`.
  function TermSpan(s: string, term: string): (r: Span)
    ensures r.len <= |s|
    ensures !r.closed ==> r.len == |s|
    ensures r.closed ==> 1 + |term| <= r.len
  {
    if |s| == 0 then
      Span(0, false)
    else if s[0] == '$' && term <= s[1..] then
      Span(1 + |term|, true)
    else
      Shifted(1, TermSpan(s[1..], term))
  }

  // The rest of a dollar literal after its first `$`. The terminator sought after a `$` is the tag
  // together with the `$` that ends the tag.
  function TagSpan(s: string): (r: Span)
    ensures r.len <= |s|
    ensures !r.closed ==> r.len == |s|
    ensures r.closed ==> r.len > 0
  {
    var j := IndexOf(s, '$');
    if j == |s| then Span(|s|, false) else Shifted(j + 1, TermSpan(s[j + 1..], s[..j + 1]))
  }

  // `$tag$ ... $tag$`.
  function DollarSpan(s: string): (r: Span)
    ensures r.len <= |s|
    ensures !r.closed && |s| > 0 && s[0] == '$' ==> r.len == |s|
    ensures r.closed ==> |s| > 0 && s[0] == '$' && r.len > 1
  {
    if |s| == 0 || s[0] != '$' then Span(0, false) else Shifted(1, TagSpan(s[1..]))
  }

  function LiteralSpan(s: string): (r: Span)
    requires |s| > 0 && StartsLiteral(s[0])
    ensures 0 < r.len <= |s|
    ensures !r.closed ==> r.len == |s|
  {
    if s[0] == '\'' then QuoteSpan(s, false) else DollarSpan(s)
  }

  // ---------- What the rules mean ----------

  lemma {:induction false} IndexOfHit(s: string, c: char)
    requires IndexOf(s, c) < |s|
    ensures s[IndexOf(s, c)] == c
  {
    if s[0] != c {
      IndexOfHit(s[1..], c);
    }
  }

  // A terminated run of quoted strings ends with a quote and is not followed by one.
  lemma {:induction false} QuoteSpanEnds(s: string, inside: bool, n: nat)
    requires QuoteSpan(s, inside) == Span(n, true)
    ensures n < |s| ==> s[n] != '\''
    ensures n > 0 ==> s[n - 1] == '\''
    ensures inside ==> n > 0
  {
    if |s| > 0 && (inside || s[0] == '\'') {
      QuoteSpanEnds(s[1..], (s[0] == '\'') != inside, n - 1);
    }
  }

  lemma {:induction false} TermSpanEnds(s: string, term: string, n: nat)
    requires TermSpan(s, term) == Span(n, true) && |term| > 0
    ensures s[n - 1] == term[|term| - 1]
  {
    if s[0] == '$' && term <= s[1..] {
      assert s[1..][|term| - 1] == term[|term| - 1];
    } else {
      TermSpanEnds(s[1..], term, n - 1);
    }
  }

  lemma TagSpanEnds(s: string, n: nat)
    requires TagSpan(s) == Span(n, true)
    ensures s[n - 1] == '$'
  {
    var j := IndexOf(s, '$');
    IndexOfHit(s, '$');
    TermSpanEnds(s[j + 1..], s[..j + 1], n - j - 1);
  }

  // ---------- A terminated literal reads the same whatever follows it ----------

  lemma {:induction false} IndexOfConcat(s: string, t: string, c: char)
    requires IndexOf(s, c) < |s|
    ensures IndexOf(s + t, c) == IndexOf(s, c)
  {
    if s[0] != c {
      assert (s + t)[1..] == s[1..] + t;
      IndexOfConcat(s[1..], t, c);
    }
  }

  lemma {:induction false} QuoteSpanConcat(s: string, inside: bool, t: string)
    requires QuoteSpan(s, inside) == Span(|s|, true)
    ensures QuoteSpan(s + t, inside) == Shifted(|s|, QuoteSpan(t, false))
  {
    if |s| == 0 {
      assert s + t == t;
    } else {
      assert (s + t)[1..] == s[1..] + t;
      QuoteSpanConcat(s[1..], (s[0] == '\'') != inside, t);
    }
  }

  lemma {:induction false} QuoteSpanCut(s: string, inside: bool, n: nat)
    requires n <= |s| && QuoteSpan(s, inside) == Span(n, true)
    ensures QuoteSpan(s[..n], inside) == Span(n, true)
  {
    if n == 0 {
    } else {
      assert s[..n][1..] == s[1..][..n - 1];
      QuoteSpanCut(s[1..], (s[0] == '\'') != inside, n - 1);
    }
  }

  lemma PrefixOfLonger(p: string, s: string, t: string)
    requires |p| <= |s|
    ensures p <= s + t <==> p <= s
  {
    assert (s + t)[..|p|] == s[..|p|];
  }

  lemma {:induction false} TermSpanConcat(s: string, term: string, t: string)
    requires TermSpan(s, term).closed
    ensures TermSpan(s + t, term) == TermSpan(s, term)
  {
    assert (s + t)[1..] == s[1..] + t;
    if |term| <= |s[1..]| {
      PrefixOfLonger(term, s[1..], t);
    }
    if !(s[0] == '$' && term <= s[1..]) {
      TermSpanConcat(s[1..], term, t);
    }
  }

  lemma {:induction false} TermSpanCut(s: string, term: string, n: nat)
    requires n <= |s| && TermSpan(s, term) == Span(n, true)
    ensures TermSpan(s[..n], term) == Span(n, true)
  {
    var rest := s[1..];
    assert s[..n][1..] == rest[..n - 1];
    assert rest == rest[..n - 1] + rest[n - 1..];
    if |term| <= n - 1 {
      PrefixOfLonger(term, rest[..n - 1], rest[n - 1..]);
    }
    if !(s[0] == '$' && term <= rest) {
      TermSpanCut(rest, term, n - 1);
    }
  }

  lemma TagSpanConcat(s: string, t: string)
    requires TagSpan(s).closed
    ensures TagSpan(s + t) == TagSpan(s)
  {
    var j := IndexOf(s, '$');
    IndexOfConcat(s, t, '$');
    assert (s + t)[j + 1..] == s[j + 1..] + t;
    assert (s + t)[..j + 1] == s[..j + 1];
    TermSpanConcat(s[j + 1..], s[..j + 1], t);
  }

  lemma {:induction false} IndexOfCut(s: string, c: char, n: nat)
    requires IndexOf(s, c) < n <= |s|
    ensures IndexOf(s[..n], c) == IndexOf(s, c)
  {
    if s[0] != c {
      assert s[..n][1..] == s[1..][..n - 1];
      IndexOfCut(s[1..], c, n - 1);
    }
  }

  lemma TagSpanCut(s: string, n: nat)
    requires n <= |s| && TagSpan(s) == Span(n, true)
    ensures TagSpan(s[..n]) == Span(n, true)
  {
    var j := IndexOf(s, '$');
    IndexOfCut(s, '$', n);
    assert s[..n][j + 1..] == s[j + 1..][..n - j - 1];
    assert s[..n][..j + 1] == s[..j + 1];
    TermSpanCut(s[j + 1..], s[..j + 1], n - j - 1);
  }

  // A literal cut at its end is a literal on its own.
  lemma LiteralSpanCut(s: string, n: nat)
    requires 0 < n <= |s| && StartsLiteral(s[0]) && LiteralSpan(s) == Span(n, true)
    ensures LiteralSpan(s[..n]) == Span(n, true)
  {
    if s[0] == '\'' {
      QuoteSpanCut(s, false, n);
    } else {
      assert s[..n][1..] == s[1..][..n - 1];
      TagSpanCut(s[1..], n - 1);
    }
  }

  // A whole literal followed by anything but a quote still ends where it did; a dollar literal
  // does so before a quote as well.
  lemma LiteralSpanConcat(s: string, t: string)
    requires |s| > 0 && StartsLiteral(s[0]) && LiteralSpan(s) == Span(|s|, true)
    requires s[0] == '\'' && |t| > 0 ==> t[0] != '\''
    ensures LiteralSpan(s + t) == Span(|s|, true)
  {
    if s[0] == '\'' {
      QuoteSpanConcat(s, false, t);
    } else {
      assert (s + t)[1..] == s[1..] + t;
      TagSpanConcat(s[1..], t);
    }
  }

  // ---------- The same rules as a caret meets them ----------

  function FindFrom(data: string, pos: nat, c: char): (next: nat)
    requires pos <= |data|
    ensures pos <= next <= |data|
    decreases |data| - pos
  {
    if pos == |data| || data[pos] == c then pos else FindFrom(data, pos + 1, c)
  }

  predicate TextAt(data: string, pos: nat, text: string)
    requires pos <= |data|
  {
    pos + |text| <= |data| && data[pos..pos + |text|] == text
  }

  function NameEnd(data: string, pos: nat): (end: nat)
    requires pos <= |data|
    ensures pos <= end <= |data|
    decreases |data| - pos
  {
    if pos == |data| || !IsNameChar(data[pos]) then pos else NameEnd(data, pos + 1)
  }

  function QuotesEnd(data: string, pos: nat, inside: bool): (r: Span)
    requires pos <= |data|
    ensures pos <= r.len <= |data|
    ensures !r.closed ==> r.len == |data|
    decreases |data| - pos
  {
    if pos == |data| then
      Span(pos, !inside)
    else if data[pos] == '\'' then
      QuotesEnd(data, pos + 1, !inside)
    else if inside then
      QuotesEnd(data, pos + 1, true)
    else
      Span(pos, true)
  }

  function TermEnd(data: string, pos: nat, term: string): (r: Span)
    requires pos <= |data|
    ensures pos <= r.len <= |data|
    ensures !r.closed ==> r.len == |data|
    decreases |data| - pos
  {
    if pos == |data| then
      Span(pos, false)
    else if data[pos] == '$' && TextAt(data, pos + 1, term) then
      Span(pos + 1 + |term|, true)
    else
      TermEnd(data, pos + 1, term)
  }

  function TagEnd(data: string, pos: nat): (r: Span)
    requires pos <= |data|
    ensures pos <= r.len <= |data|
    ensures !r.closed ==> r.len == |data|
  {
    var next := FindFrom(data, pos, '$');
    if next == |data| then Span(next, false) else TermEnd(data, next + 1, data[pos..next + 1])
  }

  function DollarsEnd(data: string, pos: nat): (r: Span)
    requires pos <= |data|
    ensures pos <= r.len <= |data|
  {
    if pos == |data| || data[pos] != '$' then Span(pos, false) else TagEnd(data, pos + 1)
  }

  function LiteralEnd(data: string, pos: nat): (r: Span)
    requires pos < |data| && StartsLiteral(data[pos])
    ensures pos < r.len <= |data|
    ensures !r.closed ==> r.len == |data|
  {
    if data[pos] == '\'' then QuotesEnd(data, pos, false) else DollarsEnd(data, pos)
  }

  // An open quoted string runs to the next quote.
  lemma {:induction false} QuotesRound(data: string, pos: nat)
    requires pos <= |data|
    ensures var next := FindFrom(data, pos, '\'');
            QuotesEnd(data, pos, true) ==
            if next == |data| then Span(next, false) else QuotesEnd(data, next + 1, false)
    decreases |data| - pos
  {
    if pos < |data| && data[pos] != '\'' {
      QuotesRound(data, pos + 1);
    }
  }

  // The closing tag is tried at the next `$`.
  lemma {:induction false} TermRound(data: string, pos: nat, term: string)
    requires pos <= |data|
    ensures var next := FindFrom(data, pos, '$');
            TermEnd(data, pos, term) ==
            if next == |data| then Span(next, false)
            else if TextAt(data, next + 1, term) then Span(next + 1 + |term|, true)
            else TermEnd(data, next + 1, term)
    decreases |data| - pos
  {
    if pos < |data| && data[pos] != '$' {
      TermRound(data, pos + 1, term);
    }
  }

  lemma {:induction false} FindFromIsIndexOf(data: string, pos: nat, c: char)
    requires pos <= |data|
    ensures FindFrom(data, pos, c) == pos + IndexOf(data[pos..], c)
    decreases |data| - pos
  {
    if pos < |data| && data[pos] != c {
      FindFromIsIndexOf(data, pos + 1, c);
      assert data[pos..][1..] == data[pos + 1..];
    }
  }

  // A name takes all the name characters there are.
  lemma {:induction false} NameEndMaximal(data: string, pos: nat)
    requires pos <= |data|
    ensures forall k :: pos <= k < NameEnd(data, pos) ==> IsNameChar(data[k])
    ensures NameEnd(data, pos) < |data| ==> !IsNameChar(data[NameEnd(data, pos)])
    decreases |data| - pos
  {
    if pos < |data| && IsNameChar(data[pos]) {
      NameEndMaximal(data, pos + 1);
    }
  }

  lemma {:induction false} NameEndIsNameLen(data: string, pos: nat)
    requires pos <= |data|
    ensures NameEnd(data, pos) == pos + NameLen(data[pos..])
    decreases |data| - pos
  {
    if pos < |data| && IsNameChar(data[pos]) {
      NameEndIsNameLen(data, pos + 1);
      assert data[pos..][1..] == data[pos + 1..];
    }
  }

  lemma {:induction false} QuotesEndIsQuoteSpan(data: string, pos: nat, inside: bool)
    requires pos <= |data|
    ensures QuotesEnd(data, pos, inside) == Shifted(pos, QuoteSpan(data[pos..], inside))
    decreases |data| - pos
  {
    if pos == |data| {
    } else {
      assert data[pos..][1..] == data[pos + 1..];
      QuotesEndIsQuoteSpan(data, pos + 1, (data[pos] == '\'') != inside);
    }
  }

  lemma TextAtIsPrefix(data: string, pos: nat, text: string, s: string)
    requires pos <= |data| && s == data[pos..]
    ensures TextAt(data, pos, text) <==> text <= s
  {
    if |text| <= |s| {
      assert s[..|text|] == data[pos..pos + |text|];
    }
  }

  lemma {:induction false} TermEndIsTermSpan(data: string, pos: nat, term: string, s: string, tag: string)
    requires pos <= |data| && s == data[pos..] && tag == term
    ensures TermEnd(data, pos, term) == Shifted(pos, TermSpan(s, tag))
    decreases |data| - pos
  {
    if pos == |data| {
    } else {
      TextAtIsPrefix(data, pos + 1, term, s[1..]);
      TermEndIsTermSpan(data, pos + 1, term, s[1..], tag);
    }
  }

  lemma ShiftedTwice(pos: nat, n: nat, next: nat, r: Span)
    requires next == pos + n
    ensures Shifted(pos, Shifted(n + 1, r)) == Shifted(next + 1, r)
  {
  }

  // The tag is not ended, or it is and the text behind it is searched for the tag.
  lemma TagNotEnded(data: string, pos: nat, s: string)
    requires pos <= |data| && s == data[pos..] && FindFrom(data, pos, '$') == |data| && IndexOf(s, '$') == |s|
    ensures TagEnd(data, pos) == Shifted(pos, TagSpan(s))
  {
  }

  lemma TagEnded(data: string, pos: nat, s: string, next: nat, n: nat, tag: string, r: Span)
    requires pos <= |data| && s == data[pos..] && next == FindFrom(data, pos, '$') < |data|
    requires n == IndexOf(s, '$') < |s| && next == pos + n && tag == s[..n + 1] == data[pos..next + 1]
    requires r == TermSpan(s[n + 1..], tag) && TermEnd(data, next + 1, tag) == Shifted(next + 1, r)
    ensures TagEnd(data, pos) == Shifted(pos, TagSpan(s))
  {
    ShiftedTwice(pos, n, next, r);
  }

  lemma TagEndIsTagSpan(data: string, pos: nat, s: string)
    requires pos <= |data| && s == data[pos..]
    ensures TagEnd(data, pos) == Shifted(pos, TagSpan(s))
  {
    var next, n := FindFrom(data, pos, '$'), IndexOf(s, '$');
    FindFromIsIndexOf(data, pos, '$');
    if n == |s| {
      TagNotEnded(data, pos, s);
    } else {
      var tag := s[..n + 1];
      var r := TermSpan(s[n + 1..], tag);
      TermEndIsTermSpan(data, next + 1, tag, s[n + 1..], tag);
      TagEnded(data, pos, s, next, n, tag, r);
    }
  }

  lemma LiteralEndIsLiteralSpan(data: string, pos: nat)
    requires pos < |data| && StartsLiteral(data[pos])
    ensures LiteralEnd(data, pos) == Shifted(pos, LiteralSpan(data[pos..]))
  {
    if data[pos] == '\'' {
      QuotesEndIsQuoteSpan(data, pos, false);
    } else {
      assert data[pos..][1..] == data[pos + 1..];
      TagEndIsTagSpan(data, pos + 1, data[pos + 1..]);
    }
  }
}

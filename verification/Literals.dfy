/**
 What literals stand for: a text quoted with its quotes doubled, or put between two equal dollar tags,
 is one whole literal, and nothing of what follows belongs to it.
 */
module Literals {
  import opened Lexing

  // The text with every quote doubled.
  function Escaped(s: string): string {
    if |s| == 0 then ""
    else (if s[0] == '\'' then "''" else [s[0]]) + Escaped(s[1..])
  }

  lemma QuoteSpanCons(c: char, s: string, inside: bool)
    ensures QuoteSpan([c] + s, inside) ==
            if c == '\'' then Shifted(1, QuoteSpan(s, !inside))
            else if inside then Shifted(1, QuoteSpan(s, true))
            else Span(0, true)
  {
    assert ([c] + s)[1..] == s;
  }

  // Behind an opening quote, an escaped text is passed over whole.
  lemma {:induction false} EscapedPassed(s: string, tail: string, text: string, e: string)
    requires e == Escaped(s) && text == e + tail
    ensures QuoteSpan(text, true) == Shifted(|e|, QuoteSpan(tail, true))
    decreases |s|
  {
    if |s| == 0 {
      assert text == tail;
    } else {
      var e', text' := Escaped(s[1..]), Escaped(s[1..]) + tail;
      EscapedPassed(s[1..], tail, text', e');
      if s[0] == '\'' {
        assert text == ['\''] + (['\''] + text');
        QuoteSpanCons('\'', ['\''] + text', true);
        QuoteSpanCons('\'', text', false);
      } else {
        assert text == [s[0]] + text';
        QuoteSpanCons(s[0], text', true);
      }
    }
  }

  // A quoted text is a literal that ends with its closing quote, unless another quote follows.
  lemma QuotedIsLiteral(s: string, rest: string, text: string)
    requires text == "'" + (Escaped(s) + ("'" + rest)) && (rest != "" ==> rest[0] != '\'')
    ensures LiteralSpan(text) == Span(2 + |Escaped(s)|, true)
  {
    var e, tail := Escaped(s), "'" + rest;
    EscapedPassed(s, tail, e + tail, e);
    QuoteSpanCons('\'', e + tail, false);
    QuoteSpanCons('\'', rest, true);
  }

  // Without its closing quote it is not terminated.
  lemma UnquotedIsOpen(s: string, text: string)
    requires text == "'" + Escaped(s)
    ensures LiteralSpan(text) == Span(|text|, false)
  {
    var e := Escaped(s);
    EscapedPassed(s, "", e, e);
    QuoteSpanCons('\'', e, false);
  }

  // The mark does not come up in the body, nor where the body runs into the closing mark.
  predicate NotWithin(mark: string, body: string) {
    |body| > 0 ==> !(mark <= body + mark) && NotWithin(mark, body[1..])
  }

  lemma MarkAhead(mark: string, body: string, rest: string, text: string)
    requires text == body + (mark + rest)
    ensures mark <= text <==> mark <= body + mark
  {
    assert text[..|body| + |mark|] == body + mark;
    if |mark| <= |text| {
      assert text[..|mark|] == (body + mark)[..|mark|];
    }
  }

  lemma {:induction false} TermFound(term: string, body: string, rest: string, mark: string, text: string)
    requires mark == ['$'] + term && NotWithin(mark, body) && text == body + (mark + rest)
    ensures TermSpan(text, term) == Span(|body| + |mark|, true)
    decreases |body|
  {
    if |body| == 0 {
      assert text[1..] == term + rest;
    } else {
      assert text[1..] == body[1..] + (mark + rest);
      MarkAhead(mark, body, rest, text);
      MarkSplits(term, text, mark);
      TermFound(term, body[1..], rest, mark, text[1..]);
    }
  }

  lemma MarkSplits(term: string, text: string, mark: string)
    requires mark == ['$'] + term && |text| > 0
    ensures mark <= text <==> text[0] == '$' && term <= text[1..]
  {
    if text[0] == '$' && term <= text[1..] {
      assert text[..|mark|] == [text[0]] + text[1..][..|term|];
    }
    if mark <= text {
      assert mark[1..] == term && text[1..][..|term|] == text[1..|mark|] == mark[1..];
    }
  }

  lemma {:induction false} TagRead(tag: string, rest: string, text: string)
    requires (forall i :: 0 <= i < |tag| ==> tag[i] != '$') && text == tag + (['$'] + rest)
    ensures IndexOf(text, '$') == |tag|
    decreases |tag|
  {
    if |tag| == 0 {
    } else {
      assert text[1..] == tag[1..] + (['$'] + rest);
      TagRead(tag[1..], rest, text[1..]);
    }
  }

  // A text between two equal dollar tags is a literal that ends with the second.
  lemma TaggedIsLiteral(tag: string, body: string, rest: string, mark: string, text: string)
    requires forall i :: 0 <= i < |tag| ==> tag[i] != '$'
    requires mark == ['$'] + (tag + ['$']) && NotWithin(mark, body) && text == mark + (body + (mark + rest))
    ensures LiteralSpan(text) == Span(2 * |mark| + |body|, true)
  {
    var term, behind := tag + ['$'], body + (mark + rest);
    assert text[1..] == tag + (['$'] + behind);
    TagRead(tag, behind, text[1..]);
    assert text[1..][|tag| + 1..] == behind && text[1..][..|tag| + 1] == term;
    TermFound(term, body, rest, mark, behind);
  }
}

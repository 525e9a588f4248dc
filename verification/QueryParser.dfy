/**
 The query-template parser: pass 1 (`Preprocess`) erases section markers, pass 2
 (`ParseTemplate`) finds the named parameters of what is left.
 */
module QueryParser {
  import opened Wrappers
  import opened Lexing
  import opened Tokens
  import opened Carets

  // A named parameter: `posEnd` is the position of its last character.
  datatype Variable = Variable(posStart: nat, posEnd: nat, name: string)

  datatype StringTemplate = StringTemplate(text: string, variables: seq<Variable>)

  datatype ParsingError = ParsingError(position: nat)

  // ---------- Lexing with a caret ----------

  method SkipStringInQuotes(caret: Caret)
    requires caret.Valid() && !caret.hasError
    modifies caret
    ensures caret.Valid()
    ensures Span(caret.pos, !caret.hasError) == QuotesEnd(caret.data, old(caret.pos), false)
  {
    ghost var whole := QuotesEnd(caret.data, caret.pos, false);
    var unclosed := false;
    while true
      invariant caret.Valid() && !caret.hasError
      invariant whole == if unclosed then Span(caret.pos, false) else QuotesEnd(caret.data, caret.pos, false)
      invariant unclosed ==> caret.pos == |caret.data|
      decreases |caret.data| - caret.pos
    {
      var more := caret.CanContinueAtChar('\'');
      if !more {
        break;
      }
      unclosed := true;
      QuotesRound(caret.data, caret.pos);
      var found := caret.FindChar('\'');
      if found {
        caret.Inc(1);
        unclosed := false;
      }
    }
    if unclosed {
      caret.SetError();
    }
  }

  // A dollar literal from behind its first dollar on.
  lemma DollarsOpened(data: string, pos: nat, start: nat, next: nat)
    requires pos < |data| && data[pos] == '$' && start == pos + 1 && next == FindFrom(data, start, '$')
    ensures DollarsEnd(data, pos) ==
            if next == |data| then Span(next, false) else TermEnd(data, next + 1, data[start..next + 1])
  {
  }

  // One round of the search for the tag that closes it.
  lemma TermSought(data: string, pos: nat, term: string, next: nat, behind: nat)
    requires pos <= |data| && next == FindFrom(data, pos, '$') && behind == next + 1
    ensures next == |data| ==> TermEnd(data, pos, term) == TermEnd(data, next, term)
    ensures next < |data| ==>
              TermEnd(data, pos, term) ==
              if TextAt(data, behind, term) then Span(behind + |term|, true) else TermEnd(data, behind, term)
  {
    TermRound(data, pos, term);
  }

  method SkipStringInDollars(caret: Caret)
    requires caret.Valid() && !caret.hasError
    modifies caret
    ensures caret.Valid()
    ensures Span(caret.pos, !caret.hasError) == DollarsEnd(caret.data, old(caret.pos))
  {
    ghost var whole := DollarsEnd(caret.data, caret.pos);
    var atDollar := caret.CanContinueAtChar('$');
    if atDollar {
      var labelStart := caret.pos;
      var found := caret.FindChar('$');
      DollarsOpened(caret.data, labelStart - 1, labelStart, caret.pos);
      if !found {
        caret.SetError();
        return;
      }
      caret.Inc(1);
      var term := caret.data[labelStart..caret.pos];
      while caret.CanContinue()
        invariant caret.Valid() && !caret.hasError && labelStart < caret.pos
        invariant whole == TermEnd(caret.data, caret.pos, term)
        decreases |caret.data| - caret.pos
      {
        ghost var next := FindFrom(caret.data, caret.pos, '$');
        ghost var behind := next + 1;
        TermSought(caret.data, caret.pos, term, next, behind);
        found := caret.FindChar('$');
        if found {
          caret.Inc(1);
          assert caret.pos == behind;
          var closed := caret.IsAtText(term);
          if closed {
            return;
          }
        }
      }
    }
    caret.SetError();
  }

  function VariableAt(out: string, pos: nat): (v: Variable)
    requires pos < |out|
    ensures v.posStart == pos && v.posEnd < |out|
  {
    var end := NameEnd(out, pos + 1);
    Variable(pos, end - 1, out[pos + 1..end])
  }

  // The parameter at the caret. None stands for the null name the original leaves when the caret
  // is not at a colon.
  method ParseIdentifier(caret: Caret) returns (result: Option<Variable>)
    requires caret.Valid() && !caret.hasError
    modifies caret
    ensures caret.Valid()
    ensures if old(caret.pos) < |caret.data| && caret.data[old(caret.pos)] == ':' then
              && result == Some(VariableAt(caret.data, old(caret.pos)))
              && caret.pos == result.value.posEnd + 1
              && !caret.hasError
            else
              result == None && caret.pos == old(caret.pos) && caret.hasError
  {
    var posStart := caret.pos;
    var atColon := caret.CanContinueAtChar(':');
    if !atColon {
      caret.SetError();
      return None;
    }
    var labelStart := caret.pos;
    while caret.CanContinue()
      invariant caret.Valid() && !caret.hasError && labelStart <= caret.pos
      invariant NameEnd(caret.data, caret.pos) == NameEnd(caret.data, labelStart)
      decreases |caret.data| - caret.pos
    {
      var a := caret.data[caret.pos];
      if !IsNameChar(a) {
        return Some(Variable(posStart, caret.pos - 1, caret.data[labelStart..caret.pos]));
      }
      caret.Inc(1);
    }
    return Some(Variable(posStart, caret.pos - 1, caret.data[labelStart..caret.pos]));
  }

  // ---------- Pass 1 ----------

  // What pass 1 ends with: `start` is its final section start, `failed` its caret's error flag.
  datatype Pass1 = Pass1(text: string, sections: seq<CleanSection>, start: int, failed: bool)

  // Pass 1 from `pos` on, `ss` having been written and `secs` recorded.
  ghost function PassOne(text: string, pos: nat, ss: string, secs: seq<CleanSection>, start: int): Pass1
    requires pos <= |text| && -1 <= start <= |ss|
    decreases |text| - pos
  {
    if pos == |text| then
      Pass1(ss, secs, start, false)
    else if StartsLiteral(text[pos]) then
      var r := LiteralEnd(text, pos);
      if r.closed then
        PassOne(text, r.len, ss + text[pos..r.len], secs, start)
      else
        Pass1(ss + text[pos..], secs, start, true)
    else if text[pos] == '<' && start == -1 && TextAt(text, pos, OPEN_MARK) then
      PassOne(text, pos + 3, ss, secs, |ss|)
    else if text[pos] == '!' && start != -1 && TextAt(text, pos, CLOSE_MARK) then
      PassOne(text, pos + 3, ss, secs + [CleanSection(start, |ss| - start)], -1)
    else
      PassOne(text, pos + 1, ss + [text[pos]], secs, start)
  }

  lemma PassOneLiteral(text: string, pos: nat, ss: string, secs: seq<CleanSection>, start: int, r: Span)
    requires pos < |text| && -1 <= start <= |ss| && StartsLiteral(text[pos]) && r == LiteralEnd(text, pos)
    ensures PassOne(text, pos, ss, secs, start) ==
            if r.closed then PassOne(text, r.len, ss + text[pos..r.len], secs, start)
            else Pass1(ss + text[pos..r.len], secs, start, true)
  {
  }

  // What reading one token does to the state of pass 1.
  ghost predicate Stepped(t: Token, ss: string, secs: seq<CleanSection>, start: int, ss': string,
                          secs': seq<CleanSection>, start': int)
  {
    match t
    case Plain(c) => ss' == ss + [c] && secs' == secs && start' == start
    case Literal(w, _) => ss' == ss + w && secs' == secs && start' == start
    case Open => ss' == ss && secs' == secs && start' == |ss|
    case Close =>
      0 <= start <= |ss| && ss' == ss && secs' == secs + [CleanSection(start, |ss| - start)] && start' == -1
  }

  // One step of pass 1 consumes one token of the text that is left.
  lemma PassOneStep(text: string, pos: nat, ss: string, secs: seq<CleanSection>, start: int, s: string, t: Token)
    returns (pos': nat, ss': string, secs': seq<CleanSection>, start': int)
    requires pos < |text| && -1 <= start <= |ss| && s == text[pos..] && t == NextToken(s, start != -1)
    ensures pos < pos' == pos + |Raw(t)| <= |text| && -1 <= start' <= |ss'|
    ensures Stepped(t, ss, secs, start, ss', secs', start')
    ensures PassOne(text, pos, ss, secs, start) ==
            if IsBroken(t) then Pass1(ss', secs', start', true) else PassOne(text, pos', ss', secs', start')
  {
    if StartsLiteral(text[pos]) {
      LiteralEndIsLiteralSpan(text, pos);
      var r := LiteralEnd(text, pos);
      assert r.len == pos + |t.text| && text[pos..r.len] == t.text;
      assert !r.closed ==> text[pos..] == t.text;
      pos', ss', secs', start' := r.len, ss + t.text, secs, start;
    } else {
      TextAtIsPrefix(text, pos, OPEN_MARK, s);
      TextAtIsPrefix(text, pos, CLOSE_MARK, s);
      if t.Open? {
        pos', ss', secs', start' := pos + 3, ss, secs, |ss|;
      } else if t.Close? {
        pos', ss', secs', start' := pos + 3, ss, secs + [CleanSection(start, |ss| - start)], -1;
      } else {
        pos', ss', secs', start' := pos + 1, ss + [text[pos]], secs, start;
      }
    }
  }

  // What pass 1 ends with when it has written `ss`, recorded `secs` and has `ts` left to read.
  ghost function Finished(ss: string, secs: seq<CleanSection>, start: int, ts: seq<Token>): Pass1
    requires -1 <= start <= |ss|
  {
    Pass1(ss + Out(ts), secs + Sections(ts, |ss|, start), Dangling(ts, |ss|, start), HasBroken(ts))
  }

  lemma FinishedStep(ss: string, secs: seq<CleanSection>, start: int, ts: seq<Token>, ss': string,
                     secs': seq<CleanSection>, start': int)
    requires -1 <= start <= |ss| && -1 <= start' <= |ss'| && |ts| > 0 && (IsBroken(ts[0]) ==> |ts| == 1)
    requires Stepped(ts[0], ss, secs, start, ss', secs', start')
    ensures Finished(ss, secs, start, ts) ==
            if IsBroken(ts[0]) then Pass1(ss', secs', start', true) else Finished(ss', secs', start', ts[1..])
  {
    Grow(ss, Written(ts[0]), Out(ts[1..]));
    if ts[0].Close? {
      Grow(secs, [CleanSection(start, |ss| - start)], Sections(ts[1..], |ss|, -1));
    } else if IsBroken(ts[0]) {
      var none := ts[1..];
      var end := |ss| + |ts[0].text|;
      assert none == [] && Out(none) == "" && Sections(none, end, start) == [] && Dangling(none, end, start) == start;
      Grow(ts[0].text, [], []);
      Grow(secs, [], []);
    }
  }

  lemma LeftAfter(text: string, pos: nat, s: string, n: nat, left: string)
    requires pos <= |text| && s == text[pos..] && n <= |s| && left == s[n..]
    ensures left == text[pos + n..]
  {
  }

  // Reading on with a caret is reading the tokens that are left.
  lemma {:induction false} PassOneReadsTokens(text: string, pos: nat, ss: string, secs: seq<CleanSection>, start: int,
                                              s: string, ts: seq<Token>)
    requires pos <= |text| && -1 <= start <= |ss| && s == text[pos..] && ts == Tokenize(s, start != -1)
    ensures PassOne(text, pos, ss, secs, start) == Finished(ss, secs, start, ts)
    decreases |text| - pos
  {
    if pos < |text| {
      var t := NextToken(s, start != -1);
      var left := s[|Raw(t)|..];
      var pos', ss', secs', start' := PassOneStep(text, pos, ss, secs, start, s, t);
      FinishedStep(ss, secs, start, ts, ss', secs', start');
      if !IsBroken(t) {
        LeftAfter(text, pos, s, |Raw(t)|, left);
        PassOneReadsTokens(text, pos', ss', secs', start', left, ts[1..]);
      }
    } else {
      assert ts == [];
      Grow(ss, [], []);
      Grow(secs, [], []);
    }
  }

  // Erases the markers of clean sections. `unterminated` is the error flag of the local caret,
  // which the original drops; `dangling` is its final section start.
  method Preprocess(text: string)
    returns (processed: string, cleanSections: seq<CleanSection>, ghost unterminated: bool, ghost dangling: int)
    ensures Processed(processed, cleanSections) == Preprocessed(text)
    ensures unterminated == HasBroken(Tokenize(text, false))
    ensures dangling == Dangling(Tokenize(text, false), 0, -1)
  {
    var ss := "";
    var caret := new Caret(text);
    var sectionStart := -1;
    cleanSections := [];
    ghost var whole := PassOne(text, 0, "", [], -1);
    while caret.CanContinue()
      invariant fresh(caret) && caret.Valid() && caret.data == text && -1 <= sectionStart <= |ss|
      invariant whole == if caret.hasError then Pass1(ss, cleanSections, sectionStart, true)
                         else PassOne(text, caret.pos, ss, cleanSections, sectionStart)
      decreases |text| - caret.pos, !caret.hasError
    {
      var c := text[caret.pos];
      var writeChar := true;
      match c {
        case '\'' =>
          var l := caret.pos;
          SkipStringInQuotes(caret);
          PassOneLiteral(text, l, ss, cleanSections, sectionStart, Span(caret.pos, !caret.hasError));
          ss := ss + text[l..caret.pos];
          writeChar := false;
        case '$' =>
          var l := caret.pos;
          SkipStringInDollars(caret);
          PassOneLiteral(text, l, ss, cleanSections, sectionStart, Span(caret.pos, !caret.hasError));
          ss := ss + text[l..caret.pos];
          writeChar := false;
        case '<' =>
          if sectionStart == -1 {
            var atMark := caret.IsAtText("<!!");
            if atMark {
              sectionStart := |ss|;
              writeChar := false;
            } else {
              caret.Inc(1);
            }
          } else {
            caret.Inc(1);
          }
        case '!' =>
          if sectionStart != -1 {
            var atMark := caret.IsAtText("!!>");
            if atMark {
              cleanSections := cleanSections + [CleanSection(sectionStart, |ss| - sectionStart)];
              sectionStart := -1;
              writeChar := false;
            } else {
              caret.Inc(1);
            }
          } else {
            caret.Inc(1);
          }
        case _ =>
          caret.Inc(1);
      }
      if writeChar {
        ss := ss + [c];
      }
    }
    processed := ss;
    unterminated := caret.hasError;
    dangling := sectionStart;
    PassOneReadsTokens(text, 0, "", [], -1, text, Tokenize(text, false));
  }

  // ---------- Pass 2 ----------

  ghost predicate InBounds(secs: seq<CleanSection>, size: nat) {
    forall i :: 0 <= i < |secs| ==> secs[i].position + secs[i].size <= size
  }

  // Where one lexical step of pass 2 outside sections ends.
  function StepEnd(data: string, pos: nat): (r: Span)
    requires pos < |data|
    ensures pos < r.len <= |data|
    ensures !r.closed ==> r.len == |data|
  {
    if data[pos] == ':' then
      Span(NameEnd(data, pos + 1), true)
    else if StartsLiteral(data[pos]) then
      LiteralEnd(data, pos)
    else
      Span(pos + 1, true)
  }

  // What pass 2 finds from `pos` on with `cur` sections behind it: the parameters, whether the
  // caret ends without error, and how many sections it has skipped by then.
  datatype Pass2 = Pass2(variables: seq<Variable>, ok: bool, used: nat)

  ghost function PassTwo(out: string, secs: seq<CleanSection>, pos: nat, cur: nat): (r: Pass2)
    requires pos <= |out| && cur <= |secs| && InBounds(secs, |out|)
    ensures cur <= r.used <= |secs|
    ensures r.used > cur ==> secs[cur].position >= pos
    decreases |out| - pos, |secs| - cur
  {
    if pos == |out| then
      Pass2([], true, cur)
    else if cur < |secs| && secs[cur].position == pos then
      PassTwo(out, secs, pos + secs[cur].size, cur + 1)
    else
      var step := StepEnd(out, pos);
      if !step.closed then
        Pass2([], false, cur)
      else
        var rest := PassTwo(out, secs, step.len, cur);
        if out[pos] == ':' then Prepended([VariableAt(out, pos)], rest) else rest
  }

  ghost function Prepended(found: seq<Variable>, rest: Pass2): Pass2 {
    rest.(variables := found + rest.variables)
  }

  lemma PassTwoSkip(out: string, secs: seq<CleanSection>, pos: nat, cur: nat, next: nat)
    requires pos < |out| && cur < |secs| && InBounds(secs, |out|)
    requires secs[cur].position == pos && next == pos + secs[cur].size
    ensures PassTwo(out, secs, pos, cur) == PassTwo(out, secs, next, cur + 1)
  {
  }

  // One lexical step changes neither how pass 2 ends nor which sections it uses.
  lemma PassTwoAdvance(out: string, secs: seq<CleanSection>, pos: nat, cur: nat, next: nat)
    requires pos < |out| && cur <= |secs| && InBounds(secs, |out|) && next == StepEnd(out, pos).len
    requires cur < |secs| ==> secs[cur].position != pos
    ensures var p := PassTwo(out, secs, pos, cur);
            if StepEnd(out, pos).closed then
              p.ok == PassTwo(out, secs, next, cur).ok && p.used == PassTwo(out, secs, next, cur).used
            else
              !p.ok && p.used == cur
  {
  }

  // One lexical step outside sections, with `found` in front of what is left.
  lemma PassTwoStep(out: string, secs: seq<CleanSection>, pos: nat, cur: nat, found: seq<Variable>, p: Pass2,
                    step: Span)
    requires pos < |out| && cur <= |secs| && InBounds(secs, |out|)
    requires cur < |secs| ==> secs[cur].position != pos
    requires p == PassTwo(out, secs, pos, cur) && step == StepEnd(out, pos)
    ensures if step.closed then
              var now := if out[pos] == ':' then found + [VariableAt(out, pos)] else found;
              Prepended(found, p) == Prepended(now, PassTwo(out, secs, step.len, cur))
            else
              !Prepended(found, p).ok
  {
    if step.closed {
      Grow(found, [VariableAt(out, pos)], PassTwo(out, secs, step.len, cur).variables);
    }
  }

  lemma {:induction false} SectionsInBounds(ts: seq<Token>, pos: nat, start: int)
    requires -1 <= start <= pos
    ensures InBounds(Sections(ts, pos, start), pos + |Out(ts)|)
  {
    if |ts| == 0 {
    } else {
      match ts[0]
      case Open => SectionsInBounds(ts[1..], pos, pos);
      case Close => SectionsInBounds(ts[1..], pos, -1);
      case _ => SectionsInBounds(ts[1..], pos + |Written(ts[0])|, start);
    }
  }

  // Pass 2 over the outcome of pass 1.
  ghost function Scanned(text: string): Pass2 {
    var p := Preprocessed(text);
    SectionsInBounds(Tokenize(text, false), 0, -1);
    PassTwo(p.text, p.sections, 0, 0)
  }

  // Compiles a template, or throws when a literal of the processed text is not terminated.
  method ParseTemplate(text: string) returns (r: Result<StringTemplate, ParsingError>)
    ensures var s := Scanned(text);
            var out := Preprocessed(text).text;
            r == if s.ok then Ok(StringTemplate(out, s.variables)) else Threw(ParsingError(|out|))
  {
    var processedText, cleanSections, _, _ := Preprocess(text);
    SectionsInBounds(Tokenize(text, false), 0, -1);
    var caret := new Caret(processedText);
    var variables := [];
    var currSection := 0;
    ghost var whole := PassTwo(processedText, cleanSections, 0, 0);
    ghost var rest := whole;
    while caret.CanContinue()
      invariant fresh(caret) && caret.Valid() && caret.data == processedText
      invariant 0 <= currSection <= |cleanSections|
      invariant if caret.hasError then
                  caret.pos == |processedText| && !whole.ok
                else
                  && rest == PassTwo(processedText, cleanSections, caret.pos, currSection)
                  && whole == Prepended(variables, rest)
      decreases |processedText| - caret.pos, |cleanSections| - currSection, !caret.hasError
    {
      ghost var at := caret.pos;
      if currSection < |cleanSections| && cleanSections[currSection].position == caret.pos {
        ghost var next := at + cleanSections[currSection].size;
        PassTwoSkip(processedText, cleanSections, at, currSection, next);
        caret.Inc(cleanSections[currSection].size);
        assert caret.pos == next;
        currSection := currSection + 1;
        continue;
      }
      ghost var step := StepEnd(processedText, at);
      PassTwoStep(processedText, cleanSections, at, currSection, variables, rest, step);
      rest := PassTwo(processedText, cleanSections, step.len, currSection);
      var c := processedText[caret.pos];
      match c {
        case ':' =>
          var v := ParseIdentifier(caret);
          if v.Some? {
            variables := variables + [v.value];
          }
        case '\'' => SkipStringInQuotes(caret);
        case '$' => SkipStringInDollars(caret);
        case _ => caret.Inc(1);
      }
      assert caret.pos == step.len && caret.hasError == !step.closed;
    }
    if caret.hasError {
      return Threw(ParsingError(caret.pos));
    }
    Grow(variables, [], []);
    return Ok(StringTemplate(processedText, variables));
  }
}

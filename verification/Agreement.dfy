/**
 The two passes of the compiler tokenise differently, yet pass 2 only ever stands where a pass-1
 token ends. So the error pass 1 drops is always found again by pass 2.
 */
module Agreement {
  import opened Lexing
  import opened Tokens
  import opened QueryParser

  // ---------- Token boundaries in the processed text ----------

  // `n` written characters end where a token ends, no unterminated literal being among them.
  predicate Boundary(ts: seq<Token>, n: nat) {
    n == 0 ||
    (ts != [] && !IsBroken(ts[0]) && |Written(ts[0])| <= n && Boundary(ts[1..], n - |Written(ts[0])|))
  }

  lemma BoundaryCons(ts: seq<Token>, n: nat, k: nat)
    requires |ts| > 0 && !IsBroken(ts[0]) && n == |Written(ts[0])| + k
    ensures Boundary(ts, n) <==> n == 0 || Boundary(ts[1..], k)
  {
  }

  // The tokens left after the first `n` written characters.
  function Cut(ts: seq<Token>, n: nat): seq<Token>
    requires Boundary(ts, n)
  {
    if n == 0 then ts else Cut(ts[1..], n - |Written(ts[0])|)
  }

  lemma {:induction false} CutFacts(ts: seq<Token>, n: nat)
    requires Good(ts) && Boundary(ts, n)
    ensures Good(Cut(ts, n)) && HasBroken(Cut(ts, n)) == HasBroken(ts)
    ensures n <= |Out(ts)| && Out(Cut(ts, n)) == Out(ts)[n..]
  {
    if n == 0 {
    } else {
      var w, k := Written(ts[0]), n - |Written(ts[0])|;
      CutFacts(ts[1..], k);
      DropPast(w, Out(ts[1..]), n, k);
    }
  }

  lemma DropPast(w: string, rest: string, n: nat, k: nat)
    requires n == |w| + k && k <= |rest|
    ensures (w + rest)[n..] == rest[k..]
  {
  }

  lemma {:induction false} BoundaryCut(ts: seq<Token>, n: nat, m: nat, k: nat)
    requires Boundary(ts, n) && m == n + k
    ensures Boundary(ts, m) <==> Boundary(Cut(ts, n), k)
  {
    if n == 0 {
    } else {
      var w := |Written(ts[0])|;
      BoundaryCut(ts[1..], n - w, m - w, k);
    }
  }

  // A colon token is written at offset `n`.
  predicate ColonAt(ts: seq<Token>, n: nat) {
    ts != [] &&
    ((n == 0 && ts[0] == Plain(':')) ||
     (|Written(ts[0])| <= n && ColonAt(ts[1..], n - |Written(ts[0])|)))
  }

  lemma {:induction false} ColonCut(ts: seq<Token>, n: nat, m: nat, k: nat)
    requires Good(ts) && Boundary(ts, n) && m == n + k
    ensures ColonAt(ts, m) <==> ColonAt(Cut(ts, n), k)
  {
    if n == 0 {
    } else {
      var w := |Written(ts[0])|;
      ColonCut(ts[1..], n - w, m - w, k);
    }
  }

  // ---------- One step of pass 2 against the tokens ----------

  // The first token that writes something decides how the text starts.
  lemma OutStarts(ts: seq<Token>)
    requires ts != []
    ensures ts[0].Plain? ==> Out(ts)[0] == ts[0].c && Out(ts)[1..] == Out(ts[1..])
    ensures GoodToken(ts[0]) && ts[0].Literal? ==> Out(ts)[0] == ts[0].text[0]
    ensures IsMarker(ts[0]) ==> Out(ts) == Out(ts[1..])
  {
  }

  // A name ends where a token ends and holds no colon token.
  lemma {:induction false} NameAligned(ts: seq<Token>)
    requires Good(ts)
    ensures Boundary(ts, NameLen(Out(ts)))
  {
    if |ts| == 0 {
    } else {
      OutStarts(ts);
      NameAligned(ts[1..]);
      var n := NameLen(Out(ts[1..]));
      if IsMarker(ts[0]) {
        BoundaryCons(ts, n, n);
      } else if ts[0].Plain? && IsNameChar(ts[0].c) {
        BoundaryCons(ts, n + 1, n);
      }
    }
  }

  lemma {:induction false} NameInner(ts: seq<Token>, m: nat)
    requires Good(ts) && m < NameLen(Out(ts))
    ensures !ColonAt(ts, m)
  {
    OutStarts(ts);
    if ts[0].Plain? {
      if m > 0 {
        NameInner(ts[1..], m - 1);
      }
    } else if IsMarker(ts[0]) {
      NameInner(ts[1..], m);
    }
  }

  // A run of quoted strings in the processed text ends where a token ends, although markers may
  // have been erased between its parts; it is unterminated only when the last token is.
  lemma {:induction false} QuotesAligned(ts: seq<Token>)
    requires Good(ts)
    ensures var r := QuoteSpan(Out(ts), false);
            if r.closed then Boundary(ts, r.len) else HasBroken(ts)
  {
    if |ts| == 0 {
    } else {
      OutStarts(ts);
      QuotesAligned(ts[1..]);
      if IsBroken(ts[0]) {
        assert ts[1..] == [] && Out(ts) == ts[0].text;
      } else if ts[0].Literal? && ts[0].text[0] == '\'' {
        QuoteSpanConcat(ts[0].text, false, Out(ts[1..]));
        assert Boundary(ts[1..], QuoteSpan(Out(ts[1..]), false).len) || HasBroken(ts[1..]);
      }
    }
  }

  lemma InMarker(ts: seq<Token>, n: nat)
    requires |ts| > 0 && IsMarker(ts[0])
    ensures Boundary(ts, n) ==> n == 0 || Boundary(ts[1..], n)
    ensures ColonAt(ts, n) ==> ColonAt(ts[1..], n)
    ensures Out(ts) == Out(ts[1..])
  {
  }

  // Such a run holds no colon token, and an inner token boundary lies between two quotes.
  lemma {:induction false} QuotesInner(ts: seq<Token>, m: nat)
    requires Good(ts) && m < QuoteSpan(Out(ts), false).len
    ensures !ColonAt(ts, m)
    ensures Boundary(ts, m) ==> Out(ts)[m] == '\'' && (m > 0 ==> Out(ts)[m - 1] == '\'')
    decreases |ts|
  {
    OutStarts(ts);
    if IsMarker(ts[0]) {
      InMarker(ts, m);
      QuotesInner(ts[1..], m);
      assert m == 0 ==> Boundary(ts[1..], 0);
    } else if IsBroken(ts[0]) {
      assert ts[1..] == [];
    } else {
      var text, rest := ts[0].text, Out(ts[1..]);
      QuoteSpanConcat(text, false, rest);
      QuoteSpanEnds(text, false, |text|);
      if m >= |text| {
        QuotesInner(ts[1..], m - |text|);
      }
    }
  }

  // No token boundary lies inside a dollar literal.
  lemma {:induction false} DollarInner(ts: seq<Token>, m: nat)
    requires Good(ts) && Out(ts) != "" && Out(ts)[0] == '$' && 0 < m < LiteralSpan(Out(ts)).len
    ensures !Boundary(ts, m) && !ColonAt(ts, m)
  {
    OutStarts(ts);
    if IsMarker(ts[0]) {
      DollarInner(ts[1..], m);
    } else if IsBroken(ts[0]) {
      assert ts[1..] == [] && Out(ts) == ts[0].text;
    } else {
      LiteralSpanConcat(ts[0].text, Out(ts[1..]));
    }
  }

  // ---------- Pass 2 on a token stream ----------

  // A section still to come starts and ends where tokens written from `pos` on do.
  predicate Fits(ts: seq<Token>, pos: nat, sec: CleanSection) {
    sec.position >= pos ==>
      Boundary(ts, sec.position - pos) && Boundary(ts, sec.position + sec.size - pos)
  }

  lemma FitsCut(ts: seq<Token>, pos: nat, next: nat, n: nat, sec: CleanSection)
    requires Fits(ts, pos, sec) && next == pos + n && Boundary(ts, n)
    ensures Fits(Cut(ts, n), next, sec)
  {
    if sec.position >= next {
      BoundaryCut(ts, n, sec.position - pos, sec.position - next);
      BoundaryCut(ts, n, sec.position + sec.size - pos, sec.position + sec.size - next);
    }
  }

  // The start of a section still to come, and its end.
  lemma FitsStart(ts: seq<Token>, pos: nat, sec: CleanSection, p: nat, n: nat)
    requires Fits(ts, pos, sec) && p == sec.position >= pos && n == p - pos
    ensures Boundary(ts, n)
  {
  }

  lemma FitsEnd(ts: seq<Token>, pos: nat, sec: CleanSection, n: nat)
    requires Fits(ts, pos, sec) && sec.position >= pos && n == sec.position + sec.size - pos
    ensures Boundary(ts, n)
  {
  }

  // `ts` are the tokens whose output is left at `pos`, and the sections still to come fit them.
  ghost predicate Aligned(out: string, secs: seq<CleanSection>, pos: nat, cur: nat, ts: seq<Token>) {
    && pos <= |out| && cur <= |secs| && InBounds(secs, |out|)
    && Good(ts) && Out(ts) == out[pos..]
    && forall i :: cur <= i < |secs| ==> Fits(ts, pos, secs[i])
  }

  lemma AlignedCut(out: string, secs: seq<CleanSection>, pos: nat, cur: nat, ts: seq<Token>, next: nat, cur': nat,
                   n: nat)
    requires Aligned(out, secs, pos, cur, ts) && next == pos + n && cur <= cur' <= |secs| && Boundary(ts, n)
    ensures Aligned(out, secs, next, cur', Cut(ts, n))
    ensures HasBroken(Cut(ts, n)) == HasBroken(ts)
  {
    CutFacts(ts, n);
    forall i | cur' <= i < |secs| ensures Fits(Cut(ts, n), next, secs[i]) {
      FitsCut(ts, pos, next, n, secs[i]);
    }
  }

  // Every lexical step of pass 2 ends where a token ends, or meets the unterminated literal.
  lemma {:induction false} StepAligned(out: string, pos: nat, ts: seq<Token>)
    requires pos < |out| && Good(ts) && Out(ts) == out[pos..]
    ensures var step := StepEnd(out, pos);
            if step.closed then Boundary(ts, step.len - pos) else HasBroken(ts)
  {
    OutStarts(ts);
    if IsMarker(ts[0]) {
      StepAligned(out, pos, ts[1..]);
    } else if out[pos] == ':' {
      NameEndIsNameLen(out, pos + 1);
      NameAligned(ts[1..]);
    } else if out[pos] == '\'' {
      QuotesAligned(ts);
      LiteralEndIsLiteralSpan(out, pos);
    } else if out[pos] == '$' {
      LiteralEndIsLiteralSpan(out, pos);
      if IsBroken(ts[0]) {
        assert ts[1..] == [] && Out(ts) == ts[0].text;
      } else {
        LiteralSpanConcat(ts[0].text, Out(ts[1..]));
      }
    }
  }

  // Pass 2 ends without error exactly when no token is unterminated.
  lemma {:induction false} ErrorsAgree(out: string, secs: seq<CleanSection>, pos: nat, cur: nat, ts: seq<Token>)
    requires Aligned(out, secs, pos, cur, ts)
    ensures PassTwo(out, secs, pos, cur).ok <==> !HasBroken(ts)
    decreases |out| - pos, |secs| - cur
  {
    if pos == |out| {
      NothingLeft(ts);
    } else if cur < |secs| && secs[cur].position == pos {
      var next := pos + secs[cur].size;
      var n := next - pos;
      PassTwoSkip(out, secs, pos, cur, next);
      FitsEnd(ts, pos, secs[cur], n);
      AlignedCut(out, secs, pos, cur, ts, next, cur + 1, n);
      ErrorsAgree(out, secs, next, cur + 1, Cut(ts, n));
    } else {
      StepAligned(out, pos, ts);
      var next := StepEnd(out, pos).len;
      PassTwoAdvance(out, secs, pos, cur, next);
      if StepEnd(out, pos).closed {
        var n := next - pos;
        AlignedCut(out, secs, pos, cur, ts, next, cur, n);
        ErrorsAgree(out, secs, next, cur, Cut(ts, n));
      }
    }
  }

  lemma {:induction false} NothingLeft(ts: seq<Token>)
    requires Good(ts) && Out(ts) == ""
    ensures !HasBroken(ts)
  {
    if |ts| == 0 {
    } else {
      NothingLeft(ts[1..]);
    }
  }

  // ---------- The sections pass 1 records fit its tokens ----------

  // Sections follow one another without overlap, from `lo` on.
  predicate Ordered(secs: seq<CleanSection>, lo: nat) {
    secs == [] || (lo <= secs[0].position && Ordered(secs[1..], secs[0].position + secs[0].size))
  }

  lemma {:induction false} SectionsOrdered(ts: seq<Token>, pos: nat, start: int)
    requires -1 <= start <= pos && Alternating(ts, start != -1)
    ensures Ordered(Sections(ts, pos, start), if start < 0 then pos else start)
    ensures start >= 0 && Sections(ts, pos, start) != [] ==>
              Sections(ts, pos, start)[0].position == start &&
              Sections(ts, pos, start)[0].position + Sections(ts, pos, start)[0].size >= pos
  {
    if |ts| == 0 {
    } else {
      match ts[0]
      case Open => SectionsOrdered(ts[1..], pos, pos);
      case Close => SectionsOrdered(ts[1..], pos, -1);
      case _ => SectionsOrdered(ts[1..], pos + |Written(ts[0])|, start);
    }
  }

  // A recorded section starts where the open one did or among the tokens still to come, and ends
  // among them.
  predicate FitsFrom(ts: seq<Token>, pos: nat, start: int, sec: CleanSection) {
    && (sec.position == start <= pos || (sec.position >= pos && Boundary(ts, sec.position - pos)))
    && sec.position + sec.size >= pos && Boundary(ts, sec.position + sec.size - pos)
  }

  lemma FitsFromStep(ts: seq<Token>, pos: nat, next: nat, start: int, sec: CleanSection)
    requires ts != [] && !IsBroken(ts[0]) && GoodToken(ts[0]) && start <= pos
    requires next == pos + |Written(ts[0])| && FitsFrom(ts[1..], next, start, sec)
    ensures FitsFrom(ts, pos, start, sec)
  {
  }

  lemma {:induction false} SectionsFit(ts: seq<Token>, pos: nat, start: int, i: nat)
    requires -1 <= start <= pos && Good(ts) && i < |Sections(ts, pos, start)|
    ensures FitsFrom(ts, pos, start, Sections(ts, pos, start)[i])
  {
    var sec := Sections(ts, pos, start)[i];
    match ts[0]
    case Open =>
      SectionsFit(ts[1..], pos, pos, i);
      assert sec.position >= pos;
    case Close =>
      var n := if start < 0 then 0 else 1;
      if i >= n {
        SectionsFit(ts[1..], pos, -1, i - n);
      }
    case _ =>
      if IsBroken(ts[0]) {
        BrokenEndsSections(ts, pos, start);
      } else {
        var next := pos + |Written(ts[0])|;
        SectionsFit(ts[1..], next, start, i);
        FitsFromStep(ts, pos, next, start, sec);
      }
  }

  lemma BrokenEndsSections(ts: seq<Token>, pos: nat, start: int)
    requires -1 <= start <= pos && |ts| == 1 && IsBroken(ts[0])
    ensures Sections(ts, pos, start) == []
  {
    assert ts[1..] == [];
  }

  // At the start of the text everything is in step.
  lemma PassesAligned(text: string)
    ensures var p := Preprocessed(text);
            && Aligned(p.text, p.sections, 0, 0, Tokenize(text, false))
            && Ordered(p.sections, 0)
  {
    var p, ts := Preprocessed(text), Tokenize(text, false);
    TokenizeGood(text, false);
    SectionsInBounds(ts, 0, -1);
    SectionsOrdered(ts, 0, -1);
    forall i | 0 <= i < |p.sections| ensures Fits(ts, 0, p.sections[i]) {
      SectionsFit(ts, 0, -1, i);
    }
  }

  // The error flag that `preprocess` drops is never lost: `parseTemplate` throws exactly when the
  // caret of pass 1 ended in error.
  lemma SwallowedErrorIsRaised(text: string)
    ensures Scanned(text).ok <==> !HasBroken(Tokenize(text, false))
  {
    var p := Preprocessed(text);
    PassesAligned(text);
    ErrorsAgree(p.text, p.sections, 0, 0, Tokenize(text, false));
  }
}

/**
 Exactly which parameters pass 2 finds: the colons written outside literals and outside the
 sections it skips, each with the longest run of name characters after it.
 */
module Parameters {
  import opened Lexing
  import opened Tokens
  import opened QueryParser
  import opened Agreement
  import opened SectionSkips

  // One of the sections numbered `lo` up to `hi` holds position `p`.
  predicate InSections(secs: seq<CleanSection>, lo: nat, hi: nat, p: nat) {
    exists i :: lo <= i < hi <= |secs| && secs[i].position <= p < secs[i].position + secs[i].size
  }

  predicate StartsAt(vars: seq<Variable>, p: nat) {
    exists i :: 0 <= i < |vars| && vars[i].posStart == p
  }

  // Spans lie in the text from `lo` on, do not overlap, and are what is written there: a colon and
  // the longest run of name characters after it.
  predicate Spans(out: string, lo: nat, vars: seq<Variable>)
    decreases |vars|
  {
    vars == [] ||
    (var v := vars[0];
     lo <= v.posStart < |out| && out[v.posStart] == ':' && v == VariableAt(out, v.posStart) &&
     Spans(out, v.posEnd + 1, vars[1..]))
  }

  lemma {:induction false} SpansFrom(out: string, lo: nat, lo': nat, vars: seq<Variable>)
    requires Spans(out, lo, vars) && lo' <= lo
    ensures Spans(out, lo', vars)
  {
  }

  lemma {:induction false} SpansStart(out: string, lo: nat, vars: seq<Variable>, i: nat)
    requires Spans(out, lo, vars) && i < |vars|
    ensures vars[i].posStart >= lo
    decreases |vars|
  {
    if i == 0 {
    } else {
      SpansStart(out, vars[0].posEnd + 1, vars[1..], i - 1);
    }
  }

  // Every span pass 2 reports is well formed, whatever the sections.
  lemma {:induction false} ParametersWellFormed(out: string, secs: seq<CleanSection>, pos: nat, cur: nat)
    requires pos <= |out| && cur <= |secs| && InBounds(secs, |out|)
    ensures Spans(out, pos, PassTwo(out, secs, pos, cur).variables)
    decreases |out| - pos, |secs| - cur
  {
    if pos == |out| {
    } else {
      if cur < |secs| && secs[cur].position == pos {
        var next := pos + secs[cur].size;
        ParametersWellFormed(out, secs, next, cur + 1);
        SpansFrom(out, next, pos, PassTwo(out, secs, next, cur + 1).variables);
      } else {
        var step := StepEnd(out, pos);
        if step.closed {
          ParametersWellFormed(out, secs, step.len, cur);
          SpansFrom(out, step.len, pos, PassTwo(out, secs, step.len, cur).variables);
        }
      }
    }
  }

  lemma {:induction false} ColonFirst(ts: seq<Token>)
    requires Good(ts) && Out(ts) != ""
    ensures ColonAt(ts, 0) <==> Out(ts)[0] == ':'
  {
    OutStarts(ts);
    if IsMarker(ts[0]) {
      ColonFirst(ts[1..]);
    }
  }

  lemma {:induction false} NoColonPast(ts: seq<Token>, n: nat)
    requires n >= |Out(ts)|
    ensures !ColonAt(ts, n)
  {
    if ts != [] && |Written(ts[0])| <= n {
      NoColonPast(ts[1..], n - |Written(ts[0])|);
    }
  }

  // A step of pass 2 jumps over no colon token.
  lemma {:induction false} StepInner(out: string, pos: nat, ts: seq<Token>, m: nat)
    requires pos < |out| && Good(ts) && Out(ts) == out[pos..] && 0 < m < StepEnd(out, pos).len - pos
    ensures !ColonAt(ts, m)
  {
    OutStarts(ts);
    if IsMarker(ts[0]) {
      StepInner(out, pos, ts[1..], m);
    } else if out[pos] == ':' {
      NameStepInner(out, pos, ts, m, m - 1);
    } else {
      LiteralStepInner(out, pos, ts, m);
    }
  }

  lemma NameStepInner(out: string, pos: nat, ts: seq<Token>, m: nat, k: nat)
    requires pos < |out| && Good(ts) && Out(ts) == out[pos..] && m == k + 1 && pos + m < NameEnd(out, pos + 1)
    requires ts != [] && ts[0] == Plain(':')
    ensures !ColonAt(ts, m)
  {
    OutStarts(ts);
    NameEndIsNameLen(out, pos + 1);
    assert out[pos..][1..] == out[pos + 1..];
    NameInner(ts[1..], k);
  }

  lemma LiteralStepInner(out: string, pos: nat, ts: seq<Token>, m: nat)
    requires pos < |out| && Good(ts) && Out(ts) == out[pos..] && StartsLiteral(out[pos])
    requires 0 < m < LiteralEnd(out, pos).len - pos
    ensures !ColonAt(ts, m)
  {
    LiteralEndIsLiteralSpan(out, pos);
    if out[pos] == '\'' {
      QuotesInner(ts, m);
    } else {
      DollarInner(ts, m);
    }
  }

  // Nothing found from `next` on starts before it.
  lemma NoneBefore(out: string, next: nat, vars: seq<Variable>, p: nat)
    requires Spans(out, next, vars) && p < next
    ensures !StartsAt(vars, p)
  {
    forall i | 0 <= i < |vars| ensures vars[i].posStart != p {
      SpansStart(out, next, vars, i);
    }
  }

  // Skipping the section from `pos` to `next`.
  lemma InSkipped(secs: seq<CleanSection>, cur: nat, used: nat, next: nat, p: nat)
    requires cur < used <= |secs| && secs[cur].position <= p && next == secs[cur].position + secs[cur].size
    ensures p < next ==> InSections(secs, cur, used, p)
    ensures p >= next ==> (InSections(secs, cur, used, p) <==> InSections(secs, cur + 1, used, p))
  {
    assert p < next ==> secs[cur].position <= p < secs[cur].position + secs[cur].size;
  }

  // Sections still to be skipped from `next` on hold nothing before it.
  lemma NotInLater(secs: seq<CleanSection>, cur: nat, used: nat, p: nat)
    requires Ordered(secs, 0) && (cur < used <= |secs| ==> p < secs[cur].position)
    ensures !InSections(secs, cur, used, p)
  {
    forall i | cur <= i < used <= |secs| ensures p < secs[i].position {
      OrderedPair(secs, 0, cur, i);
    }
  }

  lemma StartsAtHead(v: Variable, vars: seq<Variable>, p: nat)
    ensures StartsAt([v] + vars, p) <==> v.posStart == p || StartsAt(vars, p)
  {
    if StartsAt(vars, p) {
      var i :| 0 <= i < |vars| && vars[i].posStart == p;
      assert ([v] + vars)[i + 1].posStart == p;
    }
    if v.posStart == p {
      assert ([v] + vars)[0].posStart == p;
    }
  }

  // A parameter is found at `p` exactly when a colon token is written there and no section that is
  // skipped holds it.
  lemma {:induction false} FoundFrom(out: string, secs: seq<CleanSection>, pos: nat, cur: nat, ts: seq<Token>, p: nat,
                                     m: nat, r: Pass2)
    requires Aligned(out, secs, pos, cur, ts) && Ordered(secs, 0) && p == pos + m
    requires r == PassTwo(out, secs, pos, cur) && r.ok
    ensures StartsAt(r.variables, p) <==> ColonAt(ts, m) && !InSections(secs, cur, r.used, p)
    decreases |out| - pos, |secs| - cur
  {
    if pos == |out| {
      NoColonPast(ts, m);
    } else if cur < |secs| && secs[cur].position == pos {
      FoundSkipping(out, secs, pos, cur, ts, p, m, r);
    } else {
      FoundStepping(out, secs, pos, cur, ts, p, m, r);
    }
  }

  lemma FoundSkipping(out: string, secs: seq<CleanSection>, pos: nat, cur: nat, ts: seq<Token>, p: nat, m: nat,
                      r: Pass2)
    requires Aligned(out, secs, pos, cur, ts) && Ordered(secs, 0) && p == pos + m
    requires r == PassTwo(out, secs, pos, cur) && r.ok
    requires pos < |out| && cur < |secs| && secs[cur].position == pos
    ensures StartsAt(r.variables, p) <==> ColonAt(ts, m) && !InSections(secs, cur, r.used, p)
    decreases |out| - pos, |secs| - cur, 0
  {
    var next := pos + secs[cur].size;
    var n := next - pos;
    PassTwoSkip(out, secs, pos, cur, next);
    InSkipped(secs, cur, r.used, next, p);
    FitsEnd(ts, pos, secs[cur], n);
    AlignedCut(out, secs, pos, cur, ts, next, cur + 1, n);
    if p >= next {
      var k := p - next;
      ColonCut(ts, n, m, k);
      FoundFrom(out, secs, next, cur + 1, Cut(ts, n), p, k, r);
    } else {
      ParametersWellFormed(out, secs, next, cur + 1);
      NoneBefore(out, next, r.variables, p);
    }
  }

  lemma FoundStepping(out: string, secs: seq<CleanSection>, pos: nat, cur: nat, ts: seq<Token>, p: nat, m: nat,
                      r: Pass2)
    requires Aligned(out, secs, pos, cur, ts) && Ordered(secs, 0) && p == pos + m
    requires r == PassTwo(out, secs, pos, cur) && r.ok
    requires pos < |out| && !(cur < |secs| && secs[cur].position == pos)
    ensures StartsAt(r.variables, p) <==> ColonAt(ts, m) && !InSections(secs, cur, r.used, p)
    decreases |out| - pos, |secs| - cur, 0
  {
    var next := StepEnd(out, pos).len;
    var n := next - pos;
    var rest := PassTwo(out, secs, next, cur);
    StepAligned(out, pos, ts);
    AlignedCut(out, secs, pos, cur, ts, next, cur, n);
    if out[pos] == ':' {
      StartsAtHead(VariableAt(out, pos), rest.variables, p);
    }
    if p >= next {
      var k := p - next;
      ColonCut(ts, n, m, k);
      FoundFrom(out, secs, next, cur, Cut(ts, n), p, k, rest);
    } else {
      ParametersWellFormed(out, secs, next, cur);
      NoneBefore(out, next, rest.variables, p);
      if p == pos {
        ColonFirst(ts);
        NotInLater(secs, cur, r.used, p);
      } else {
        StepInner(out, pos, ts, m);
      }
    }
  }

  // The span of a parameter and a section share no character, nor does one start inside the other.
  predicate Apart(v: Variable, sec: CleanSection) {
    v.posEnd < sec.position || sec.position + sec.size <= v.posStart
  }

  lemma {:induction false} ParametersAvoidSections(out: string, secs: seq<CleanSection>, pos: nat, cur: nat, r: Pass2,
                                                   i: nat, k: nat)
    requires pos <= |out| && cur <= |secs| && InBounds(secs, |out|) && Ordered(secs, 0)
    requires r == PassTwo(out, secs, pos, cur) && i < |r.variables| && cur <= k < r.used
    ensures Apart(r.variables[i], secs[k])
    decreases |out| - pos, |secs| - cur
  {
    if cur < |secs| && secs[cur].position == pos {
      var next := pos + secs[cur].size;
      PassTwoSkip(out, secs, pos, cur, next);
      if k > cur {
        ParametersAvoidSections(out, secs, next, cur + 1, r, i, k);
      } else {
        ParametersWellFormed(out, secs, next, cur + 1);
        SpansStart(out, next, r.variables, i);
      }
    } else {
      var next := StepEnd(out, pos).len;
      var rest := PassTwo(out, secs, next, cur);
      var n := if out[pos] == ':' then 1 else 0;
      if i >= n {
        ParametersAvoidSections(out, secs, next, cur, rest, i - n, k);
      } else {
        OrderedPair(secs, 0, cur, k);
      }
    }
  }

  // The parameters of a template that compiles: well-formed spans in order, one for each colon
  // written outside literals and outside the sections that are skipped, and no other.
  lemma ParametersFoundExactly(text: string)
    requires Scanned(text).ok
    ensures var p, r := Preprocessed(text), Scanned(text);
            && Spans(p.text, 0, r.variables)
            && forall n: nat :: StartsAt(r.variables, n) <==>
                 ColonAt(Tokenize(text, false), n) && !InSections(p.sections, 0, r.used, n)
    ensures var p, r := Preprocessed(text), Scanned(text);
            forall i, k :: 0 <= i < |r.variables| && 0 <= k < r.used ==> Apart(r.variables[i], p.sections[k])
  {
    var p, r := Preprocessed(text), Scanned(text);
    PassesAligned(text);
    ParametersWellFormed(p.text, p.sections, 0, 0);
    forall n: nat
      ensures StartsAt(r.variables, n) <==>
        ColonAt(Tokenize(text, false), n) && !InSections(p.sections, 0, r.used, n)
    {
      FoundFrom(p.text, p.sections, 0, 0, Tokenize(text, false), n, n, r);
    }
    forall i, k | 0 <= i < |r.variables| && 0 <= k < r.used ensures Apart(r.variables[i], p.sections[k]) {
      ParametersAvoidSections(p.text, p.sections, 0, 0, r, i, k);
    }
  }
}

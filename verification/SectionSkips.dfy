/**
 Exactly which clean sections pass 2 skips. A section is missed when erasing its opening marker has
 glued the text before it to the text after it; from the first such section on, none is skipped.
 */
module SectionSkips {
  import opened Lexing
  import opened Tokens
  import opened QueryParser
  import opened Agreement

  // The text before `p`, no further back than `lo`, ends in a colon and name characters.
  predicate NameBefore(out: string, lo: nat, p: nat)
    requires p <= |out|
  {
    p > lo && (out[p - 1] == ':' || (IsNameChar(out[p - 1]) && NameBefore(out, lo, p - 1)))
  }

  // A section that starts at `p` is glued to the text since `lo`: a parameter name runs across its
  // start, or erasing the marker has joined two quoted strings there.
  predicate Glued(out: string, lo: nat, p: nat)
    requires p < |out|
  {
    || (p > lo && out[p - 1] == '\'' && out[p] == '\'')
    || (IsNameChar(out[p]) && NameBefore(out, lo, p))
  }

  // Pass 2 cannot come to stand at the start of a section although it stood at `lo`.
  predicate Blocked(out: string, lo: nat, sec: CleanSection) {
    sec.position >= |out| || Glued(out, lo, sec.position)
  }

  lemma {:induction false} NameRunBefore(out: string, pos: nat, p: nat)
    requires pos < |out| && out[pos] == ':' && pos < p <= NameEnd(out, pos + 1)
    ensures NameBefore(out, pos, p)
    ensures p < NameEnd(out, pos + 1) ==> IsNameChar(out[p])
    decreases p
  {
    NameEndMaximal(out, pos + 1);
    if p > pos + 1 {
      NameRunBefore(out, pos, p - 1);
    }
  }

  // A step of pass 2 that jumps over the start of a section finds it glued.
  lemma JumpedIsGlued(out: string, pos: nat, ts: seq<Token>, p: nat)
    requires pos < |out| && Good(ts) && Out(ts) == out[pos..]
    requires pos < p < StepEnd(out, pos).len && Boundary(ts, p - pos)
    ensures Glued(out, pos, p)
  {
    if out[pos] == ':' {
      NameRunBefore(out, pos, p);
    } else {
      LiteralEndIsLiteralSpan(out, pos);
      if out[pos] == '\'' {
        QuotesInner(ts, p - pos);
      } else {
        DollarInner(ts, p - pos);
      }
    }
  }

  // How a finished step of pass 2 ends.
  lemma StepEnds(out: string, pos: nat)
    requires pos < |out| && StepEnd(out, pos).closed
    ensures var next := StepEnd(out, pos).len;
            next < |out| ==>
              && !(out[next - 1] == '\'' && out[next] == '\'')
              && !(NameBefore(out, pos, next) && IsNameChar(out[next]))
  {
    var next := StepEnd(out, pos).len;
    if out[pos] == ':' {
      NameEndMaximal(out, pos + 1);
    } else if StartsLiteral(out[pos]) {
      LiteralEndIsLiteralSpan(out, pos);
      var s := out[pos..];
      if out[pos] == '\'' {
        QuoteSpanEnds(s, false, next - pos);
      } else {
        TagSpanEnds(s[1..], next - pos - 1);
      }
      assert s[next - pos - 1] == out[next - 1];
    }
  }

  // Whether a later section is glued does not depend on the text before a place pass 2 stood at.
  lemma {:induction false} NameBeforeSince(out: string, lo: nat, next: nat, p: nat)
    requires lo <= next < p <= |out| && !(NameBefore(out, lo, next) && IsNameChar(out[next]))
    ensures NameBefore(out, lo, p) <==> NameBefore(out, next, p)
    decreases p
  {
    if p > next + 1 {
      NameBeforeSince(out, lo, next, p - 1);
    }
  }

  lemma GluedSince(out: string, pos: nat, p: nat)
    requires pos < |out| && StepEnd(out, pos).closed && StepEnd(out, pos).len <= p < |out|
    ensures Glued(out, pos, p) <==> Glued(out, StepEnd(out, pos).len, p)
  {
    StepEnds(out, pos);
    if StepEnd(out, pos).len < p {
      NameBeforeSince(out, pos, StepEnd(out, pos).len, p);
    }
  }

  // From `pos` on, pass 2 skips the next section unless it is glued to the text since `pos`; a
  // section it misses is the last one it ever looks at.
  ghost function UsedFrom(out: string, secs: seq<CleanSection>, pos: nat, cur: nat): nat
    requires cur < |secs| && InBounds(secs, |out|)
  {
    if Blocked(out, pos, secs[cur]) then cur else PassTwo(out, secs, secs[cur].position + secs[cur].size, cur + 1).used
  }

  lemma {:induction false} HitOrMiss(out: string, secs: seq<CleanSection>, pos: nat, cur: nat, ts: seq<Token>)
    requires Aligned(out, secs, pos, cur, ts) && cur < |secs| && secs[cur].position >= pos
    ensures PassTwo(out, secs, pos, cur).used == UsedFrom(out, secs, pos, cur)
    decreases |out| - pos, 1
  {
    if pos < |out| && pos < secs[cur].position {
      StepToHit(out, secs, pos, cur, ts, StepEnd(out, pos).len, secs[cur].position);
    }
  }

  lemma {:induction false} StepToHit(out: string, secs: seq<CleanSection>, pos: nat, cur: nat, ts: seq<Token>,
                                     next: nat, p: nat)
    requires Aligned(out, secs, pos, cur, ts) && cur < |secs| && p == secs[cur].position
    requires pos < p <= |out| && pos < |out| && next == StepEnd(out, pos).len
    ensures PassTwo(out, secs, pos, cur).used == UsedFrom(out, secs, pos, cur)
    decreases |out| - pos, 0
  {
    StepAligned(out, pos, ts);
    PassTwoAdvance(out, secs, pos, cur, next);
    FitsStart(ts, pos, secs[cur], p, p - pos);
    if p < next {
      JumpedIsGlued(out, pos, ts, p);
    } else if StepEnd(out, pos).closed {
      var n := next - pos;
      AlignedCut(out, secs, pos, cur, ts, next, cur, n);
      HitOrMiss(out, secs, next, cur, Cut(ts, n));
      if p < |out| {
        GluedSince(out, pos, p);
      }
    }
  }

  // Where the section before the `i`-th one ends.
  function PreviousEnd(secs: seq<CleanSection>, i: nat): nat
    requires i <= |secs|
  {
    if i == 0 then 0 else secs[i - 1].position + secs[i - 1].size
  }

  // No section from the `cur`-th through the `i`-th one is blocked by the text before it.
  predicate Unblocked(out: string, secs: seq<CleanSection>, cur: nat, i: nat)
    requires i < |secs|
  {
    forall j :: cur <= j <= i ==> !Blocked(out, PreviousEnd(secs, j), secs[j])
  }

  lemma UnblockedStep(out: string, secs: seq<CleanSection>, lo: nat, cur: nat, i: nat)
    requires cur <= i < |secs| && lo == PreviousEnd(secs, cur)
    ensures Unblocked(out, secs, cur, i) <==> !Blocked(out, lo, secs[cur]) && Unblocked(out, secs, cur + 1, i)
  {
  }

  lemma {:induction false} OrderedPair(secs: seq<CleanSection>, lo: nat, i: nat, j: nat)
    requires Ordered(secs, lo) && i <= j < |secs|
    ensures lo <= secs[i].position <= secs[j].position
    ensures i < j ==> secs[i].position + secs[i].size <= secs[j].position
  {
    if i > 0 {
      OrderedPair(secs[1..], secs[0].position + secs[0].size, i - 1, j - 1);
    } else if j > 0 {
      OrderedPair(secs[1..], secs[0].position + secs[0].size, 0, j - 1);
    }
  }

  lemma {:induction false} SkippedFrom(out: string, secs: seq<CleanSection>, pos: nat, cur: nat, ts: seq<Token>, i: nat,
                                       used: nat)
    requires cur <= i < |secs| && Ordered(secs, 0) && Aligned(out, secs, pos, cur, ts)
    requires pos == PreviousEnd(secs, cur) && used == PassTwo(out, secs, pos, cur).used
    ensures used > i <==> Unblocked(out, secs, cur, i)
    decreases |secs| - cur
  {
    OrderedPair(secs, 0, if cur == 0 then 0 else cur - 1, cur);
    HitOrMiss(out, secs, pos, cur, ts);
    UnblockedStep(out, secs, pos, cur, i);
    if !Blocked(out, pos, secs[cur]) && cur < i {
      var next := secs[cur].position + secs[cur].size;
      var n := next - pos;
      FitsEnd(ts, pos, secs[cur], n);
      AlignedCut(out, secs, pos, cur, ts, next, cur + 1, n);
      SkippedFrom(out, secs, next, cur + 1, Cut(ts, n), i, used);
    }
  }

  // A section is skipped exactly when neither it nor any section before it is blocked: it starts
  // before the end of the text and is not glued to the text between it and the previous section.
  // So the first blocked section is missed together with all that follow.
  lemma SectionsSkippedExactly(text: string, i: nat)
    requires i < |Preprocessed(text).sections|
    ensures var p := Preprocessed(text);
            Scanned(text).used > i <==> Unblocked(p.text, p.sections, 0, i)
  {
    var p := Preprocessed(text);
    PassesAligned(text);
    SkippedFrom(p.text, p.sections, 0, 0, Tokenize(text, false), i, Scanned(text).used);
  }

  // No quote, colon or name character comes just before `p`.
  predicate Separated(out: string, p: nat) {
    0 < p < |out| ==> var c := out[p - 1]; c != '\'' && c != ':' && !IsNameChar(c)
  }

  // Sections that are separated from the text before them are all skipped, up to the end of the text.
  lemma SeparatedSectionsAreSkipped(text: string, i: nat)
    requires i < |Preprocessed(text).sections|
    requires forall s :: s in Preprocessed(text).sections ==> Separated(Preprocessed(text).text, s.position)
    ensures Scanned(text).used > i <==> Preprocessed(text).sections[i].position < |Preprocessed(text).text|
  {
    var p := Preprocessed(text);
    PassesAligned(text);
    SectionsSkippedExactly(text, i);
    SeparatedIsUnblocked(p.text, p.sections, i);
  }

  lemma SeparatedIsUnblocked(out: string, secs: seq<CleanSection>, i: nat)
    requires i < |secs| && Ordered(secs, 0) && forall s :: s in secs ==> Separated(out, s.position)
    ensures Unblocked(out, secs, 0, i) <==> secs[i].position < |out|
  {
    assert secs[i].position >= |out| ==> Blocked(out, PreviousEnd(secs, i), secs[i]);
    if secs[i].position < |out| {
      forall j | 0 <= j <= i ensures !Blocked(out, PreviousEnd(secs, j), secs[j]) {
        OrderedPair(secs, 0, j, i);
        assert secs[j] in secs;
      }
    }
  }

}

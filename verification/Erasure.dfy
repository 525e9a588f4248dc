/**
 Pass 1 erases markers and remembers where they were: weaving them back in restores the input, and
 a text woven from cleanly lexed pieces is taken apart into exactly those pieces.
 */
module Erasure {
  import opened Lexing
  import opened Tokens
  import opened QueryParser
  import opened Agreement

  // The sections lie in a text of `size` characters from `pos` on, in order and without overlap,
  // and so does the opening marker left dangling behind them, if any.
  predicate Laid(size: nat, pos: nat, secs: seq<CleanSection>, dangling: int)
    decreases |secs|
  {
    if secs == [] then
      pos <= size && (dangling == -1 || pos <= dangling <= size)
    else
      pos <= secs[0].position && secs[0].position + secs[0].size <= size &&
      Laid(size, secs[0].position + secs[0].size, secs[1..], dangling)
  }

  // The text from `pos` on with the markers of `secs` and the dangling one put back.
  function Weave(out: string, pos: nat, secs: seq<CleanSection>, dangling: int): string
    requires Laid(|out|, pos, secs, dangling)
    decreases |secs|
  {
    if secs != [] then
      var p := secs[0].position;
      var end := p + secs[0].size;
      out[pos..p] + OPEN_MARK + out[p..end] + CLOSE_MARK + Weave(out, end, secs[1..], dangling)
    else if dangling == -1 then
      out[pos..]
    else
      out[pos..dangling] + OPEN_MARK + out[dangling..]
  }

  lemma {:induction false} WeaveLength(out: string, pos: nat, secs: seq<CleanSection>, dangling: int)
    requires Laid(|out|, pos, secs, dangling)
    ensures |Weave(out, pos, secs, dangling)| == |out| - pos + 6 * |secs| + (if dangling == -1 then 0 else 3)
    decreases |secs|
  {
    if |secs| == 0 {
    } else {
      WeaveLength(out, secs[0].position + secs[0].size, secs[1..], dangling);
    }
  }

  // From `pos` on, outside sections, `raw` is what weaving gives.
  predicate GapIs(out: string, pos: nat, secs: seq<CleanSection>, dangling: int, raw: string) {
    Laid(|out|, pos, secs, dangling) && Weave(out, pos, secs, dangling) == raw
  }

  // From `pos` on, inside the section opened at `start`, `raw` is what weaving gives: either that
  // section is never closed, or it is the first one.
  predicate BodyIs(out: string, pos: nat, start: nat, secs: seq<CleanSection>, dangling: int, raw: string) {
    if secs == [] then
      dangling == start <= pos <= |out| && raw == out[pos..]
    else
      var end := secs[0].position + secs[0].size;
      && secs[0].position == start && start <= pos <= end <= |out|
      && Laid(|out|, end, secs[1..], dangling)
      && raw == out[pos..end] + CLOSE_MARK + Weave(out, end, secs[1..], dangling)
  }

  lemma GapAdvance(out: string, pos: nat, next: nat, w: string, secs: seq<CleanSection>, dangling: int, raw: string)
    requires pos <= next <= |out| && w == out[pos..next] && GapIs(out, next, secs, dangling, raw)
    ensures GapIs(out, pos, secs, dangling, w + raw)
  {
    if secs != [] {
      assert out[pos..secs[0].position] == w + out[next..secs[0].position];
    } else if dangling == -1 {
      assert out[pos..] == w + out[next..];
    } else {
      assert out[pos..dangling] == w + out[next..dangling];
    }
  }

  lemma GapOpens(out: string, pos: nat, secs: seq<CleanSection>, dangling: int, raw: string)
    requires BodyIs(out, pos, pos, secs, dangling, raw)
    ensures GapIs(out, pos, secs, dangling, OPEN_MARK + raw)
  {
    assert out[pos..pos] == "";
  }

  lemma BodyAdvance(out: string, pos: nat, next: nat, w: string, start: nat, secs: seq<CleanSection>, dangling: int,
                    raw: string)
    requires start <= pos <= next <= |out| && w == out[pos..next] && BodyIs(out, next, start, secs, dangling, raw)
    ensures BodyIs(out, pos, start, secs, dangling, w + raw)
  {
    if secs == [] {
      assert out[pos..] == w + out[next..];
    } else {
      var end := secs[0].position + secs[0].size;
      assert out[pos..end] == w + out[next..end];
    }
  }

  lemma BodyCloses(out: string, pos: nat, start: nat, secs: seq<CleanSection>, dangling: int, raw: string)
    requires start <= pos <= |out| && GapIs(out, pos, secs, dangling, raw)
    ensures BodyIs(out, pos, start, [CleanSection(start, pos - start)] + secs, dangling, CLOSE_MARK + raw)
  {
    assert ([CleanSection(start, pos - start)] + secs)[1..] == secs && out[pos..pos] == "";
  }

  lemma Advance(out: string, pos: nat, ts: seq<Token>, w: string, next: nat)
    requires pos <= |out| && ts != [] && Out(ts) == out[pos..] && w == Written(ts[0]) && next == pos + |w|
    ensures next <= |out| && w == out[pos..next] && Out(ts[1..]) == out[next..]
  {
    assert Out(ts)[|w|..] == Out(ts[1..]) && Out(ts)[..|w|] == w;
  }

  // Weaving back what the tokens record restores what they were read from.
  lemma {:induction false} GapWoven(out: string, pos: nat, ts: seq<Token>, secs: seq<CleanSection>, dangling: int,
                                    raw: string)
    requires pos <= |out| && Good(ts) && Alternating(ts, false) && Out(ts) == out[pos..]
    requires secs == Sections(ts, pos, -1) && dangling == Dangling(ts, pos, -1) && raw == RawText(ts)
    ensures GapIs(out, pos, secs, dangling, raw)
    decreases |ts|
  {
    if |ts| == 0 {
    } else {
      var rest, w, left := ts[1..], Written(ts[0]), RawText(ts[1..]);
      if ts[0].Open? {
        BodyWoven(out, pos, rest, pos, secs, dangling, left);
        GapOpens(out, pos, secs, dangling, left);
      } else {
        var next := pos + |w|;
        Advance(out, pos, ts, w, next);
        GapWoven(out, next, rest, secs, dangling, left);
        GapAdvance(out, pos, next, w, secs, dangling, left);
      }
    }
  }

  lemma {:induction false} BodyWoven(out: string, pos: nat, ts: seq<Token>, start: nat, secs: seq<CleanSection>,
                                     dangling: int, raw: string)
    requires start <= pos <= |out| && Good(ts) && Alternating(ts, true) && Out(ts) == out[pos..]
    requires secs == Sections(ts, pos, start) && dangling == Dangling(ts, pos, start) && raw == RawText(ts)
    ensures BodyIs(out, pos, start, secs, dangling, raw)
    decreases |ts|
  {
    if |ts| == 0 {
    } else {
      var rest, w, left := ts[1..], Written(ts[0]), RawText(ts[1..]);
      if ts[0].Close? {
        var later := Sections(rest, pos, -1);
        GapWoven(out, pos, rest, later, dangling, left);
        BodyCloses(out, pos, start, later, dangling, left);
      } else {
        var next := pos + |w|;
        Advance(out, pos, ts, w, next);
        BodyWoven(out, next, rest, start, secs, dangling, left);
        BodyAdvance(out, pos, next, w, start, secs, dangling, left);
      }
    }
  }

  // Erasure loses nothing: for every text, terminated or not, putting `<!!` and `!!>` back where
  // pass 1 recorded them, and the opening marker it left dangling, gives back the text.
  lemma ErasureRoundTrip(text: string)
    ensures var p, d := Preprocessed(text), Dangling(Tokenize(text, false), 0, -1);
            && Laid(|p.text|, 0, p.sections, d)
            && Weave(p.text, 0, p.sections, d) == text
            && |text| == |p.text| + 6 * |p.sections| + (if d == -1 then 0 else 3)
  {
    var p, ts := Preprocessed(text), Tokenize(text, false);
    TokenizeGood(text, false);
    GapWoven(p.text, 0, ts, p.sections, Dangling(ts, 0, -1), text);
    WeaveLength(p.text, 0, p.sections, Dangling(ts, 0, -1));
  }
}

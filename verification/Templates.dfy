/**
 Compiled templates: formatting the parameters of a processed text, the `?` placeholder every
 parameter becomes, and what the prepared text means once values are bound to its placeholders.
 */
module Templates {
  import opened Wrappers
  import opened Lexing
  import opened Tokens
  import opened QueryParser
  import opened Agreement
  import opened Parameters

  // ---------- Formatting ----------

  // The spans of the parameters lie in a text of `size` characters from `pos` on, in order.
  predicate Placed(size: nat, pos: nat, vars: seq<Variable>)
    decreases |vars|
  {
    if |vars| == 0 then
      pos <= size
    else
      pos <= vars[0].posStart <= vars[0].posEnd < size && Placed(size, vars[0].posEnd + 1, vars[1..])
  }

  lemma {:induction false} SpansArePlaced(out: string, pos: nat, vars: seq<Variable>)
    requires Spans(out, pos, vars) && pos <= |out|
    ensures Placed(|out|, pos, vars)
    decreases |vars|
  {
    if |vars| == 0 {
    } else {
      SpansArePlaced(out, vars[0].posEnd + 1, vars[1..]);
    }
  }

  // The text from `pos` on with every parameter replaced by its value.
  function Format(text: string, pos: nat, vars: seq<Variable>, value: Variable -> string): string
    requires Placed(|text|, pos, vars)
    decreases |vars|
  {
    if |vars| == 0 then
      text[pos..]
    else
      text[pos..vars[0].posStart] + (value(vars[0]) + Format(text, vars[0].posEnd + 1, vars[1..], value))
  }

  lemma SliceAdvance(text: string, pos: nat, next: nat, end: nat, w: string)
    requires pos <= next <= end <= |text| && w == text[pos..next]
    ensures text[pos..end] == w + text[next..end]
  {
  }

  lemma FormatEnd(text: string, pos: nat, next: nat, w: string, vars: seq<Variable>, value: Variable -> string)
    requires pos <= next <= |text| && |vars| == 0 && w == text[pos..next]
    ensures Format(text, pos, vars, value) == w + Format(text, next, vars, value)
  {
  }

  // The gap before the first parameter, and what follows the gap.
  lemma FormatFirst(text: string, pos: nat, vars: seq<Variable>, value: Variable -> string)
    returns (gap: string, rest: string)
    requires |vars| > 0 && pos <= vars[0].posStart <= vars[0].posEnd < |text|
    requires Placed(|text|, vars[0].posEnd + 1, vars[1..])
    ensures Placed(|text|, pos, vars) && gap == text[pos..vars[0].posStart]
    ensures rest == value(vars[0]) + Format(text, vars[0].posEnd + 1, vars[1..], value)
    ensures Format(text, pos, vars, value) == gap + rest
  {
    gap, rest := text[pos..vars[0].posStart], value(vars[0]) + Format(text, vars[0].posEnd + 1, vars[1..], value);
  }

  lemma FormatGap(text: string, pos: nat, next: nat, w: string, vars: seq<Variable>, value: Variable -> string)
    requires pos <= next <= |text| && |vars| > 0 && Placed(|text|, next, vars) && w == text[pos..next]
    ensures Placed(|text|, pos, vars)
    ensures Format(text, pos, vars, value) == w + Format(text, next, vars, value)
  {
    SliceAdvance(text, pos, next, vars[0].posStart, w);
    var gap, rest := FormatFirst(text, next, vars, value);
    var gap', rest' := FormatFirst(text, pos, vars, value);
    Grow(w, gap, rest);
  }

  // Text before the next parameter is written out as it is.
  lemma FormatAdvance(text: string, pos: nat, next: nat, w: string, vars: seq<Variable>, value: Variable -> string)
    requires pos <= next <= |text| && Placed(|text|, next, vars) && w == text[pos..next]
    ensures Placed(|text|, pos, vars)
    ensures Format(text, pos, vars, value) == w + Format(text, next, vars, value)
  {
    if |vars| == 0 {
      FormatEnd(text, pos, next, w, vars, value);
    } else {
      FormatGap(text, pos, next, w, vars, value);
    }
  }

  const NAMED: Variable -> string := (v: Variable) => ":" + v.name

  lemma NameWritten(out: string, v: Variable)
    requires v.posStart < |out| && out[v.posStart] == ':' && v == VariableAt(out, v.posStart)
    ensures v.posStart < v.posEnd + 1 <= |out| && NAMED(v) == out[v.posStart..v.posEnd + 1]
  {
  }

  lemma IdentityCons(out: string, pos: nat, vars: seq<Variable>, next: nat)
    requires Spans(out, pos, vars) && Placed(|out|, pos, vars) && |vars| > 0 && next == vars[0].posEnd + 1
    requires Format(out, next, vars[1..], NAMED) == out[next..]
    ensures Format(out, pos, vars, NAMED) == out[pos..]
  {
    var gap, rest := FormatFirst(out, pos, vars, NAMED);
    NameWritten(out, vars[0]);
    Parts(out, pos, vars[0].posStart, next);
  }

  // Writing back the name of every parameter gives back the processed text.
  lemma {:induction false} IdentityFormat(out: string, pos: nat, vars: seq<Variable>)
    requires Spans(out, pos, vars) && Placed(|out|, pos, vars)
    ensures Format(out, pos, vars, NAMED) == out[pos..]
    decreases |vars|
  {
    if |vars| == 0 {
    } else {
      var next := vars[0].posEnd + 1;
      IdentityFormat(out, next, vars[1..]);
      IdentityCons(out, pos, vars, next);
    }
  }

  // The provider of placeholders: it rewinds and rewrites its buffer on every call.
  class TemplateValueProvider {
    var buffer: string
    var position: nat

    constructor ()
      ensures Valid()
    {
      buffer, position := "", 0;
    }

    ghost predicate Valid()
      reads this
    {
      position <= |buffer|
    }

    method GetValue(variable: Variable, index: nat) returns (value: string)
      requires Valid()
      modifies this
      ensures Valid() && value == "?"
    {
      position := 0;
      buffer := buffer[..position] + "?" + (if position + 1 <= |buffer| then buffer[position + 1..] else "");
      position := position + 1;
      value := buffer[..position];
    }
  }

  const PLACEHOLDER: Variable -> string := v => "?"

  // The prepared text of a template.
  function Prepared(t: StringTemplate): string
    requires Placed(|t.text|, 0, t.variables)
  {
    Format(t.text, 0, t.variables, PLACEHOLDER)
  }

  // Writing out the next parameter after `s`: the gap before it, then its placeholder.
  lemma FormatNext(text: string, pos: nat, vars: seq<Variable>, s: string, tail: string)
    returns (gap: string, rest: string)
    requires Placed(|text|, pos, vars) && |vars| > 0 && tail == Format(text, pos, vars, PLACEHOLDER)
    ensures Placed(|text|, vars[0].posEnd + 1, vars[1..]) && gap == text[pos..vars[0].posStart]
    ensures rest == Format(text, vars[0].posEnd + 1, vars[1..], PLACEHOLDER)
    ensures s + tail == s + gap + "?" + rest
  {
    gap := text[pos..vars[0].posStart];
    rest := Format(text, vars[0].posEnd + 1, vars[1..], PLACEHOLDER);
    Grow(s, gap, "?" + rest);
    Grow(s + gap, "?", rest);
  }

  lemma FormatNone(text: string, pos: nat, vars: seq<Variable>, s: string, tail: string)
    requires Placed(|text|, pos, vars) && |vars| == 0 && tail == Format(text, pos, vars, PLACEHOLDER)
    ensures s + tail == if pos < |text| then s + text[pos..] else s
  {
  }

  method FormatTemplate(t: StringTemplate, provider: TemplateValueProvider) returns (s: string)
    requires Placed(|t.text|, 0, t.variables) && provider.Valid()
    modifies provider
    ensures s == Prepared(t)
  {
    s := "";
    var prevPos: nat := 0;
    var i := 0;
    ghost var whole, left, tail := Prepared(t), t.variables, Prepared(t);
    while i < |t.variables|
      invariant 0 <= i <= |t.variables| && left == t.variables[i..] && provider.Valid()
      invariant Placed(|t.text|, prevPos, left) && tail == Format(t.text, prevPos, left, PLACEHOLDER)
      invariant whole == s + tail
    {
      var v := t.variables[i];
      ghost var gap, rest := FormatNext(t.text, prevPos, left, s, tail);
      ghost var before := s;
      if prevPos < v.posStart {
        s := s + t.text[prevPos..v.posStart];
      }
      assert s == before + gap;
      var value := provider.GetValue(v, i);
      s := s + value;
      prevPos := v.posEnd + 1;
      i := i + 1;
      left, tail := left[1..], rest;
    }
    FormatNone(t.text, prevPos, left, s, tail);
    if prevPos < |t.text| {
      s := s + t.text[prevPos..];
    }
  }
}

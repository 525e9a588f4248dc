/**
 Compilation preserves meaning: reading the prepared text with values bound to its placeholders is
 reading the template with values given to its named parameters.
 */
module Meaning {
  import opened Wrappers
  import opened Lexing
  import opened Tokens
  import opened QueryParser
  import opened Agreement
  import opened Parameters
  import opened Templates

  // A piece of a statement: a character of its text, or a place filled by a value.
  datatype Fragment<V> = Char(c: char) | Arg(value: Option<V>)

  function Chars<V>(s: string): seq<Fragment<V>> {
    if |s| == 0 then [] else [Char(s[0])] + Chars(s[1..])
  }

  // The statement a prepared text stands for when value number k, from `k` on, is bound to its
  // successive `?`. Question marks in quoted and dollar literals are text.
  function Positional<V>(s: string, k: nat, bound: map<nat, V>): seq<Fragment<V>>
    decreases |s|
  {
    if |s| == 0 then
      []
    else if StartsLiteral(s[0]) then
      var n := LiteralSpan(s).len;
      Chars(s[..n]) + Positional(s[n..], k, bound)
    else if s[0] == '?' then
      [Arg(if k in bound then Some(bound[k]) else None)] + Positional(s[1..], k + 1, bound)
    else
      [Char(s[0])] + Positional(s[1..], k, bound)
  }

  // The statement a template stands for when its named parameters are given values.
  function Named<V>(text: string, pos: nat, vars: seq<Variable>, value: string -> Option<V>): seq<Fragment<V>>
    decreases |text| - pos
  {
    if pos >= |text| then
      []
    else if vars != [] && vars[0].posStart == pos <= vars[0].posEnd then
      [Arg(value(vars[0].name))] + Named(text, vars[0].posEnd + 1, vars[1..], value)
    else
      [Char(text[pos])] + Named(text, pos + 1, vars, value)
  }

  lemma {:induction false} CharsConcat<V>(a: string, b: string)
    ensures Chars<V>(a + b) == Chars(a) + Chars(b)
  {
    if |a| == 0 {
      assert a + b == b;
    } else {
      assert (a + b)[1..] == a[1..] + b;
      CharsConcat<V>(a[1..], b);
    }
  }

  lemma {:induction false} NamedAdvance<V>(text: string, pos: nat, next: nat, w: string, vars: seq<Variable>,
                                           value: string -> Option<V>)
    requires pos <= next <= |text| && w == text[pos..next] && (vars != [] ==> next <= vars[0].posStart)
    ensures Named(text, pos, vars, value) == Chars(w) + Named(text, next, vars, value)
    decreases next - pos
  {
    if pos < next {
      assert w[1..] == text[pos + 1..next];
      NamedAdvance(text, pos + 1, next, w[1..], vars, value);
      Grow([Fragment<V>.Char(w[0])], Chars(w[1..]), Named(text, next, vars, value));
    }
  }

  lemma PositionalQuotes<V>(s: string, k: nat, bound: map<nat, V>, n: nat)
    requires QuoteSpan(s, false).len == n
    ensures Positional(s, k, bound) == Chars(s[..n]) + Positional(s[n..], k, bound)
  {
    if n == 0 {
      assert s[n..] == s;
    }
  }

  // A literal is text, even when the next character continues it.
  lemma PositionalLiteral<V>(lit: string, rest: string, k: nat, bound: map<nat, V>)
    requires |lit| > 0 && StartsLiteral(lit[0]) && LiteralSpan(lit) == Span(|lit|, true)
    ensures Positional(lit + rest, k, bound) == Chars(lit) + Positional(rest, k, bound)
  {
    var s := lit + rest;
    if lit[0] == '\'' {
      var n := QuoteSpan(rest, false).len;
      QuoteSpanConcat(lit, false, rest);
      PositionalQuotes(s, k, bound, |lit| + n);
      PositionalQuotes(rest, k, bound, n);
      assert s[..|lit| + n] == lit + rest[..n] && s[|lit| + n..] == rest[n..];
      CharsConcat<V>(lit, rest[..n]);
      Grow(Chars<V>(lit), Chars(rest[..n]), Positional(rest[n..], k, bound));
    } else {
      LiteralSpanConcat(lit, rest);
      assert s[..|lit|] == lit && s[|lit|..] == rest;
    }
  }

  // The question marks of the processed text that are not in a literal.
  function BareCount(ts: seq<Token>): nat {
    if ts == [] then 0 else (if ts[0] == Plain('?') then 1 else 0) + BareCount(ts[1..])
  }

  // The values bound from index `k` on are those the parameters are given.
  ghost predicate Bindings<V>(k: nat, vars: seq<Variable>, bound: map<nat, V>, value: string -> Option<V>)
    decreases |vars|
  {
    vars == [] ||
    ((if k in bound then Some(bound[k]) else None) == value(vars[0].name) &&
     Bindings(k + 1, vars[1..], bound, value))
  }

  // Every parameter starts where a colon token is written.
  ghost predicate Colons(ts: seq<Token>, pos: nat, vars: seq<Variable>) {
    forall i :: 0 <= i < |vars| ==> vars[i].posStart >= pos && ColonAt(ts, vars[i].posStart - pos)
  }

  lemma ColonsTail(ts: seq<Token>, pos: nat, next: nat, vars: seq<Variable>)
    requires ts != [] && Colons(ts, pos, vars) && next == pos + |Written(ts[0])|
    requires forall i :: 0 <= i < |vars| ==> vars[i].posStart >= next
    ensures Colons(ts[1..], next, vars)
  {
    forall i | 0 <= i < |vars| ensures ColonAt(ts[1..], vars[i].posStart - next) {
      var m := vars[i].posStart - pos;
      assert ColonAt(ts, m) && m - |Written(ts[0])| == vars[i].posStart - next;
    }
  }

  lemma ColonsCut(ts: seq<Token>, pos: nat, next: nat, n: nat, vars: seq<Variable>)
    requires Good(ts) && Boundary(ts, n) && next == pos + n && Colons(ts, pos, vars)
    requires forall i :: 0 <= i < |vars| ==> vars[i].posStart >= next
    ensures Colons(Cut(ts, n), next, vars)
  {
    forall i | 0 <= i < |vars| ensures ColonAt(Cut(ts, n), vars[i].posStart - next) {
      ColonCut(ts, n, vars[i].posStart - pos, vars[i].posStart - next);
    }
  }

  // The prepared text from a place on, read with bound values, is the template read from there.
  ghost predicate Same<V>(prepared: string, k: nat, bound: map<nat, V>, out: string, pos: nat, vars: seq<Variable>,
                        value: string -> Option<V>)
  {
    Positional(prepared, k, bound) == Named(out, pos, vars, value)
  }

  lemma SamePrefix<T>(w: seq<T>, a: seq<T>, b: seq<T>)
    ensures w + a == w + b <==> a == b
  {
    assert (w + a)[|w|..] == a && (w + b)[|w|..] == b;
  }

  lemma SameChar<V>(prepared: string, rest: string, k: nat, bound: map<nat, V>, out: string, pos: nat, next: nat,
                    vars: seq<Variable>, value: string -> Option<V>)
    requires pos < |out| && next == pos + 1 && !StartsLiteral(out[pos]) && prepared == [out[pos]] + rest
    requires vars != [] ==> next <= vars[0].posStart
    ensures if out[pos] == '?' then !Same(prepared, k, bound, out, pos, vars, value)
            else Same(prepared, k, bound, out, pos, vars, value) <==> Same(rest, k, bound, out, next, vars, value)
  {
    assert prepared[1..] == rest;
    var c := [Fragment<V>.Char(out[pos])];
    if out[pos] == '?' {
      assert Positional(prepared, k, bound)[0].Arg?;
      assert Named(out, pos, vars, value)[0].Char?;
    } else {
      SamePrefix(c, Positional(rest, k, bound), Named(out, next, vars, value));
    }
  }

  lemma SameLiteral<V>(lit: string, rest: string, k: nat, bound: map<nat, V>, out: string, pos: nat, next: nat,
                       vars: seq<Variable>, value: string -> Option<V>)
    requires |lit| > 0 && StartsLiteral(lit[0]) && LiteralSpan(lit) == Span(|lit|, true)
    requires pos <= next <= |out| && lit == out[pos..next] && (vars != [] ==> next <= vars[0].posStart)
    ensures Same(lit + rest, k, bound, out, pos, vars, value) <==> Same(rest, k, bound, out, next, vars, value)
  {
    PositionalLiteral(lit, rest, k, bound);
    NamedAdvance(out, pos, next, lit, vars, value);
    SamePrefix(Chars<V>(lit), Positional(rest, k, bound), Named(out, next, vars, value));
  }

  lemma SameArg<V>(rest: string, k: nat, bound: map<nat, V>, out: string, pos: nat, next: nat,
                   vars: seq<Variable>, value: string -> Option<V>)
    requires pos < |out| && vars != [] && vars[0].posStart == pos <= vars[0].posEnd && next == vars[0].posEnd + 1
    requires Bindings(k, vars, bound, value)
    ensures Same("?" + rest, k, bound, out, pos, vars, value) <==>
            Same(rest, k + 1, bound, out, next, vars[1..], value)
  {
    assert ("?" + rest)[1..] == rest;
    SamePrefix([Fragment<V>.Arg(value(vars[0].name))], Positional(rest, k + 1, bound),
               Named(out, next, vars[1..], value));
  }

  // A name holds no question mark.
  lemma {:induction false} NameNotBare(ts: seq<Token>, n: nat)
    requires Good(ts) && n == NameLen(Out(ts)) && Boundary(ts, n)
    ensures BareCount(Cut(ts, n)) == BareCount(ts)
  {
    if n == 0 {
    } else {
      OutStarts(ts);
      if ts[0].Plain? {
        NameNotBare(ts[1..], n - 1);
      } else if IsMarker(ts[0]) {
        NameNotBare(ts[1..], n);
      }
    }
  }

  lemma NoneInside(out: string, ts: seq<Token>, pos: nat, next: nat, vars: seq<Variable>)
    requires ts != [] && Spans(out, pos, vars) && Colons(ts, pos, vars) && next == pos + |Written(ts[0])|
    requires ts[0] != Plain(':') || (vars != [] ==> vars[0].posStart != pos)
    ensures Spans(out, next, vars) && forall i :: 0 <= i < |vars| ==> vars[i].posStart >= next
  {
    if vars != [] {
      assert ColonAt(ts, vars[0].posStart - pos);
      forall i | 0 <= i < |vars| ensures vars[i].posStart >= next {
        SpansStart(out, next, vars, i);
      }
    }
  }

  // What the induction over the tokens keeps: `prepared` is the rest of the prepared text.
  ghost predicate InStep<V>(out: string, ts: seq<Token>, pos: nat, vars: seq<Variable>, prepared: string, k: nat,
                                bound: map<nat, V>, value: string -> Option<V>)
  {
    && pos <= |out| && Good(ts) && !HasBroken(ts) && Out(ts) == out[pos..]
    && Spans(out, pos, vars) && Placed(|out|, pos, vars) && Colons(ts, pos, vars)
    && prepared == Format(out, pos, vars, PLACEHOLDER) && Bindings(k, vars, bound, value)
  }

  // Passing over a token that does not start a parameter.
  lemma PassToken<V>(out: string, ts: seq<Token>, pos: nat, next: nat, vars: seq<Variable>, prepared: string, k: nat,
                     bound: map<nat, V>, value: string -> Option<V>, w: string, rest: string)
    requires InStep(out, ts, pos, vars, prepared, k, bound, value) && ts != []
    requires w == Written(ts[0]) && next == pos + |w|
    requires ts[0] != Plain(':') || (vars != [] ==> vars[0].posStart != pos)
    requires next <= |out| && Placed(|out|, next, vars) ==> rest == Format(out, next, vars, PLACEHOLDER)
    ensures InStep(out, ts[1..], next, vars, rest, k, bound, value)
    ensures next <= |out| && w == out[pos..next] && prepared == w + rest
    ensures vars != [] ==> next <= vars[0].posStart
  {
    NoneInside(out, ts, pos, next, vars);
    ColonsTail(ts, pos, next, vars);
    assert Out(ts)[|w|..] == Out(ts[1..]) && Out(ts)[..|w|] == w;
    SpansArePlaced(out, next, vars);
    FormatAdvance(out, pos, next, w, vars, PLACEHOLDER);
  }

  // The tokens of a parameter.
  lemma ParameterTokens(out: string, ts: seq<Token>, pos: nat, next: nat, n: nat)
    requires pos < |out| && Good(ts) && !HasBroken(ts) && Out(ts) == out[pos..] && ts != [] && ts[0] == Plain(':')
    requires next == NameEnd(out, pos + 1) == pos + n
    ensures Boundary(ts, n) && Good(Cut(ts, n)) && !HasBroken(Cut(ts, n)) && Out(Cut(ts, n)) == out[next..]
    ensures BareCount(Cut(ts, n)) == BareCount(ts)
  {
    var from, m := pos + 1, n - 1;
    OutStarts(ts);
    LeftAfter(out, pos, Out(ts), 1, Out(ts[1..]));
    NameEndIsNameLen(out, from);
    NameAligned(ts[1..]);
    ParameterCut(ts, n, m);
    CutFacts(ts, n);
    LeftAfter(out, pos, Out(ts), n, Out(Cut(ts, n)));
  }

  lemma ParameterCut(ts: seq<Token>, n: nat, m: nat)
    requires Good(ts) && ts != [] && ts[0] == Plain(':') && n == m + 1 && m == NameLen(Out(ts[1..]))
    requires Boundary(ts[1..], m)
    ensures Boundary(ts, n) && BareCount(Cut(ts, n)) == BareCount(ts)
  {
    BoundaryCons(ts, n, m);
    NameNotBare(ts[1..], m);
  }

  // The parameters behind the first one.
  lemma ParametersBehind(out: string, ts: seq<Token>, pos: nat, next: nat, n: nat, vars: seq<Variable>,
                         later: seq<Variable>)
    requires Good(ts) && Boundary(ts, n) && Spans(out, pos, vars) && Colons(ts, pos, vars)
    requires vars != [] && later == vars[1..] && next == vars[0].posEnd + 1 == pos + n
    ensures Spans(out, next, later) && Colons(Cut(ts, n), next, later)
  {
    forall i | 0 <= i < |later| ensures later[i].posStart >= next && ColonAt(ts, later[i].posStart - pos) {
      SpansStart(out, next, later, i);
      assert later[i] == vars[i + 1];
    }
    ColonsCut(ts, pos, next, n, later);
  }

  // Passing over a parameter.
  lemma PassParameter<V>(out: string, ts: seq<Token>, pos: nat, next: nat, n: nat, vars: seq<Variable>,
                         prepared: string,
                         k: nat, bound: map<nat, V>, value: string -> Option<V>, rest: string, later: seq<Variable>)
    requires InStep(out, ts, pos, vars, prepared, k, bound, value)
    requires ts != [] && ts[0] == Plain(':') && vars != [] && vars[0].posStart == pos && later == vars[1..]
    requires next == vars[0].posEnd + 1 == pos + n && rest == Format(out, next, later, PLACEHOLDER)
    ensures Boundary(ts, n) && InStep(out, Cut(ts, n), next, later, rest, k + 1, bound, value)
    ensures BareCount(Cut(ts, n)) == BareCount(ts) && prepared == "?" + rest
  {
    ParameterTokens(out, ts, pos, next, n);
    ParametersBehind(out, ts, pos, next, n, vars, later);
    assert out[pos..pos] == "";
  }

  // The prepared text means what the template does exactly when no question mark of the template
  // is outside a literal.
  lemma {:induction false} MeaningFrom<V>(out: string, ts: seq<Token>, pos: nat, vars: seq<Variable>, prepared: string,
                                          k: nat, bound: map<nat, V>, value: string -> Option<V>)
    requires InStep(out, ts, pos, vars, prepared, k, bound, value)
    ensures Same(prepared, k, bound, out, pos, vars, value) <==> BareCount(ts) == 0
    decreases |out| - pos, |ts|
  {
    if ts == [] {
      assert pos == |out| && vars == [];
    } else if ts[0] == Plain(':') && vars != [] && vars[0].posStart == pos {
      var next := vars[0].posEnd + 1;
      var n := next - pos;
      var later := vars[1..];
      var rest := Format(out, next, later, PLACEHOLDER);
      PassParameter(out, ts, pos, next, n, vars, prepared, k, bound, value, rest, later);
      MeaningFrom(out, Cut(ts, n), next, later, rest, k + 1, bound, value);
      SameArg(rest, k, bound, out, pos, next, vars, value);
    } else {
      MeaningPast(out, ts, pos, vars, prepared, k, bound, value);
    }
  }

  lemma MeaningPast<V>(out: string, ts: seq<Token>, pos: nat, vars: seq<Variable>, prepared: string,
                       k: nat, bound: map<nat, V>, value: string -> Option<V>)
    requires InStep(out, ts, pos, vars, prepared, k, bound, value)
    requires ts != [] && !(ts[0] == Plain(':') && vars != [] && vars[0].posStart == pos)
    ensures Same(prepared, k, bound, out, pos, vars, value) <==> BareCount(ts) == 0
    decreases |out| - pos, |ts|, 0
  {
    var w := Written(ts[0]);
    var next := pos + |w|;
    var rest := if next <= |out| && Placed(|out|, next, vars) then Format(out, next, vars, PLACEHOLDER) else "";
    OutStarts(ts);
    PassToken(out, ts, pos, next, vars, prepared, k, bound, value, w, rest);
    MeaningFrom(out, ts[1..], next, vars, rest, k, bound, value);
    match ts[0]
    case Plain(_) => SameChar(prepared, rest, k, bound, out, pos, next, vars, value);
    case Literal(_, _) => SameLiteral(w, rest, k, bound, out, pos, next, vars, value);
    case _ =>
  }

  // ---------- How many placeholders there are ----------

  function Args<V>(fs: seq<Fragment<V>>): nat {
    if fs == [] then 0 else (if fs[0].Arg? then 1 else 0) + Args(fs[1..])
  }

  lemma {:induction false} ArgsConcat<V>(a: seq<Fragment<V>>, b: seq<Fragment<V>>)
    ensures Args(a + b) == Args(a) + Args(b)
  {
    if a == [] {
      assert a + b == b;
    } else {
      assert (a + b)[1..] == a[1..] + b;
      ArgsConcat(a[1..], b);
    }
  }

  lemma {:induction false} CharsNoArgs<V>(s: string)
    ensures Args(Chars<V>(s)) == 0
  {
    if |s| == 0 {
    } else {
      assert Chars<V>(s)[1..] == Chars(s[1..]);
      CharsNoArgs<V>(s[1..]);
    }
  }

  function Placeholders(s: string, k: nat): nat {
    Args(Positional<int>(s, k, map[]))
  }

  lemma PlaceholdersStep(c: char, rest: string, k: nat)
    requires !StartsLiteral(c)
    ensures Placeholders([c] + rest, k) == if c == '?' then 1 + Placeholders(rest, k + 1) else Placeholders(rest, k)
  {
    assert ([c] + rest)[1..] == rest;
    var head := Positional<int>([c] + rest, k, map[])[0];
    ArgsConcat([head], Positional<int>(rest, if c == '?' then k + 1 else k, map[]));
  }

  lemma PlaceholdersLiteral(lit: string, rest: string, k: nat)
    requires |lit| > 0 && StartsLiteral(lit[0]) && LiteralSpan(lit) == Span(|lit|, true)
    ensures Placeholders(lit + rest, k) == Placeholders(rest, k)
  {
    PositionalLiteral<int>(lit, rest, k, map[]);
    ArgsConcat(Chars<int>(lit), Positional(rest, k, map[]));
    CharsNoArgs<int>(lit);
  }

  const NOTHING: string -> Option<int> := name => None

  lemma {:induction false} CountFrom(out: string, ts: seq<Token>, pos: nat, vars: seq<Variable>, prepared: string,
                                     k: nat)
    requires InStep(out, ts, pos, vars, prepared, k, map[], NOTHING)
    ensures Placeholders(prepared, k) == |vars| + BareCount(ts)
    decreases |out| - pos, |ts|
  {
    if ts == [] {
      assert pos == |out| && vars == [];
    } else if ts[0] == Plain(':') && vars != [] && vars[0].posStart == pos {
      var next := vars[0].posEnd + 1;
      var n := next - pos;
      var later := vars[1..];
      var rest := Format(out, next, later, PLACEHOLDER);
      PassParameter(out, ts, pos, next, n, vars, prepared, k, map[], NOTHING, rest, later);
      CountFrom(out, Cut(ts, n), next, later, rest, k + 1);
      PlaceholdersStep('?', rest, k);
    } else {
      CountPast(out, ts, pos, vars, prepared, k);
    }
  }

  lemma CountPast(out: string, ts: seq<Token>, pos: nat, vars: seq<Variable>, prepared: string, k: nat)
    requires InStep(out, ts, pos, vars, prepared, k, map[], NOTHING)
    requires ts != [] && !(ts[0] == Plain(':') && vars != [] && vars[0].posStart == pos)
    ensures Placeholders(prepared, k) == |vars| + BareCount(ts)
    decreases |out| - pos, |ts|, 0
  {
    var w := Written(ts[0]);
    var next := pos + |w|;
    var rest := if next <= |out| && Placed(|out|, next, vars) then Format(out, next, vars, PLACEHOLDER) else "";
    PassToken(out, ts, pos, next, vars, prepared, k, map[], NOTHING, w, rest);
    CountFrom(out, ts[1..], next, vars, rest, k);
    CountToken(ts[0], w, rest, k);
    BareCountStep(ts);
  }

  lemma BareCountStep(ts: seq<Token>)
    requires |ts| > 0
    ensures BareCount(ts) == (if ts[0] == Plain('?') then 1 else 0) + BareCount(ts[1..])
  {
  }

  // A token that is no parameter adds a placeholder exactly when it is a bare question mark.
  lemma CountToken(t: Token, w: string, rest: string, k: nat)
    requires GoodToken(t) && !IsBroken(t) && w == Written(t)
    ensures Placeholders(w + rest, k) == (if t == Plain('?') then 1 else 0) + Placeholders(rest, k)
  {
    match t
    case Plain(c) =>
      PlaceholdersStep(c, rest, k);
      if c == '?' {
        PlaceholdersShift(rest, k, k + 1);
      }
    case Literal(_, _) => PlaceholdersLiteral(w, rest, k);
    case _ => assert w + rest == rest;
  }

  lemma PlaceholdersShift(s: string, k: nat, k': nat)
    ensures Placeholders(s, k) == Placeholders(s, k')
  {
    PositionalShift(s, k, k');
  }

  lemma {:induction false} PositionalShift(s: string, k: nat, k': nat)
    ensures Positional<int>(s, k, map[]) == Positional<int>(s, k', map[])
    decreases |s|
  {
    if |s| == 0 {
    } else {
      if StartsLiteral(s[0]) {
        PositionalShift(s[LiteralSpan(s).len..], k, k');
      } else if s[0] == '?' {
        PositionalShift(s[1..], k + 1, k' + 1);
      } else {
        PositionalShift(s[1..], k, k');
      }
    }
  }

  // ---------- Whole templates ----------

  // The question marks of a template that are not in a literal.
  function BareQuestionMarks(text: string): nat {
    BareCount(Tokenize(text, false))
  }

  lemma CompiledInStep<V>(text: string, bound: map<nat, V>, value: string -> Option<V>)
    requires Scanned(text).ok && Bindings(1, Scanned(text).variables, bound, value)
    ensures var out, vars := Preprocessed(text).text, Scanned(text).variables;
            Placed(|out|, 0, vars) &&
            InStep(out, Tokenize(text, false), 0, vars, Format(out, 0, vars, PLACEHOLDER), 1, bound, value)
  {
    var out, vars, ts := Preprocessed(text).text, Scanned(text).variables, Tokenize(text, false);
    TokenizeGood(text, false);
    SwallowedErrorIsRaised(text);
    ParametersFoundExactly(text);
    SpansArePlaced(out, 0, vars);
    forall i | 0 <= i < |vars| ensures vars[i].posStart >= 0 && ColonAt(ts, vars[i].posStart - 0) {
      assert StartsAt(vars, vars[i].posStart);
    }
  }

  // A template that compiles formats without failing.
  lemma CompiledIsPlaced(text: string)
    requires Scanned(text).ok
    ensures Placed(|Preprocessed(text).text|, 0, Scanned(text).variables)
  {
    ParametersFoundExactly(text);
    SpansArePlaced(Preprocessed(text).text, 0, Scanned(text).variables);
  }

  // The template a text compiles to.
  ghost function Compiled(text: string): (t: StringTemplate)
    requires Scanned(text).ok
    ensures Placed(|t.text|, 0, t.variables)
  {
    CompiledIsPlaced(text);
    StringTemplate(Preprocessed(text).text, Scanned(text).variables)
  }

  // With the k-th value bound to the k-th placeholder, the prepared text means what the template
  // means with that value given to its k-th parameter, if and only if the template holds no
  // question mark outside literals.
  lemma CompilationPreservesMeaning<V>(text: string, bound: map<nat, V>, value: string -> Option<V>)
    requires Scanned(text).ok && Bindings(1, Compiled(text).variables, bound, value)
    ensures var t := Compiled(text);
            Positional(Prepared(t), 1, bound) == Named(t.text, 0, t.variables, value) <==>
            BareQuestionMarks(text) == 0
  {
    var t := Compiled(text);
    CompiledInStep(text, bound, value);
    MeaningFrom(t.text, Tokenize(text, false), 0, t.variables, Prepared(t), 1, bound, value);
  }

  // The prepared text has one placeholder for each parameter, and one more for each question mark
  // of the template outside literals.
  lemma PlaceholdersCounted(text: string)
    requires Scanned(text).ok
    ensures Placeholders(Prepared(Compiled(text)), 1) == |Compiled(text).variables| + BareQuestionMarks(text)
  {
    var t := Compiled(text);
    NothingBound(1, t.variables);
    CompiledInStep(text, map[], NOTHING);
    CountFrom(t.text, Tokenize(text, false), 0, t.variables, Prepared(t), 1);
  }

  lemma {:induction false} NothingBound(k: nat, vars: seq<Variable>)
    ensures Bindings(k, vars, map[], NOTHING)
    decreases |vars|
  {
    if |vars| == 0 {
    } else {
      NothingBound(k + 1, vars[1..]);
    }
  }

  // Formatting every parameter with a colon and its own name gives back the processed text.
  lemma NamesRestoreText(text: string)
    requires Scanned(text).ok
    ensures var t := Compiled(text);
            Format(t.text, 0, t.variables, NAMED) == Preprocessed(text).text
  {
    ParametersFoundExactly(text);
    IdentityFormat(Compiled(text).text, 0, Compiled(text).variables);
  }

  // What is left behind the first parameter does not start with a name character.
  lemma FirstEnds(out: string, lo: nat, vars: seq<Variable>, rest: string)
    requires vars != [] && Spans(out, lo, vars) && Placed(|out|, vars[0].posEnd + 1, vars[1..])
    requires rest == Format(out, vars[0].posEnd + 1, vars[1..], PLACEHOLDER)
    ensures rest != "" ==> !IsNameChar(rest[0])
  {
    NameEndMaximal(out, vars[0].posStart + 1);
  }

  // Formatting the parameters from the `i`-th one on ends the formatted text.
  lemma {:induction false} FormatEnds(out: string, pos: nat, vars: seq<Variable>, i: nat, left: seq<Variable>)
    returns (head: string, from: nat)
    requires Spans(out, pos, vars) && Placed(|out|, pos, vars) && i <= |vars| && left == vars[i..]
    ensures Spans(out, from, left) && Placed(|out|, from, left)
    ensures Format(out, pos, vars, PLACEHOLDER) == head + Format(out, from, left, PLACEHOLDER)
    decreases |vars|
  {
    if i == 0 {
      head, from := "", pos;
    } else {
      var next, later := vars[0].posEnd + 1, vars[1..];
      var gap := out[pos..vars[0].posStart];
      var before;
      before, from := FormatEnds(out, next, later, i - 1, left);
      head := gap + ("?" + before);
      Grow("?", before, Format(out, from, left, PLACEHOLDER));
      Grow(gap, "?" + before, Format(out, from, left, PLACEHOLDER));
    }
  }

  lemma PlaceholderEnds(out: string, vars: seq<Variable>, i: nat) returns (head: string, tail: string)
    requires Spans(out, 0, vars) && Placed(|out|, 0, vars) && i < |vars|
    ensures Placed(|out|, vars[i].posEnd + 1, vars[i + 1..])
    ensures tail == Format(out, vars[i].posEnd + 1, vars[i + 1..], PLACEHOLDER)
    ensures Format(out, 0, vars, PLACEHOLDER) == head + ("?" + tail) && (tail != "" ==> !IsNameChar(tail[0]))
  {
    var left, before, from := vars[i..], "", 0;
    before, from := FormatEnds(out, 0, vars, i, left);
    assert left[0] == vars[i] && left[1..] == vars[i + 1..];
    var gap := out[from..left[0].posStart];
    tail := Format(out, vars[i].posEnd + 1, vars[i + 1..], PLACEHOLDER);
    FirstEnds(out, from, left, tail);
    Grow(before, gap, "?" + tail);
    head := before + gap;
  }

  // The placeholder of the `i`-th parameter is not followed by a digit, which SQLite would read as
  // a numbered parameter, nor by any other name character.
  lemma PlaceholdersNotNumbered(text: string, i: nat) returns (head: string, tail: string)
    requires Scanned(text).ok && i < |Compiled(text).variables|
    ensures var t := Compiled(text);
            && Placed(|t.text|, t.variables[i].posEnd + 1, t.variables[i + 1..])
            && tail == Format(t.text, t.variables[i].posEnd + 1, t.variables[i + 1..], PLACEHOLDER)
            && Prepared(t) == head + ("?" + tail)
            && (tail != "" ==> !IsNameChar(tail[0]) && !('0' <= tail[0] <= '9'))
  {
    var t := Compiled(text);
    ParametersFoundExactly(text);
    head, tail := PlaceholderEnds(t.text, t.variables, i);
  }
}

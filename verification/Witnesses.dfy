/** Concrete inputs on which a law that one might expect of the original does not hold. */
module Witnesses {
  import opened Wrappers
  import opened Lexing
  import opened Tokens
  import opened QueryParser
  import opened SectionSkips
  import opened Parameters
  import opened Templates
  import opened Meaning
  import opened Cells
  import opened Migration
  import opened MigrationRuns
  import opened QueryExecutor
  import opened RowObject

  // Pass 1 at the front of a text: what it will end with is what it would end with one token on.
  ghost function Ends(s: string, ss: string, secs: seq<CleanSection>, start: int): Pass1
    requires -1 <= start <= |ss|
  {
    Finished(ss, secs, start, Tokenize(s, start != -1))
  }

  lemma FirstStep(t: Token, rest: seq<Token>, ss: string, secs: seq<CleanSection>, start: int, ss': string,
                  secs': seq<CleanSection>, start': int)
    requires -1 <= start <= |ss| && -1 <= start' <= |ss'| && !IsBroken(t)
    requires Stepped(t, ss, secs, start, ss', secs', start')
    ensures Finished(ss, secs, start, [t] + rest) == Finished(ss', secs', start', rest)
  {
    assert ([t] + rest)[1..] == rest;
    FinishedStep(ss, secs, start, [t] + rest, ss', secs', start');
  }

  lemma EndsPlain(s: string, c: char, rest: string, ss: string, secs: seq<CleanSection>, start: int, ss': string)
    requires -1 <= start <= |ss| && s == [c] + rest && !StartsLiteral(c) && c != '<' && c != '!' && ss' == ss + [c]
    ensures Ends(s, ss, secs, start) == Ends(rest, ss', secs, start)
  {
    PlainToken(s, start != -1, c, rest);
    FirstStep(Plain(c), Tokenize(rest, start != -1), ss, secs, start, ss', secs, start);
  }

  lemma EndsOpen(s: string, rest: string, ss: string, secs: seq<CleanSection>, start': nat)
    requires s == OPEN_MARK + rest && start' == |ss|
    ensures Ends(s, ss, secs, -1) == Ends(rest, ss, secs, start')
  {
    assert s[3..] == rest;
    FirstStep(Open, Tokenize(rest, true), ss, secs, -1, ss, secs, start');
  }

  lemma EndsClose(s: string, rest: string, ss: string, secs: seq<CleanSection>, start: nat, secs': seq<CleanSection>)
    requires s == CLOSE_MARK + rest && start <= |ss| && secs' == secs + [CleanSection(start, |ss| - start)]
    ensures Ends(s, ss, secs, start) == Ends(rest, ss, secs', -1)
  {
    assert s[3..] == rest;
    FirstStep(Close, Tokenize(rest, false), ss, secs, start, ss, secs', -1);
  }

  const MISSED := ":n<!!m!!>"

  lemma MissedEnds(s: string, a: string, b: string, c: string, d: string, secs: seq<CleanSection>)
    requires s == [':'] + a && a == ['n'] + b && b == OPEN_MARK + c && c == ['m'] + d && d == CLOSE_MARK + ""
    requires secs == [] + [CleanSection(2, 1)]
    ensures Ends(s, "", [], -1) == Ends("", ":nm", secs, -1)
  {
    EndsPlain(s, ':', a, "", [], -1, ":");
    EndsPlain(a, 'n', b, ":", [], -1, ":n");
    EndsOpen(b, c, ":n", [], 2);
    EndsPlain(c, 'm', d, ":n", [], 2, ":nm");
    EndsClose(d, "", ":nm", [], 2, secs);
  }

  lemma MissedPreprocessed()
    ensures Preprocessed(MISSED) == Processed(":nm", [CleanSection(2, 1)])
  {
    var secs := [CleanSection(2, 1)];
    MissedEnds(MISSED, "n<!!m!!>", "<!!m!!>", "m!!>", "!!>", secs);
    ReadThrough(Tokenize(MISSED, false), ":nm", secs);
  }

  // Reading that ends with nothing left gives the processed text and its sections.
  lemma ReadThrough(ts: seq<Token>, ss: string, secs: seq<CleanSection>)
    requires Finished("", [], -1, ts) == Finished(ss, secs, -1, [])
    ensures Out(ts) == ss && Sections(ts, 0, -1) == secs
  {
    Grow(ss, [], []);
    Grow(secs, [], []);
    Grow("", Out(ts), []);
    assert [] + Sections(ts, 0, -1) == Sections(ts, 0, -1) && "" + Out(ts) == Out(ts);
    assert Out([]) == "" && Sections([], |ss|, -1) == [];
  }

  // A name that runs from a gap into a section: the section is missed, and the parameter found
  // reaches into it.
  lemma MissedSection()
    ensures Preprocessed(MISSED) == Processed(":nm", [CleanSection(2, 1)])
    ensures Scanned(MISSED) == Pass2([Variable(0, 2, "nm")], true, 0)
    ensures !Apart(Variable(0, 2, "nm"), CleanSection(2, 1))
  {
    MissedPreprocessed();
    var out, secs := ":nm", [CleanSection(2, 1)];
    assert NameEnd(out, 3) == 3 && NameEnd(out, 2) == 3 && NameEnd(out, 1) == 3;
    assert InBounds(secs, |out|);
    PassTwoStep(out, secs, 0, 0, [], PassTwo(out, secs, 0, 0), StepEnd(out, 0));
    assert PassTwo(out, secs, 3, 0) == Pass2([], true, 0);
    assert VariableAt(out, 0) == Variable(0, 2, "nm");
    assert [VariableAt(out, 0)] + [] == [VariableAt(out, 0)];
  }

  lemma EndsLiteral(s: string, w: string, rest: string, ss: string, secs: seq<CleanSection>, start: int, ss': string)
    requires -1 <= start <= |ss| && s == w + rest && ss' == ss + w
    requires |w| > 0 && StartsLiteral(w[0]) && LiteralSpan(w) == Span(|w|, true) && (|rest| > 0 ==> rest[0] != '\'')
    ensures Ends(s, ss, secs, start) == Ends(rest, ss', secs, start)
  {
    LiteralSpanConcat(w, rest);
    assert s[..|w|] == w && s[|w|..] == rest;
    FirstStep(Literal(w, true), Tokenize(rest, start != -1), ss, secs, start, ss', secs, start);
  }

  lemma JoinedEnds(p: string, q: string, s: string, a: string, b: string, c: string, secs: seq<CleanSection>)
    requires |p| == 3 && StartsLiteral(p[0]) && LiteralSpan(p) == Span(|p|, true)
    requires |q| == 3 && StartsLiteral(q[0]) && LiteralSpan(q) == Span(|q|, true)
    requires s == p + a && a == OPEN_MARK + b && b == q + c && c == CLOSE_MARK + ""
    requires secs == [] + [CleanSection(3, 3)]
    ensures Ends(s, "", [], -1) == Ends("", p + q, secs, -1)
  {
    assert "" + p == p;
    EndsLiteral(s, p, a, "", [], -1, p);
    EndsOpen(a, b, p, [], 3);
    EndsLiteral(b, q, c, p, [], 3, p + q);
    EndsClose(c, "", p + q, [], 3, secs);
  }

  lemma QuotedLetter(c: char)
    requires c != '\''
    ensures LiteralSpan(['\'', c, '\'']) == Span(3, true)
  {
    var s := ['\'', c, '\''];
    assert s[1..] == [c, '\''] && s[1..][1..] == ['\''] && s[1..][1..][1..] == [];
    assert QuoteSpan([], false) == Span(0, true);
    assert QuoteSpan(['\''], true) == Span(1, true);
    assert QuoteSpan([c, '\''], true) == Span(2, true);
  }

  lemma JoinedPreprocessed(p: string, q: string, text: string, out: string, a: string, b: string, c: string,
                           secs: seq<CleanSection>)
    requires |p| == 3 && StartsLiteral(p[0]) && LiteralSpan(p) == Span(|p|, true)
    requires |q| == 3 && StartsLiteral(q[0]) && LiteralSpan(q) == Span(|q|, true)
    requires text == p + a && a == OPEN_MARK + b && b == q + c && c == CLOSE_MARK + ""
    requires out == p + q && secs == [] + [CleanSection(3, 3)]
    ensures Preprocessed(text) == Processed(out, secs)
  {
    JoinedEnds(p, q, text, a, b, c, secs);
    ReadThrough(Tokenize(text, false), out, secs);
  }

  lemma OnlySectionMissed(text: string, out: string, sec: CleanSection)
    requires Preprocessed(text) == Processed(out, [sec]) && Blocked(out, 0, sec)
    ensures Scanned(text).used == 0
  {
    SectionsSkippedExactly(text, 0);
  }

  lemma JoinedCuts(text: string, out: string) returns (p: string, q: string, a: string, b: string, c: string)
    requires text == "'a'<!!'b'!!>" && out == "'a''b'"
    ensures p == ['\'', 'a', '\''] && q == ['\'', 'b', '\'']
    ensures text == p + a && a == OPEN_MARK + b && b == q + c && c == CLOSE_MARK + "" && out == p + q
  {
    p, q, a, b, c := "'a'", "'b'", "<!!'b'!!>", "'b'!!>", "!!>";
  }

  // Erasing a marker between two quoted literals makes one of them: the section that starts inside
  // it is missed.
  lemma JoinedQuotes(text: string, out: string)
    requires text == "'a'<!!'b'!!>" && out == "'a''b'"
    ensures Preprocessed(text) == Processed(out, [CleanSection(3, 3)]) && Scanned(text).used == 0
  {
    var p, q, a, b, c := JoinedCuts(text, out);
    QuotedLetter('a');
    QuotedLetter('b');
    JoinedPreprocessed(p, q, text, out, a, b, c, [CleanSection(3, 3)]);
    OnlySectionMissed(text, out, CleanSection(3, 3));
  }

  // A question mark of the template's own takes a binding away from the parameters.
  lemma BareQuestionMark(bound: map<nat, int>, value: string -> Option<int>)
    ensures Scanned("?") == Pass2([], true, 0) && BareQuestionMarks("?") == 1
    ensures Positional(Prepared(Compiled("?")), 1, bound) != Named("?", 0, [], value)
  {
    PlainToken("?", false, '?', "");
    assert Tokenize("?", false) == [Plain('?')] && [Plain('?')][1..] == [];
    assert Out([Plain('?')]) == "?" && Sections([Plain('?')], 0, -1) == [];
    assert PassTwo("?", [], 1, 0) == Pass2([], true, 0);
    assert PassTwo("?", [], 0, 0) == Pass2([], true, 0);
    assert Prepared(Compiled("?")) == "?";
    assert BareCount([Plain('?')]) == 1 + BareCount([]);
    CompilationPreservesMeaning("?", bound, value);
  }

  // A single dot at the end of a parameter name is lost.
  lemma TrailingDot()
    ensures SplitName("a.") == QueryParameter("a", []) == SplitName("a")
  {
    assert FindFrom("a.", 0, '.') == FindFrom("a.", 1, '.') == 1;
    assert FindFrom("a", 0, '.') == FindFrom("a", 1, '.') == 1;
  }

  // A null blob comes back as a null string, and a UInt8 cell of 256 as 0.
  lemma LossyCells(host: Host)
    ensures Deserialize(Serialize(BlobValue(None)).value, Blob, host) == Ok(StringValue(None))
    ensures SerializeInt(UInt8, DeserializeInt(UInt8, Integer(256)).value) == Integer(0)
  {
  }

  // A row of two polymorphic columns, each read as the type chosen when its turn comes.
  lemma TwoPolymorphs(a: Column, b: Column, fields: map<string, Field>, read: Reading, v: Value, w: Value)
    requires a.name in fields && Polymorphic(fields[a.name]) && b.name in fields && Polymorphic(fields[b.name])
    requires read(a.cell, Chosen(fields[a.name], map[])) == Ok(v)
    requires read(b.cell, Chosen(fields[b.name], map[a.name := AnyValue(Some(v))])) == Ok(w)
    ensures RowAsObject([a, b], fields, read, map[]) ==
            Ok(map[a.name := AnyValue(Some(v))][b.name := AnyValue(Some(w))])
  {
    var o, o': Object := map[], map[a.name := AnyValue(Some(v))];
    assert [a, b][1..] == [b] && [b][1..] == [] && o[a.name := AnyValue(Some(v))] == o';
    assert Polymorphs([b], fields) == [b] + Polymorphs([], fields) == [b];
    assert Polymorphs([a, b], fields) == [a] + Polymorphs([b], fields) == [a, b];
    assert PlainPass([b], fields, read, o) == PlainPass([], fields, read, o);
    assert PlainPass([a, b], fields, read, o) == PlainPass([b], fields, read, o) == Ok(o);
    assert PolyPass([b], fields, read, o') == PolyPass([], fields, read, o'[b.name := AnyValue(Some(w))]);
    assert PolyPass([a, b], fields, read, o) == PolyPass([b], fields, read, o');
  }

  // A selector that asks whether another polymorphic field is set: its own column is read as a blob
  // behind the other's, and as a string in front of it.
  lemma SelectorOnPolymorphicField(host: Host)
    ensures var always: Object -> Type := _ => String;
            var ifSet: Object -> Type := o => if "a" in o then Blob else String;
            var fields := map["a" := Field(Any, Some(always)), "b" := Field(Any, Some(ifSet))];
            var read: Reading := (cell, ty) => Deserialize(cell, ty, host);
            var a, b := Column("a", Text("x")), Column("b", Text("x"));
            && SameColumns([a, b], [b, a])
            && !SameOutcome([a, b], [b, a], fields, read, map[])
  {
    var always: Object -> Type := _ => String;
    var ifSet: Object -> Type := o => if "a" in o then Blob else String;
    var fields := map["a" := Field(Any, Some(always)), "b" := Field(Any, Some(ifSet))];
    var read: Reading := (cell, ty) => Deserialize(cell, ty, host);
    var a, b := Column("a", Text("x")), Column("b", Text("x"));
    var early, late := StringValue(Some("x")), BlobValue(Some("x"));
    assert "a" != "b";
    TwoPolymorphs(a, b, fields, read, early, late);
    TwoPolymorphs(b, a, fields, read, early, early);
    var r, r' := RowAsObject([a, b], fields, read, map[]), RowAsObject([b, a], fields, read, map[]);
    assert r.value["b"] == AnyValue(Some(late)) && r'.value["b"] == AnyValue(Some(early));
  }

  // A version table of two rows, read up to an error right after the first: the migration goes on
  // from that row and rewrites both.
  lemma MisreadTable(suffix: Option<string>, script: string, rest: map<string, seq<Row>>)
    ensures var chain := Chain(suffix);
            var store := Store(rest[chain := [Number(5), Number(6)]], []);
            var o := Migrate(store, Call(Some(script), 6, suffix, true, NO_FAULTS.(select := Some(1))));
            && o.result.Ok? && Rows(o.store, chain) == [Number(6), Number(6)]
            && o.store.log == [Applied(chain, script)]
  {
    var chain := Chain(suffix);
    var store := Store(rest[chain := [Number(5), Number(6)]], []);
    MisreadMoves(store, Call(Some(script), 6, suffix, true, NO_FAULTS.(select := Some(1))));
  }
}

/**
 The names parameters may have, spelled out, and the parameter a text begins with that starts with a
 colon and a name.
 */
module Names {
  import opened Wrappers
  import opened Lexing
  import opened Tokens
  import opened QueryParser
  import opened Agreement
  import opened Meaning

  // The characters of names: letters and digits of ASCII, the underscore and the dot.
  predicate Allowed(c: char) {
    var n := c as int;
    48 <= n <= 57 || 65 <= n <= 90 || 97 <= n <= 122 || n == 95 || n == 46
  }

  predicate AllAllowed(name: string) {
    forall i :: 0 <= i < |name| ==> Allowed(name[i])
  }

  lemma AllowedAre(c: char)
    ensures IsNameChar(c) <==> Allowed(c)
    ensures Allowed(c) || c == ':' ==> !StartsLiteral(c) && c != '<' && c != '!'
  {
  }

  lemma FirstChar(name: string, rest: string)
    requires |name| > 0
    ensures name + rest == [name[0]] + (name[1..] + rest)
  {
  }

  // Pass 1 writes a name as it stands.
  lemma {:induction false} NameWrittenOut(name: string, rest: string, text: string, after: string)
    requires AllAllowed(name) && text == name + rest && after == Out(Tokenize(rest, false))
    ensures Out(Tokenize(text, false)) == name + after
    decreases |name|
  {
    if |name| == 0 {
      assert text == rest && name + after == after;
    } else {
      var tail := name[1..] + rest;
      FirstChar(name, rest);
      FirstChar(name, after);
      NameWrittenOut(name[1..], rest, tail, after);
      WrittenOut(name[0], tail, text);
    }
  }

  lemma WrittenOut(c: char, s: string, text: string)
    requires (Allowed(c) || c == ':') && text == [c] + s
    ensures Out(Tokenize(text, false)) == [c] + Out(Tokenize(s, false))
  {
    AllowedAre(c);
    PlainToken(text, false, c, s);
    assert ([Plain(c)] + Tokenize(s, false))[1..] == Tokenize(s, false);
  }

  // A name is read up to a character that no name may have.
  lemma NameRead(out: string, name: string, after: string)
    requires AllAllowed(name) && out == ":" + (name + after)
    ensures VariableAt(out, 0) == Variable(0, |name|, name) <==> after == "" || !Allowed(after[0])
  {
    var end := NameEnd(out, 1);
    NameEndMaximal(out, 1);
    if end < 1 + |name| {
      assert out[end] == name[end - 1];
      AllowedAre(out[end]);
    } else if end > 1 + |name| {
      assert out[1 + |name|] == after[0];
      AllowedAre(after[0]);
    } else {
      assert out[1..end] == name;
      if after != "" {
        assert out[end] == after[0];
        AllowedAre(after[0]);
      }
    }
  }

  // The first parameter is found where the text begins, whatever the sections.
  lemma FirstFound(out: string, secs: seq<CleanSection>)
    requires out != "" && out[0] == ':' && InBounds(secs, |out|) && (secs != [] ==> secs[0].position > 0)
    ensures var r := PassTwo(out, secs, 0, 0);
            r.variables != [] && r.variables[0] == VariableAt(out, 0)
  {
  }

  lemma NoSectionAtColon(text: string, s: string)
    requires text == ":" + s
    ensures var secs := Preprocessed(text).sections;
            secs != [] ==> secs[0].position > 0
  {
    var ts, rest := Tokenize(text, false), Tokenize(s, false);
    PlainToken(text, false, ':', s);
    assert ts[1..] == rest;
    TokenizeGood(s, false);
    SectionsOrdered(rest, 1, -1);
  }

  // Behind a colon, every name over the alphabet is the name of the first parameter, up to what pass 1
  // makes of the rest: if and only if that does not go on with a character of the alphabet.
  lemma FirstName(name: string, rest: string, text: string)
    requires AllAllowed(name) && text == ":" + (name + rest)
    ensures var after := Preprocessed(rest).text;
            && Preprocessed(text).text == ":" + (name + after)
            && Scanned(text).variables != []
            && (Scanned(text).variables[0] == Variable(0, |name|, name) <==> after == "" || !Allowed(after[0]))
  {
    var after, out := Preprocessed(rest).text, Preprocessed(text).text;
    WrittenOut(':', name + rest, text);
    NameWrittenOut(name, rest, name + rest, after);
    NameRead(out, name, after);
    NoSectionAtColon(text, name + rest);
    SectionsInBounds(Tokenize(text, false), 0, -1);
    FirstFound(out, Preprocessed(text).sections);
  }

  // In particular where nothing follows, or a character that no name may have and no marker.
  lemma NameCompiled(name: string, rest: string, text: string)
    requires AllAllowed(name) && text == ":" + (name + rest) && Scanned(text).ok
    requires rest == "" || (!Allowed(rest[0]) && !(OPEN_MARK <= rest))
    ensures Compiled(text).variables != [] && Compiled(text).variables[0] == Variable(0, |name|, name)
  {
    FirstName(name, rest, text);
    if rest != "" {
      TokenizeGood(rest, false);
      OutStarts(Tokenize(rest, false));
    }
  }
}

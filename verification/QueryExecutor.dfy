/**
 Executing a compiled template: parameter names with property paths, the binding of resolved values
 to the placeholders of a statement, and what the executed statement means.
 */
module QueryExecutor {
  import opened Wrappers
  import opened Lexing
  import opened Carets
  import opened QueryParser
  import opened Templates
  import opened Meaning
  import opened Cells
  import Cursor = ResultCursor

  // ---------- Parameter names ----------

  datatype QueryParameter = QueryParameter(name: string, propertyPath: seq<string>)

  // The pieces between the dots of a text.
  function Pieces(s: string, pos: nat): seq<string>
    requires pos <= |s|
    decreases |s| - pos
  {
    var next := FindFrom(s, pos, '.');
    [s[pos..next]] + if next == |s| then [] else Pieces(s, next + 1)
  }

  // The root of a parameter name and the properties below it. A single trailing dot is dropped.
  function SplitName(name: string): QueryParameter {
    var dot := FindFrom(name, 0, '.');
    QueryParameter(name[..dot], if dot + 1 < |name| then Pieces(name, dot + 1) else [])
  }

  lemma SplitAt(name: string, dot: nat, path: seq<string>)
    requires dot == FindFrom(name, 0, '.')
    requires path == if dot + 1 < |name| then Pieces(name, dot + 1) else []
    ensures SplitName(name) == QueryParameter(name[..dot], path)
  {
  }

  // Reading one more piece of what is left; it may be the last.
  lemma PieceUpTo(s: string, start: nat, end: nat, left: seq<string>) returns (rest: seq<string>, next: nat)
    requires start <= |s| && end == FindFrom(s, start, '.') && left == Pieces(s, start)
    ensures left == [s[start..end]] + rest && next == end + 1
    ensures if end == |s| then rest == [] else rest == Pieces(s, next)
  {
    next := end + 1;
    rest := if end == |s| then [] else Pieces(s, next);
  }

  method ParseQueryParameter(paramName: string) returns (result: QueryParameter)
    ensures result == SplitName(paramName)
  {
    var caret := new Caret(paramName);
    var found := caret.FindChar('.');
    var name := paramName[..caret.pos];
    ghost var dot := caret.pos;
    if found && caret.pos < |paramName| - 1 {
      var path := [];
      ghost var from := caret.pos + 1;
      ghost var whole, left := Pieces(paramName, from), Pieces(paramName, from);
      while true
        invariant fresh(caret) && caret.Valid() && caret.data == paramName && caret.pos < |paramName|
        invariant from == caret.pos + 1 && left == Pieces(paramName, from) && whole == path + left
        decreases |paramName| - caret.pos
      {
        caret.Inc(1);
        var start := caret.pos;
        assert start == from && left == Pieces(paramName, start);
        found := caret.FindChar('.');
        var piece := paramName[start..caret.pos];
        ghost var rest, next := PieceUpTo(paramName, start, caret.pos, left);
        Grow(path, [piece], rest);
        path, left, from := path + [piece], rest, next;
        if caret.pos == |paramName| {
          break;
        }
      }
      SplitAt(paramName, dot, path);
      return QueryParameter(name, path);
    }
    SplitAt(paramName, dot, []);
    return QueryParameter(name, []);
  }

  // ---------- What a parameter name splits into ----------

  function Join(pieces: seq<string>): string
    requires pieces != []
  {
    if |pieces| == 1 then pieces[0] else pieces[0] + "." + Join(pieces[1..])
  }

  function Dots(s: string): nat {
    if |s| == 0 then 0 else (if s[0] == '.' then 1 else 0) + Dots(s[1..])
  }

  predicate Dotless(pieces: seq<string>) {
    |pieces| > 0 ==> Dots(pieces[0]) == 0 && Dotless(pieces[1..])
  }

  lemma DotsCons(c: char, s: string)
    ensures Dots([c] + s) == (if c == '.' then 1 else 0) + Dots(s)
  {
    assert ([c] + s)[1..] == s;
  }

  lemma {:induction false} UpToDot(s: string, pos: nat, next: nat)
    requires pos <= |s| && next == FindFrom(s, pos, '.')
    ensures Dots(s[pos..next]) == 0
    ensures next < |s| ==> s[next] == '.'
    ensures Dots(s[pos..]) == if next == |s| then 0 else 1 + Dots(s[next + 1..])
    decreases |s| - pos
  {
    if pos == |s| {
    } else {
      assert s[pos..] == [s[pos]] + s[pos + 1..];
      DotsCons(s[pos], s[pos + 1..]);
      if s[pos] != '.' {
        UpToDot(s, pos + 1, next);
        assert s[pos..next] == [s[pos]] + s[pos + 1..next];
        DotsCons(s[pos], s[pos + 1..next]);
      }
    }
  }

  lemma JoinCons(root: string, path: seq<string>)
    ensures Join([root] + path) == if path == [] then root else root + "." + Join(path)
  {
    assert path != [] ==> ([root] + path)[1..] == path;
  }

  lemma DotlessCons(root: string, path: seq<string>)
    requires Dots(root) == 0 && Dotless(path)
    ensures Dotless([root] + path)
  {
    assert ([root] + path)[1..] == path;
  }

  lemma CutAtDot(s: string, pos: nat, dot: nat)
    requires pos <= dot < |s| && s[dot] == '.'
    ensures s[pos..] == s[pos..dot] + "." + s[dot + 1..]
  {
  }

  lemma PiecesCons(first: string, rest: seq<string>, all: seq<string>)
    requires all == [first] + rest && Dots(first) == 0 && Dotless(rest)
    ensures Dotless(all) && Join(all) == if rest == [] then first else first + "." + Join(rest)
  {
    JoinCons(first, rest);
    DotlessCons(first, rest);
  }

  lemma {:induction false} PiecesJoin(s: string, pos: nat)
    requires pos <= |s|
    ensures Join(Pieces(s, pos)) == s[pos..] && |Pieces(s, pos)| == 1 + Dots(s[pos..]) && Dotless(Pieces(s, pos))
    decreases |s| - pos
  {
    var next := FindFrom(s, pos, '.');
    UpToDot(s, pos, next);
    if next < |s| {
      PiecesJoin(s, next + 1);
      PiecesCons(s[pos..next], Pieces(s, next + 1), Pieces(s, pos));
      CutAtDot(s, pos, next);
    } else {
      PiecesCons(s[pos..next], [], Pieces(s, pos));
    }
  }

  // The root and the properties of a name hold no dots, and joining them gives back the name, with
  // one property for each dot, unless the only dot of the name is its last character: that dot is
  // dropped and no property is left.
  lemma NameRoundTrip(name: string)
    ensures var q := SplitName(name);
            var single := FindFrom(name, 0, '.') == |name| - 1;
            && Dotless([q.name] + q.propertyPath)
            && (Join([q.name] + q.propertyPath) == name <==> !single)
            && (if single then q.propertyPath == [] && q.name + "." == name else |q.propertyPath| == Dots(name))
  {
    var dot, q := FindFrom(name, 0, '.'), SplitName(name);
    UpToDot(name, 0, dot);
    assert name[0..] == name && name[0..dot] == name[..dot];
    JoinCons(q.name, q.propertyPath);
    if dot < |name| {
      CutAtDot(name, 0, dot);
      PiecesJoin(name, dot + 1);
    }
    DotlessCons(q.name, q.propertyPath);
  }

  // ---------- Binding ----------

  // A statement under preparation: its text and the cells bound to its placeholders, by index.
  class Statement {
    const sql: string
    var bindings: map<nat, Cell>

    constructor (sql: string)
      ensures this.sql == sql && bindings == map[]
    {
      this.sql := sql;
      bindings := map[];
    }

    // Replaces what was bound at `index`.
    method Bind(index: nat, cell: Cell)
      modifies this
      ensures bindings == old(bindings)[index := cell]
    {
      bindings := bindings[index := cell];
    }
  }

  // Follows a property path below an object; `Unknown` when there is no such property.
  type Resolver<!Obj> = (Obj, seq<string>) -> Value

  datatype BindError = ParameterNotFound | PropertyNotFound | NotSerialized(why: CodecError)

  // The cell of a property below a named parameter.
  function Find<Obj>(q: QueryParameter, params: map<string, Obj>, resolve: Resolver<Obj>): Result<Cell, BindError> {
    if q.name !in params then
      Threw(ParameterNotFound)
    else
      var v := resolve(params[q.name], q.propertyPath);
      if v == Unknown then
        Threw(PropertyNotFound)
      else
        match Serialize(v)
        case Ok(cell) => Ok(cell)
        case Threw(why) => Threw(NotSerialized(why))
  }

  // What each parameter name stands for.
  type Lookup = string -> Result<Cell, BindError>

  function Looked<Obj>(params: map<string, Obj>, resolve: Resolver<Obj>): Lookup {
    name => Find(SplitName(name), params, resolve)
  }

  // How many parameters can be bound before one fails.
  function Bindable(vars: seq<Variable>, look: Lookup): (n: nat)
    ensures n <= |vars|
  {
    if |vars| == 0 || look(vars[0].name).Threw? then 0 else 1 + Bindable(vars[1..], look)
  }

  // It is the position of the first name that stands for nothing, or the number of parameters.
  lemma {:induction false} BindableIsFirstFailure(vars: seq<Variable>, look: Lookup, i: nat)
    requires i < |vars|
    ensures i < Bindable(vars, look) ==> look(vars[i].name).Ok?
    ensures i == Bindable(vars, look) ==> look(vars[i].name).Threw?
  {
    if look(vars[0].name).Ok? && i > 0 {
      BindableIsFirstFailure(vars[1..], look, i - 1);
    }
  }

  // What is bound once the first `n` parameters are, numbered from one, over what was bound before.
  function BindFirst(before: map<nat, Cell>, vars: seq<Variable>, look: Lookup, n: nat): map<nat, Cell>
    requires n <= |vars|
  {
    if n == 0 then
      before
    else
      match look(vars[n - 1].name)
      case Ok(cell) => BindFirst(before, vars, look, n - 1)[n := cell]
      case Threw(_) => BindFirst(before, vars, look, n - 1)
  }

  // Exactly the indices 1 to `n` are bound anew, each to the cell its own name stands for; so a name
  // that occurs twice is bound twice to the same cell.
  lemma {:induction false} BindFirstAt(before: map<nat, Cell>, vars: seq<Variable>, look: Lookup, n: nat, i: nat)
    requires n <= Bindable(vars, look)
    ensures var bound := BindFirst(before, vars, look, n);
            if 1 <= i <= n then
              i in bound && Ok(bound[i]) == look(vars[i - 1].name)
            else
              (i in bound <==> i in before) && (i in bound ==> bound[i] == before[i])
  {
    if n == 0 {
    } else {
      BindFirstAt(before, vars, look, n - 1, i);
      BindableIsFirstFailure(vars, look, n - 1);
    }
  }

  // Success, or the error of the parameter that could not be bound.
  function Outcome(vars: seq<Variable>, look: Lookup, n: nat): Result<(), BindError>
    requires n <= |vars|
  {
    if n == |vars| then
      Ok(())
    else
      match look(vars[n].name)
      case Ok(_) => Ok(())
      case Threw(error) => Threw(error)
  }

  // `look` tells what each of the parameters stands for.
  ghost predicate Tells<Obj>(look: Lookup, vars: seq<Variable>, params: map<string, Obj>, resolve: Resolver<Obj>) {
    |vars| > 0 ==>
      && look(vars[0].name) == Find(SplitName(vars[0].name), params, resolve)
      && Tells(look, vars[1..], params, resolve)
  }

  lemma {:induction false} TellsOne<Obj>(look: Lookup, vars: seq<Variable>, params: map<string, Obj>,
                                         resolve: Resolver<Obj>,
                                         i: nat)
    requires i < |vars| && Tells(look, vars, params, resolve)
    ensures look(vars[i].name) == Find(SplitName(vars[i].name), params, resolve)
  {
    if i == 0 {
    } else {
      TellsOne(look, vars[1..], params, resolve, i - 1);
    }
  }

  lemma {:induction false} LookedTells<Obj>(vars: seq<Variable>, params: map<string, Obj>, resolve: Resolver<Obj>)
    ensures Tells(Looked(params, resolve), vars, params, resolve)
  {
    if |vars| == 0 {
    } else {
      LookedTells(vars[1..], params, resolve);
    }
  }

  method FindParameter<Obj>(vars: seq<Variable>, i: nat, params: map<string, Obj>, resolve: Resolver<Obj>,
                            ghost look: Lookup)
    returns (found: Result<Cell, BindError>)
    requires i < |vars| && Tells(look, vars, params, resolve)
    ensures found == look(vars[i].name)
  {
    var queryParameter := ParseQueryParameter(vars[i].name);
    found := Find(queryParameter, params, resolve);
    TellsOne(look, vars, params, resolve, i);
  }

  lemma BindNext(before: map<nat, Cell>, vars: seq<Variable>, look: Lookup, n: nat, cell: Cell, bound: map<nat, Cell>)
    requires n < |vars| && bound == BindFirst(before, vars, look, n) && look(vars[n].name) == Ok(cell)
    ensures bound[n + 1 := cell] == BindFirst(before, vars, look, n + 1)
  {
  }

  // Binds the parameters in order and throws at the first that cannot be; those before it, and no
  // others, are bound by then.
  method BindParams<Obj>(stmt: Statement, vars: seq<Variable>, params: map<string, Obj>, resolve: Resolver<Obj>,
                         ghost look: Lookup)
    returns (r: Result<(), BindError>)
    requires Tells(look, vars, params, resolve)
    modifies stmt
    ensures stmt.bindings == BindFirst(old(stmt.bindings), vars, look, Bindable(vars, look))
    ensures r == Outcome(vars, look, Bindable(vars, look))
  {
    ghost var n := Bindable(vars, look);
    var i := 0;
    while i < |vars|
      invariant 0 <= i <= n && stmt.bindings == BindFirst(old(stmt.bindings), vars, look, i)
    {
      BindableIsFirstFailure(vars, look, i);
      var found := FindParameter(vars, i, params, resolve, look);
      if found.Threw? {
        assert i == n;
        return Threw(found.error);
      }
      BindNext(old(stmt.bindings), vars, look, i, found.value, stmt.bindings);
      stmt.Bind(i + 1, found.value);
      i := i + 1;
    }
    assert i == n;
    return Ok(());
  }

  // ---------- Executing a template ----------

  datatype QueryTemplate = QueryTemplate(name: string, template: StringTemplate, prepared: string, prepare: bool)

  method ParseQueryTemplate(name: string, text: string, prepare: bool) returns (r: Result<QueryTemplate, ParsingError>)
    ensures Scanned(text).ok ==>
              r == Ok(QueryTemplate(name, Compiled(text), Prepared(Compiled(text)), prepare))
    ensures !Scanned(text).ok ==> r.Threw?
  {
    var t := ParseTemplate(text);
    if t.Threw? {
      return Threw(t.error);
    }
    CompiledIsPlaced(text);
    var valueProvider := new TemplateValueProvider();
    var prepared := FormatTemplate(t.value, valueProvider);
    return Ok(QueryTemplate(name, t.value, prepared, prepare));
  }

  // What a name stands for, where it stands for something.
  function CellOf(look: Lookup): string -> Option<Cell> {
    name =>
      match look(name)
      case Ok(cell) => Some(cell)
      case Threw(_) => None
  }

  lemma {:induction false} BoundAsNamed(vars: seq<Variable>, look: Lookup, from: nat, bound: map<nat, Cell>)
    requires from <= |vars| == Bindable(vars, look) && bound == BindFirst(map[], vars, look, |vars|)
    ensures Bindings(from + 1, vars[from..], bound, CellOf(look))
    decreases |vars| - from
  {
    if from == |vars| {
    } else {
      BoundAsNamed(vars, look, from + 1, bound);
      BindFirstAt(map[], vars, look, |vars|, from + 1);
      assert vars[from..][1..] == vars[from + 1..];
    }
  }

  lemma BindableIsOutcome(vars: seq<Variable>, look: Lookup)
    ensures Outcome(vars, look, Bindable(vars, look)).Ok? <==> Bindable(vars, look) == |vars|
  {
    if Bindable(vars, look) < |vars| {
      BindableIsFirstFailure(vars, look, Bindable(vars, look));
    }
  }

  lemma AllBindable(vars: seq<Variable>, look: Lookup)
    ensures Bindable(vars, look) == |vars| <==> forall v :: v in vars ==> look(v.name).Ok?
  {
    var n := Bindable(vars, look);
    if n < |vars| {
      BindableIsFirstFailure(vars, look, n);
    }
    forall i | 0 <= i < |vars| && n == |vars| ensures look(vars[i].name).Ok? {
      BindableIsFirstFailure(vars, look, i);
    }
  }

  lemma BoundMeaning(text: string, look: Lookup, bound: map<nat, Cell>, t: StringTemplate)
    requires Scanned(text).ok && t == Compiled(text) && Bindable(t.variables, look) == |t.variables|
    requires bound == BindFirst(map[], t.variables, look, |t.variables|)
    ensures Positional(Prepared(t), 1, bound) == Named(t.text, 0, t.variables, CellOf(look)) <==>
            BareQuestionMarks(text) == 0
  {
    BoundAsNamed(t.variables, look, 0, bound);
    assert t.variables[0..] == t.variables;
    CompilationPreservesMeaning(text, bound, CellOf(look));
  }

  // ---------- Names, values and cells ----------

  // The root of a name is given, its path leads to a property, and the value there can be stored.
  ghost predicate Stands<Obj>(name: string, params: map<string, Obj>, resolve: Resolver<Obj>) {
    var q := SplitName(name);
    && q.name in params
    && resolve(params[q.name], q.propertyPath) != Unknown
    && Serialize(resolve(params[q.name], q.propertyPath)).Ok?
  }

  // The cell is that of the value the path of a name leads to below its root.
  ghost predicate BoundAs<Obj>(cell: Cell, name: string, params: map<string, Obj>, resolve: Resolver<Obj>) {
    var q := SplitName(name);
    q.name in params && Ok(cell) == Serialize(resolve(params[q.name], q.propertyPath))
  }

  // The error of a name: its root is not given, or its path leads nowhere, or the value there throws.
  ghost predicate FailsAs<Obj>(error: BindError, name: string, params: map<string, Obj>, resolve: Resolver<Obj>) {
    var q := SplitName(name);
    match error
    case ParameterNotFound => q.name !in params
    case PropertyNotFound => q.name in params && resolve(params[q.name], q.propertyPath) == Unknown
    case NotSerialized(why) =>
      && q.name in params && resolve(params[q.name], q.propertyPath) != Unknown
      && Serialize(resolve(params[q.name], q.propertyPath)) == Threw(why)
  }

  // Binding has got as far as `n`: the indices 1 to `n` and no others are bound, each to the cell of
  // its parameter's value, and it has ended there for one of two reasons.
  ghost predicate BoundUpTo<Obj>(n: nat, vars: seq<Variable>, params: map<string, Obj>, resolve: Resolver<Obj>,
                                 bound: map<nat, Cell>, r: Result<(), BindError>)
  {
    && n <= |vars|
    && (forall i :: i in bound <==> 1 <= i <= n)
    && (forall k :: 0 <= k < n ==> Stands(vars[k].name, params, resolve))
    && (forall k :: 0 <= k < n ==> BoundAs(bound[k + 1], vars[k].name, params, resolve))
    && match r
       case Ok(_) => n == |vars|
       case Threw(error) => n < |vars| && FailsAs(error, vars[n].name, params, resolve)
  }

  lemma FoundMeans<Obj>(name: string, params: map<string, Obj>, resolve: Resolver<Obj>, found: Result<Cell, BindError>)
    requires found == Find(SplitName(name), params, resolve)
    ensures found.Ok? <==> Stands(name, params, resolve)
    ensures found.Ok? ==> BoundAs(found.value, name, params, resolve)
    ensures found.Threw? ==> FailsAs(found.error, name, params, resolve)
  {
  }

  lemma FailingDoesNotStand<Obj>(error: BindError, name: string, params: map<string, Obj>, resolve: Resolver<Obj>)
    requires FailsAs(error, name, params, resolve)
    ensures !Stands(name, params, resolve)
  {
  }

  lemma ParameterMeans<Obj>(look: Lookup, vars: seq<Variable>, params: map<string, Obj>, resolve: Resolver<Obj>, k: nat)
    requires k < |vars| && Tells(look, vars, params, resolve)
    ensures look(vars[k].name).Ok? <==> Stands(vars[k].name, params, resolve)
    ensures look(vars[k].name).Ok? ==> BoundAs(look(vars[k].name).value, vars[k].name, params, resolve)
    ensures look(vars[k].name).Threw? ==> FailsAs(look(vars[k].name).error, vars[k].name, params, resolve)
  {
    TellsOne(look, vars, params, resolve, k);
    FoundMeans(vars[k].name, params, resolve, look(vars[k].name));
  }

  // What binding a fresh statement has come to, in terms of the parameters' values alone.
  lemma BindingMeans<Obj>(look: Lookup, vars: seq<Variable>, params: map<string, Obj>, resolve: Resolver<Obj>, n: nat,
                          bound: map<nat, Cell>)
    requires Tells(look, vars, params, resolve) && n == Bindable(vars, look) && bound == BindFirst(map[], vars, look, n)
    ensures BoundUpTo(n, vars, params, resolve, bound, Outcome(vars, look, n))
  {
    forall i: nat ensures i in bound <==> 1 <= i <= n {
      BindFirstAt(map[], vars, look, n, i);
    }
    forall k | 0 <= k < n
      ensures Stands(vars[k].name, params, resolve)
      ensures k + 1 in bound && BoundAs(bound[k + 1], vars[k].name, params, resolve)
    {
      BindFirstAt(map[], vars, look, n, k + 1);
      ParameterMeans(look, vars, params, resolve, k);
    }
    if n < |vars| {
      BindableIsFirstFailure(vars, look, n);
      ParameterMeans(look, vars, params, resolve, n);
    }
  }

  // Prepares and binds a compiled template. The statement means what the template means with its
  // parameters given their values, exactly when the template holds no question mark outside literals.
  method Prepare<Obj>(q: QueryTemplate, params: map<string, Obj>, resolve: Resolver<Obj>, ghost text: string,
                      ghost look: Lookup)
    returns (stmt: Statement, r: Result<(), BindError>, ghost n: nat)
    requires Scanned(text).ok && q.template == Compiled(text) && q.prepared == Prepared(q.template)
    requires look == Looked(params, resolve)
    ensures fresh(stmt) && stmt.sql == q.prepared
    ensures BoundUpTo(n, q.template.variables, params, resolve, stmt.bindings, r)
    ensures r.Ok? ==> (MeansAsNamed(stmt.sql, stmt.bindings, q.template, look) <==> BareQuestionMarks(text) == 0)
  {
    var vars := q.template.variables;
    stmt := new Statement(q.prepared);
    LookedTells(vars, params, resolve);
    r := BindParams(stmt, vars, params, resolve, look);
    n := Bindable(vars, look);
    BindingMeans(look, vars, params, resolve, n, stmt.bindings);
    BindableIsOutcome(vars, look);
    if r.Ok? {
      BoundMeaning(text, look, stmt.bindings, q.template);
    }
  }

  ghost predicate AllStand<Obj>(vars: seq<Variable>, params: map<string, Obj>, resolve: Resolver<Obj>) {
    forall k :: 0 <= k < |vars| ==> Stands(vars[k].name, params, resolve)
  }

  // Binding succeeds if and only if every name stands for a value that can be stored.
  lemma BoundExactly<Obj>(n: nat, vars: seq<Variable>, params: map<string, Obj>, resolve: Resolver<Obj>,
                          bound: map<nat, Cell>, r: Result<(), BindError>)
    requires BoundUpTo(n, vars, params, resolve, bound, r)
    ensures r.Ok? <==> AllStand(vars, params, resolve)
  {
    if r.Threw? {
      FailingDoesNotStand(r.error, vars[n].name, params, resolve);
    }
  }

  // The characters and arguments of a bound text are those of the template with its values.
  ghost predicate MeansAsNamed(sql: string, bound: map<nat, Cell>, t: StringTemplate, look: Lookup)
    requires Placed(|t.text|, 0, t.variables)
  {
    Positional(sql, 1, bound) == Named(t.text, 0, t.variables, CellOf(look))
  }

  // What running a prepared text with its bindings yields: rows, and an end.
  type Engine<!Row> = (string, map<nat, Cell>) -> (seq<Row>, Cursor.End)

  // Runs a bound statement and takes its first step.
  method Begin<Row>(stmt: Statement, engine: Engine<Row>) returns (result: Cursor.ResultData<Row>)
    ensures fresh(result) && fresh(result.stmt) && result.Valid() && result.rowIndex == 0
    ensures (result.stmt.rows, result.stmt.end) == engine(stmt.sql, stmt.bindings)
  {
    var (rows, end) := engine(stmt.sql, stmt.bindings);
    var running := new Cursor.SqliteStatement(rows, end);
    result := new Cursor.ResultData(running);
  }

  // Prepares, binds and runs a compiled template. The result stands on the first row, or at the end;
  // a statement whose parameters are not all bound is not run.
  method Execute<Obj, Row>(q: QueryTemplate, params: map<string, Obj>, resolve: Resolver<Obj>, engine: Engine<Row>,
                           ghost text: string, ghost look: Lookup)
    returns (stmt: Statement, r: Result<Cursor.ResultData<Row>, BindError>, ghost n: nat)
    requires Scanned(text).ok && q.template == Compiled(text) && q.prepared == Prepared(q.template)
    requires look == Looked(params, resolve)
    ensures fresh(stmt) && stmt.sql == q.prepared
    ensures BoundUpTo(n, q.template.variables, params, resolve, stmt.bindings,
                      if r.Ok? then Ok(()) else Threw(r.error))
    ensures r.Ok? <==> AllStand(q.template.variables, params, resolve)
    ensures r.Ok? ==> (MeansAsNamed(stmt.sql, stmt.bindings, q.template, look) <==> BareQuestionMarks(text) == 0)
    ensures r.Ok? ==>
              && fresh(r.value) && fresh(r.value.stmt) && r.value.Valid() && r.value.rowIndex == 0
              && (r.value.stmt.rows, r.value.stmt.end) == engine(stmt.sql, stmt.bindings)
  {
    var bound;
    stmt, bound, n := Prepare(q, params, resolve, text, look);
    BoundExactly(n, q.template.variables, params, resolve, stmt.bindings, bound);
    if bound.Threw? {
      return stmt, Threw(bound.error), n;
    }
    var result := Begin(stmt, engine);
    r := Ok(result);
  }
}

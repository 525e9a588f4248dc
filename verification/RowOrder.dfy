/**
 When the order of the columns of a row matters: a row for every selector whose choice depends on
 another polymorphic field, and the exact condition under which no order ever matters.
 */
module RowOrder {
  import opened Wrappers
  import opened Cells
  import opened RowObject

  // ---------- Columns that rebuild an object ----------

  // The object when its plain fields are set and its polymorphic ones are not.
  ghost function PlainAt(o: Object, initial: Object, fields: map<string, Field>, name: string): Option<Value> {
    if name in fields && !Polymorphic(fields[name]) then At(o, name) else At(initial, name)
  }

  ghost function PlainPart(o: Object, initial: Object, fields: map<string, Field>): Object {
    map name | name in o.Keys + initial.Keys && PlainAt(o, initial, fields, name).Some? ::
      PlainAt(o, initial, fields, name).value
  }

  lemma PlainPartAt(o: Object, initial: Object, fields: map<string, Field>, name: string)
    ensures At(PlainPart(o, initial, fields), name) == PlainAt(o, initial, fields, name)
  {
  }

  // The value a cell must be read as for the field to hold what it holds in an object.
  ghost function Held(f: Field, v: Value): Value {
    if Polymorphic(f) && v.AnyValue? && v.held.Some? then v.held.value else v
  }

  // The column is read as what its field holds, whatever type it is read as.
  ghost predicate ReadsAs(c: Column, o: Object, fields: map<string, Field>, read: Reading) {
    IsSet(o, c.name, fields) && forall ty :: read(c.cell, ty) == Ok(Held(fields[c.name], o[c.name]))
  }

  ghost predicate AllReadAs(columns: seq<Column>, o: Object, fields: map<string, Field>, read: Reading) {
    Distinct(columns) && forall c :: c in columns ==> ReadsAs(c, o, fields, read)
  }

  lemma AllReadAsTail(columns: seq<Column>, o: Object, fields: map<string, Field>, read: Reading)
    requires |columns| > 0 && AllReadAs(columns, o, fields, read)
    ensures AllReadAs(columns[1..], o, fields, read) && ReadsAs(columns[0], o, fields, read)
    ensures NoneNamed(columns[1..], columns[0].name)
  {
    TailDistinct(columns);
    assert columns[0] in columns;
  }

  // Such polymorphic columns set exactly their own fields, whatever was there.
  lemma {:induction false} PolyPassSets(columns: seq<Column>, fields: map<string, Field>, read: Reading, o: Object,
                                        now: Object, name: string)
    requires AllReadAs(columns, o, fields, read) && PolyColumns(columns, fields)
    ensures var r := PolyPass(columns, fields, read, now);
            r.Ok? && At(r.value, name) == if CellNamed(columns, name).Some? then At(o, name) else At(now, name)
    decreases |columns|
  {
    if |columns| == 0 {
    } else {
      var c := columns[0];
      AllReadAsTail(columns, o, fields, read);
      NotNamed(columns[1..], c.name);
      PolyPassSets(columns[1..], fields, read, o, now[c.name := o[c.name]], name);
    }
  }

  lemma {:induction false} PolyPassConcat(a: seq<Column>, b: seq<Column>, fields: map<string, Field>, read: Reading,
                                          o: Object)
    requires PolyPass(a, fields, read, o).Ok?
    ensures PolyPass(a + b, fields, read, o) == PolyPass(b, fields, read, PolyPass(a, fields, read, o).value)
    decreases |a|
  {
    if |a| == 0 {
      assert a + b == b;
    } else {
      var v := read(a[0].cell, Chosen(fields[a[0].name], o)).value;
      PolyPassConcat(a[1..], b, fields, read, o[a[0].name := AnyValue(Some(v))]);
      assert (a + b)[1..] == a[1..] + b;
    }
  }

  lemma {:induction false} PolymorphsConcat(a: seq<Column>, b: seq<Column>, fields: map<string, Field>)
    ensures Polymorphs(a + b, fields) == Polymorphs(a, fields) + Polymorphs(b, fields)
  {
    if |a| == 0 {
      assert a + b == b;
    } else {
      PolymorphsConcat(a[1..], b, fields);
      assert (a + b)[1..] == a[1..] + b;
      Grow([a[0]], Polymorphs(a[1..], fields), Polymorphs(b, fields));
    }
  }

  // One column for each field in which an object differs from a new one, telling its name.
  lemma {:induction false} ColumnsFor(names: set<string>) returns (columns: seq<Column>)
    ensures Distinct(columns)
    ensures forall c :: c in columns <==> c.name in names && c.cell == Text(c.name)
    decreases |names|
  {
    if names == {} {
      columns := [];
    } else {
      var name :| name in names;
      var rest := ColumnsFor(names - {name});
      columns := [Column(name, Text(name))] + rest;
    }
  }

  ghost predicate Rebuilds(columns: seq<Column>, o: Object, initial: Object, fields: map<string, Field>, read: Reading)
  {
    && AllReadAs(columns, o, fields, read)
    && forall name :: NoneNamed(columns, name) ==> At(o, name) == At(initial, name)
  }

  // Such columns build the object from a new one: first its plain part, then all of it.
  lemma PlainRebuilt(columns: seq<Column>, o: Object, initial: Object, fields: map<string, Field>, read: Reading)
    requires Rebuilds(columns, o, initial, fields, read)
    ensures PlainPass(columns, fields, read, initial) == Ok(PlainPart(o, initial, fields))
  {
    PlainPassReads(columns, fields, read, initial);
    forall c | c in columns ensures PlainReads(c, fields, read) {
      assert ReadsAs(c, o, fields, read);
    }
    var plain := PlainPass(columns, fields, read, initial).value;
    forall name ensures At(plain, name) == At(PlainPart(o, initial, fields), name) {
      PlainPassAt(columns, fields, read, initial, name);
      PlainPartAt(o, initial, fields, name);
      NamedOrNot(columns, name);
      if CellNamed(columns, name).Some? {
        assert ReadsAs(Column(name, CellNamed(columns, name).value), o, fields, read);
      }
    }
    SameFields(plain, PlainPart(o, initial, fields));
  }

  lemma NamedOrNot(columns: seq<Column>, name: string)
    requires Distinct(columns)
    ensures match CellNamed(columns, name)
            case None => NoneNamed(columns, name)
            case Some(cell) => Column(name, cell) in columns
  {
    if CellNamed(columns, name).None? {
      forall c | c in columns ensures c.name != name {
        CellNamedIs(columns, name, c.cell);
      }
    } else {
      CellNamedIs(columns, name, CellNamed(columns, name).value);
    }
  }

  lemma PolyRebuilt(columns: seq<Column>, o: Object, initial: Object, fields: map<string, Field>, read: Reading)
    requires Rebuilds(columns, o, initial, fields, read)
    ensures PolyPass(Polymorphs(columns, fields), fields, read, PlainPart(o, initial, fields)) == Ok(o)
  {
    var plain, polymorphs := PlainPart(o, initial, fields), Polymorphs(columns, fields);
    PolymorphsAre(columns, fields);
    PolyPassSets(polymorphs, fields, read, o, plain, "");
    var r := PolyPass(polymorphs, fields, read, plain).value;
    forall name ensures At(r, name) == At(o, name) {
      PolyPassSets(polymorphs, fields, read, o, plain, name);
      PolymorphsNamed(columns, fields, name);
      PlainPartAt(o, initial, fields, name);
      NamedOrNot(columns, name);
    }
    SameFields(r, o);
  }

  // ---------- Telling a choice by the order ----------

  // Reads every column as what its field holds in `o`, except that of `name`, which is read as `x`
  // when its type is `ty` and as `y` otherwise.
  ghost function Telling(o: Object, fields: map<string, Field>, name: string, ty: Type, x: Value, y: Value): Reading {
    (cell: Cell, t: Type) =>
      if !cell.Text? then Threw(NoMethod)
      else if cell.s == name then Ok(if t == ty then x else y)
      else if cell.s in o && cell.s in fields then Ok(Held(fields[cell.s], o[cell.s]))
      else Threw(NoMethod)
  }

  // A polymorphic column put first, where its selector sees the plain part of an object, or last,
  // where it sees all of it.
  lemma FirstOrLast(columns: seq<Column>, c: Column, o: Object, initial: Object, fields: map<string, Field>,
                    read: Reading, x: Value, y: Value)
    requires Rebuilds(columns, o, initial, fields, read) && NoneNamed(columns, c.name)
    requires c.name in fields && Polymorphic(fields[c.name]) && x != y
    requires read(c.cell, Chosen(fields[c.name], PlainPart(o, initial, fields))) == Ok(x)
    requires read(c.cell, Chosen(fields[c.name], o)) == Ok(y)
    ensures SameColumns([c] + columns, columns + [c])
    ensures !SameOutcome([c] + columns, columns + [c], fields, read, initial)
  {
    var plain, polymorphs := PlainPart(o, initial, fields), Polymorphs(columns, fields);
    var early, late := [c] + columns, columns + [c];
    assert SameColumns(early, late) by {
      assert forall k :: 0 <= k < |columns| ==> columns[k] in columns;
    }
    PlainRebuilt(columns, o, initial, fields, read);
    PolyRebuilt(columns, o, initial, fields, read);
    assert early[1..] == columns;
    SamePlain(early, late, fields, read, initial);
    PolymorphsAre(columns, fields);
    PolymorphsConcat([c], columns, fields);
    PolymorphsConcat(columns, [c], fields);
    assert [c][1..] == [] && Polymorphs([], fields) == [];
    assert Polymorphs([c], fields) == [c];
    var told := plain[c.name := AnyValue(Some(x))];
    assert ([c] + polymorphs)[1..] == polymorphs;
    PolyPassSets(polymorphs, fields, read, o, told, c.name);
    PolymorphsNamed(columns, fields, c.name);
    NotNamed(columns, c.name);
    PolyPassConcat(polymorphs, [c], fields, read, plain);
    var done := o[c.name := AnyValue(Some(y))];
    assert PolyPass([c], fields, read, o) == PolyPass([], fields, read, done) == Ok(done);
    assert At(RowAsObject(early, fields, read, initial).value, c.name) == Some(AnyValue(Some(x)));
    assert At(RowAsObject(late, fields, read, initial).value, c.name) == Some(AnyValue(Some(y)));
  }

  lemma SelectorTold(fields: map<string, Field>, initial: Object, name: string, o: Object)
    returns (columns: seq<Column>, columns': seq<Column>, read: Reading)
    requires name in fields && Polymorphic(fields[name]) && MaySee(o, initial, fields, name)
    requires Chosen(fields[name], o) != Chosen(fields[name], PlainPart(o, initial, fields))
    ensures SameColumns(columns, columns') && !SameOutcome(columns, columns', fields, read, initial)
  {
    var names := set k | k in o.Keys && At(o, k) != At(initial, k);
    var others := ColumnsFor(names);
    var c, ty := Column(name, Text(name)), Chosen(fields[name], PlainPart(o, initial, fields));
    read := Telling(o, fields, name, ty, UnmappedValue, Unknown);
    forall d | d in others ensures ReadsAs(d, o, fields, read) {
      assert At(o, d.name) == At(initial, d.name) || IsSet(o, d.name, fields);
    }
    forall k | NoneNamed(others, k) ensures At(o, k) == At(initial, k) {
      assert Column(k, Text(k)) !in others;
      assert At(o, k) == At(initial, k) || IsSet(o, k, fields);
    }
    FirstOrLast(others, c, o, initial, fields, read, UnmappedValue, Unknown);
    columns, columns' := [c] + others, others + [c];
  }

  // The order of the columns never matters, whatever their cells and however these are read, if and
  // only if no selector's choice depends on another polymorphic field.
  lemma OrderIrrelevantExactly(fields: map<string, Field>, initial: Object)
    ensures SelectorsReadPlain(fields, initial) <==>
            forall columns, columns', read :: SameColumns(columns, columns') ==>
              SameOutcome(columns, columns', fields, read, initial)
  {
    if SelectorsReadPlain(fields, initial) {
      forall columns, columns', read | SameColumns(columns, columns')
        ensures SameOutcome(columns, columns', fields, read, initial)
      {
        ColumnOrderIrrelevant(columns, columns', fields, read, initial);
      }
    } else {
      var name, o, o' :| && name in fields && Polymorphic(fields[name])
                         && MaySee(o, initial, fields, name) && MaySee(o', initial, fields, name)
                         && Alike(o, o', fields) && Chosen(fields[name], o) != Chosen(fields[name], o');
      var plain, plain' := PlainPart(o, initial, fields), PlainPart(o', initial, fields);
      forall k ensures At(plain, k) == At(plain', k) {
        PlainPartAt(o, initial, fields, k);
        PlainPartAt(o', initial, fields, k);
      }
      SameFields(plain, plain');
      var told := if Chosen(fields[name], o) != Chosen(fields[name], plain) then o else o';
      var columns, columns', read := SelectorTold(fields, initial, name, told);
      assert !SameOutcome(columns, columns', fields, read, initial);
    }
  }

  // In particular none can matter where only one field is polymorphic, whatever its selector reads.
  lemma LoneSelector(fields: map<string, Field>, initial: Object, only: string)
    requires forall name :: name in fields && Polymorphic(fields[name]) ==> name == only
    ensures SelectorsReadPlain(fields, initial)
  {
    forall name, o: Object, o': Object |
      && name in fields && Polymorphic(fields[name])
      && MaySee(o, initial, fields, name) && MaySee(o', initial, fields, name) && Alike(o, o', fields)
      ensures Chosen(fields[name], o) == Chosen(fields[name], o')
    {
      forall k ensures At(o, k) == At(o', k) {
        assert At(o, k) == At(initial, k) || IsSet(o, k, fields);
        assert At(o', k) == At(initial, k) || IsSet(o', k, fields);
      }
      SameFields(o, o');
    }
  }
}

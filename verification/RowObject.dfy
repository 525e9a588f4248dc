/**
 Reading one row into an object: each column sets the field of its name. Fields of type Any with a
 type selector are set in a second pass, once the selector can see the others.
 */
module RowObject {
  import opened Wrappers
  import opened Cells

  // The fields of an object that have a value; the others are null.
  type Object = map<string, Value>

  datatype Field = Field(ty: Type, selector: Option<Object -> Type>)

  datatype Column = Column(name: string, cell: Cell)

  // What reads a cell as a value of a type.
  type Reading = (Cell, Type) -> Result<Value, CodecError>

  datatype RowError = NoField | NotRead(why: CodecError)

  ghost predicate Polymorphic(f: Field) {
    f.selector.Some? && f.ty.Any?
  }

  // ---------- The two passes ----------

  // The first pass over the columns, which stops at the first that fails.
  ghost function PlainPass(columns: seq<Column>, fields: map<string, Field>, read: Reading, o: Object)
    : Result<Object, RowError>
    decreases |columns|
  {
    if |columns| == 0 then
      Ok(o)
    else if columns[0].name !in fields then
      Threw(NoField)
    else if Polymorphic(fields[columns[0].name]) then
      PlainPass(columns[1..], fields, read, o)
    else
      match read(columns[0].cell, fields[columns[0].name].ty)
      case Ok(v) => PlainPass(columns[1..], fields, read, o[columns[0].name := v])
      case Threw(why) => Threw(NotRead(why))
  }

  // The columns put off to the second pass.
  ghost function Polymorphs(columns: seq<Column>, fields: map<string, Field>): seq<Column> {
    if |columns| == 0 then
      []
    else if columns[0].name in fields && Polymorphic(fields[columns[0].name]) then
      [columns[0]] + Polymorphs(columns[1..], fields)
    else
      Polymorphs(columns[1..], fields)
  }

  // The type a field's selector chooses for an object.
  ghost function Chosen(f: Field, o: Object): Type {
    if f.selector.Some? then f.selector.value(o) else f.ty
  }

  ghost function PolyPass(columns: seq<Column>, fields: map<string, Field>, read: Reading, o: Object)
    : Result<Object, RowError>
    decreases |columns|
  {
    if |columns| == 0 then
      Ok(o)
    else if columns[0].name !in fields then
      Threw(NoField)
    else
      match read(columns[0].cell, Chosen(fields[columns[0].name], o))
      case Ok(v) => PolyPass(columns[1..], fields, read, o[columns[0].name := AnyValue(Some(v))])
      case Threw(why) => Threw(NotRead(why))
  }

  // Reading a row into a new object that starts with the values its type gives it.
  ghost function RowAsObject(columns: seq<Column>, fields: map<string, Field>, read: Reading, initial: Object)
    : Result<Object, RowError>
  {
    match PlainPass(columns, fields, read, initial)
    case Threw(e) => Threw(e)
    case Ok(o) => PolyPass(Polymorphs(columns, fields), fields, read, o)
  }

  // A field and the index of its column, for each column put off.
  ghost predicate PutOff(polymorphs: seq<(Field, nat)>, later: seq<Column>, columns: seq<Column>,
                         fields: map<string, Field>)
  {
    && |polymorphs| == |later|
    && forall k :: 0 <= k < |polymorphs| ==> PutOffAt(polymorphs[k], later[k], columns, fields)
  }

  ghost predicate PutOffAt(p: (Field, nat), c: Column, columns: seq<Column>, fields: map<string, Field>) {
    p.1 < |columns| && c == columns[p.1] && c.name in fields && p.0 == fields[c.name] && p.0.selector.Some?
  }

  lemma PutOffAppend(polymorphs: seq<(Field, nat)>, later: seq<Column>, columns: seq<Column>,
                     fields: map<string, Field>, p: (Field, nat), c: Column)
    requires PutOff(polymorphs, later, columns, fields) && PutOffAt(p, c, columns, fields)
    ensures PutOff(polymorphs + [p], later + [c], columns, fields)
  {
  }

  method ReadOneRowAsObject(columns: seq<Column>, fields: map<string, Field>, read: Reading, initial: Object)
    returns (r: Result<Object, RowError>)
    ensures r == RowAsObject(columns, fields, read, initial)
  {
    var o := initial;
    var polymorphs: seq<(Field, nat)> := [];
    ghost var later, left: seq<Column> := [], columns;
    ghost var plain, whole := PlainPass(columns, fields, read, o), Polymorphs(columns, fields);
    var i := 0;
    while i < |columns|
      invariant 0 <= i <= |columns| && left == columns[i..]
      invariant plain == PlainPass(left, fields, read, o)
      invariant whole == later + Polymorphs(left, fields) && PutOff(polymorphs, later, columns, fields)
    {
      assert columns[i] == left[0];
      if columns[i].name in fields {
        var field := fields[columns[i].name];
        if field.selector.Some? && field.ty.Any? {
          PutOffAppend(polymorphs, later, columns, fields, (field, i), left[0]);
          Grow(later, [left[0]], Polymorphs(left[1..], fields));
          polymorphs := polymorphs + [(field, i)];
          later := later + [left[0]];
        } else {
          var value := read(columns[i].cell, field.ty);
          if value.Threw? {
            return Threw(NotRead(value.error));
          }
          o := o[columns[i].name := value.value];
        }
      } else {
        return Threw(NoField);
      }
      left := left[1..];
      i := i + 1;
    }
    assert later + [] == later;
    ghost var poly := PolyPass(later, fields, read, o);
    left := later;
    i := 0;
    while i < |polymorphs|
      invariant 0 <= i <= |polymorphs| && left == later[i..]
      invariant poly == PolyPass(left, fields, read, o)
    {
      var (field, index) := polymorphs[i];
      assert PutOffAt(polymorphs[i], later[i], columns, fields) && later[i] == left[0];
      var selectedType := field.selector.value(o);
      var value := read(columns[index].cell, selectedType);
      if value.Threw? {
        return Threw(NotRead(value.error));
      }
      o := o[columns[index].name := AnyValue(Some(value.value))];
      left := left[1..];
      i := i + 1;
    }
    return Ok(o);
  }

  // ---------- What an object is read as ----------

  // The cell of the first column of a name.
  ghost function CellNamed(columns: seq<Column>, name: string): Option<Cell> {
    if |columns| == 0 then None
    else if columns[0].name == name then Some(columns[0].cell)
    else CellNamed(columns[1..], name)
  }

  ghost predicate NoneNamed(columns: seq<Column>, name: string) {
    forall c :: c in columns ==> c.name != name
  }

  ghost predicate Distinct(columns: seq<Column>) {
    forall i, j :: 0 <= i < j < |columns| ==> columns[i].name != columns[j].name
  }

  ghost function At(o: Object, name: string): Option<Value> {
    if name in o then Some(o[name]) else None
  }

  // What the field of a column is set to, given the object its selector sees; it may throw.
  ghost function ColumnValue(c: Column, fields: map<string, Field>, read: Reading, seen: Object)
    : Result<Value, RowError>
  {
    if c.name !in fields then
      Threw(NoField)
    else if Polymorphic(fields[c.name]) then
      match read(c.cell, Chosen(fields[c.name], seen))
      case Ok(v) => Ok(AnyValue(Some(v)))
      case Threw(why) => Threw(NotRead(why))
    else
      match read(c.cell, fields[c.name].ty)
      case Ok(v) => Ok(v)
      case Threw(why) => Threw(NotRead(why))
  }

  // The objects agree on every field that is not polymorphic.
  ghost predicate Alike(o: Object, o': Object, fields: map<string, Field>) {
    forall name :: name in fields && !Polymorphic(fields[name]) ==> At(o, name) == At(o', name)
  }

  // What a row may have made of a new object: some fields hold what was read, the polymorphic ones
  // as a value of type Any.
  ghost predicate Reached(o: Object, initial: Object, fields: map<string, Field>) {
    forall name :: At(o, name) == At(initial, name) || IsSet(o, name, fields)
  }

  ghost predicate IsSet(o: Object, name: string, fields: map<string, Field>) {
    name in o && name in fields && (Polymorphic(fields[name]) ==> o[name].AnyValue? && o[name].held.Some?)
  }

  // What the selector of a field may see: that field itself has not been set yet.
  ghost predicate MaySee(o: Object, initial: Object, fields: map<string, Field>, name: string) {
    Reached(o, initial, fields) && At(o, name) == At(initial, name)
  }

  // What the selector of a polymorphic field chooses does not depend on other polymorphic fields, in
  // the objects it may see.
  ghost predicate SelectorsReadPlain(fields: map<string, Field>, initial: Object) {
    forall name, o: Object, o': Object ::
      && name in fields && Polymorphic(fields[name])
      && MaySee(o, initial, fields, name) && MaySee(o', initial, fields, name) && Alike(o, o', fields) ==>
        Chosen(fields[name], o) == Chosen(fields[name], o')
  }

  lemma TailDistinct(columns: seq<Column>)
    requires Distinct(columns) && |columns| > 0
    ensures Distinct(columns[1..]) && NoneNamed(columns[1..], columns[0].name)
  {
    forall c | c in columns[1..] ensures c.name != columns[0].name {
      var k :| 0 <= k < |columns[1..]| && columns[1..][k] == c;
      assert columns[k + 1] == c;
    }
  }

  // The first pass throws exactly when a column has no field, or its plain field cannot be read.
  ghost predicate PlainReads(c: Column, fields: map<string, Field>, read: Reading) {
    c.name in fields && (Polymorphic(fields[c.name]) || ColumnValue(c, fields, read, map[]).Ok?)
  }

  lemma {:induction false} PlainPassReads(columns: seq<Column>, fields: map<string, Field>, read: Reading, o: Object)
    ensures PlainPass(columns, fields, read, o).Ok? <==> forall c :: c in columns ==> PlainReads(c, fields, read)
    decreases |columns|
  {
    if |columns| > 0 && PlainReads(columns[0], fields, read) {
      var c := columns[0];
      var next := if Polymorphic(fields[c.name]) then o else o[c.name := read(c.cell, fields[c.name].ty).value];
      PlainPassReads(columns[1..], fields, read, next);
      assert columns == [c] + columns[1..];
    }
  }

  // And it sets exactly the plain fields that have a column.
  lemma {:induction false} PlainPassAt(columns: seq<Column>, fields: map<string, Field>, read: Reading, o: Object,
                                       name: string)
    requires Distinct(columns) && PlainPass(columns, fields, read, o).Ok?
    ensures var cell := CellNamed(columns, name);
            At(PlainPass(columns, fields, read, o).value, name) ==
            if cell.None? || name !in fields || Polymorphic(fields[name]) then At(o, name)
            else var v := read(cell.value, fields[name].ty); if v.Ok? then Some(v.value) else None
    decreases |columns|
  {
    if |columns| == 0 {
    } else {
      var c := columns[0];
      TailDistinct(columns);
      NotNamed(columns[1..], c.name);
      var next := if Polymorphic(fields[c.name]) then o else o[c.name := read(c.cell, fields[c.name].ty).value];
      PlainPassAt(columns[1..], fields, read, next, name);
    }
  }

  lemma {:induction false} NotNamed(columns: seq<Column>, name: string)
    requires NoneNamed(columns, name)
    ensures CellNamed(columns, name) == None
  {
    if |columns| == 0 {
    } else {
      assert columns[0] in columns;
      NotNamed(columns[1..], name);
    }
  }

  // ---------- The second pass ----------

  ghost predicate PolyColumns(columns: seq<Column>, fields: map<string, Field>) {
    forall c :: c in columns ==> c.name in fields && Polymorphic(fields[c.name])
  }

  // Halfway through the second pass: only fields whose columns are done have been set.
  ghost predicate Halfway(columns: seq<Column>, fields: map<string, Field>, initial: Object, o: Object, seen: Object) {
    && Distinct(columns) && PolyColumns(columns, fields) && Alike(o, seen, fields)
    && Reached(o, initial, fields) && Reached(seen, initial, fields)
    && forall c :: c in columns ==> At(o, c.name) == At(seen, c.name) == At(initial, c.name)
  }

  lemma HalfwayOn(columns: seq<Column>, fields: map<string, Field>, initial: Object, o: Object, seen: Object, v: Value)
    requires |columns| > 0 && Halfway(columns, fields, initial, o, seen)
    ensures Halfway(columns[1..], fields, initial, o[columns[0].name := AnyValue(Some(v))], seen)
  {
    TailDistinct(columns);
    var c, next := columns[0], o[columns[0].name := AnyValue(Some(v))];
    forall name ensures At(next, name) == At(initial, name) || IsSet(next, name, fields) {
      assert At(o, name) == At(initial, name) || IsSet(o, name, fields);
    }
  }

  lemma ChosenAlike(columns: seq<Column>, fields: map<string, Field>, initial: Object, o: Object, seen: Object)
    requires |columns| > 0 && Halfway(columns, fields, initial, o, seen) && SelectorsReadPlain(fields, initial)
    ensures Chosen(fields[columns[0].name], o) == Chosen(fields[columns[0].name], seen)
  {
    assert columns[0] in columns;
    assert MaySee(o, initial, fields, columns[0].name) && MaySee(seen, initial, fields, columns[0].name);
  }

  lemma {:induction false} PolyPassReads(columns: seq<Column>, fields: map<string, Field>, read: Reading,
                                         initial: Object, o: Object, seen: Object)
    requires Halfway(columns, fields, initial, o, seen) && SelectorsReadPlain(fields, initial)
    ensures PolyPass(columns, fields, read, o).Ok? <==>
            forall c :: c in columns ==> ColumnValue(c, fields, read, seen).Ok?
    decreases |columns|
  {
    if |columns| == 0 {
    } else {
      var c := columns[0];
      var v := read(c.cell, Chosen(fields[c.name], seen));
      ChosenAlike(columns, fields, initial, o, seen);
      assert columns == [c] + columns[1..];
      if v.Ok? {
        HalfwayOn(columns, fields, initial, o, seen, v.value);
        PolyPassReads(columns[1..], fields, read, initial, o[c.name := AnyValue(Some(v.value))], seen);
      } else {
        assert ColumnValue(c, fields, read, seen).Threw?;
      }
    }
  }

  lemma {:induction false} PolyPassAt(columns: seq<Column>, fields: map<string, Field>, read: Reading, initial: Object,
                                      o: Object, seen: Object, name: string)
    requires Halfway(columns, fields, initial, o, seen) && SelectorsReadPlain(fields, initial)
    requires PolyPass(columns, fields, read, o).Ok?
    ensures var cell := CellNamed(columns, name);
            At(PolyPass(columns, fields, read, o).value, name) ==
            if cell.None? then At(o, name)
            else var v := ColumnValue(Column(name, cell.value), fields, read, seen);
                 if v.Ok? then Some(v.value) else None
    decreases |columns|
  {
    if |columns| == 0 {
    } else {
      var c := columns[0];
      TailDistinct(columns);
      NotNamed(columns[1..], c.name);
      ChosenAlike(columns, fields, initial, o, seen);
      var v := read(c.cell, Chosen(fields[c.name], seen)).value;
      HalfwayOn(columns, fields, initial, o, seen, v);
      PolyPassAt(columns[1..], fields, read, initial, o[c.name := AnyValue(Some(v))], seen, name);
    }
  }

  lemma {:induction false} PolymorphsAre(columns: seq<Column>, fields: map<string, Field>)
    ensures forall c :: c in Polymorphs(columns, fields) <==>
                        c in columns && c.name in fields && Polymorphic(fields[c.name])
    ensures Distinct(columns) ==> Distinct(Polymorphs(columns, fields))
    decreases |columns|
  {
    if |columns| == 0 {
    } else {
      PolymorphsAre(columns[1..], fields);
      assert columns == [columns[0]] + columns[1..];
      if Distinct(columns) {
        TailDistinct(columns);
      }
    }
  }

  lemma {:induction false} PolymorphsNamed(columns: seq<Column>, fields: map<string, Field>, name: string)
    ensures CellNamed(Polymorphs(columns, fields), name) ==
            if name in fields && Polymorphic(fields[name]) then CellNamed(columns, name) else None
    decreases |columns|
  {
    if |columns| == 0 {
    } else {
      PolymorphsNamed(columns[1..], fields, name);
    }
  }

  // ---------- The order of the columns ----------

  // The value of a field of the object read.
  ghost function FieldValue(columns: seq<Column>, fields: map<string, Field>, read: Reading, initial: Object,
                            seen: Object, name: string)
    : Option<Value>
  {
    match CellNamed(columns, name)
    case None => At(initial, name)
    case Some(cell) =>
      match ColumnValue(Column(name, cell), fields, read, seen)
      case Ok(v) => Some(v)
      case Threw(_) => None
  }

  ghost predicate AllRead(columns: seq<Column>, fields: map<string, Field>, read: Reading, seen: Object) {
    forall c :: c in columns ==> ColumnValue(c, fields, read, seen).Ok?
  }

  // The second pass starts with nothing polymorphic set.
  lemma StartsHalfway(columns: seq<Column>, fields: map<string, Field>, read: Reading, initial: Object, plain: Object)
    requires Distinct(columns) && PlainPass(columns, fields, read, initial) == Ok(plain)
    ensures Halfway(Polymorphs(columns, fields), fields, initial, plain, plain)
  {
    PolymorphsAre(columns, fields);
    forall name ensures At(plain, name) == At(initial, name) || IsSet(plain, name, fields)
      ensures name in fields && Polymorphic(fields[name]) ==> At(plain, name) == At(initial, name)
    {
      PlainPassAt(columns, fields, read, initial, name);
      PlainPassReads(columns, fields, read, initial);
      var cell := CellNamed(columns, name);
      if cell.Some? {
        CellNamedIs(columns, name, cell.value);
        assert PlainReads(Column(name, cell.value), fields, read);
      }
    }
  }

  // Every column is read on its own: a plain field as its declared type, a polymorphic one as the
  // type its selector chooses for the object of all plain fields.
  lemma RowReads(columns: seq<Column>, fields: map<string, Field>, read: Reading, initial: Object)
    requires Distinct(columns) && SelectorsReadPlain(fields, initial)
    ensures var plain := PlainPass(columns, fields, read, initial);
            RowAsObject(columns, fields, read, initial).Ok? <==>
            plain.Ok? && AllRead(columns, fields, read, plain.value)
  {
    PlainPassReads(columns, fields, read, initial);
    PolymorphsAre(columns, fields);
    var plain := PlainPass(columns, fields, read, initial);
    if plain.Ok? {
      StartsHalfway(columns, fields, read, initial, plain.value);
      PolyPassReads(Polymorphs(columns, fields), fields, read, initial, plain.value, plain.value);
    }
  }

  lemma RowFields(columns: seq<Column>, fields: map<string, Field>, read: Reading, initial: Object, name: string)
    requires Distinct(columns) && SelectorsReadPlain(fields, initial)
    requires RowAsObject(columns, fields, read, initial).Ok?
    ensures At(RowAsObject(columns, fields, read, initial).value, name) ==
            FieldValue(columns, fields, read, initial, PlainPass(columns, fields, read, initial).value, name)
  {
    var plain := PlainPass(columns, fields, read, initial).value;
    PlainPassReads(columns, fields, read, initial);
    PolymorphsNamed(columns, fields, name);
    PlainPassAt(columns, fields, read, initial, name);
    StartsHalfway(columns, fields, read, initial, plain);
    PolyPassAt(Polymorphs(columns, fields), fields, read, initial, plain, plain, name);
    var cell := CellNamed(columns, name);
    if cell.Some? {
      CellNamedIs(columns, name, cell.value);
      assert PlainReads(Column(name, cell.value), fields, read);
    }
  }

  // The value a field of the object read holds, by its declaration alone: without a selector, or with
  // a type other than Any, what its cell is read as; otherwise, under Any, what its cell is read as in
  // the type its selector chooses for the object of all plain fields.
  lemma RowHolds(columns: seq<Column>, fields: map<string, Field>, read: Reading, initial: Object, c: Column)
    requires Distinct(columns) && SelectorsReadPlain(fields, initial) && c in columns
    requires RowAsObject(columns, fields, read, initial).Ok?
    ensures var o := RowAsObject(columns, fields, read, initial).value;
            var plain := PlainPass(columns, fields, read, initial);
            && c.name in fields && c.name in o && plain.Ok?
            && var f := fields[c.name];
            && (f.selector.None? || f.ty != Any ==> read(c.cell, f.ty) == Ok(o[c.name]))
            && (f.selector.Some? && f.ty == Any ==>
                  && o[c.name].AnyValue? && o[c.name].held.Some?
                  && read(c.cell, f.selector.value(plain.value)) == Ok(o[c.name].held.value))
  {
    var plain := PlainPass(columns, fields, read, initial);
    RowReads(columns, fields, read, initial);
    RowFields(columns, fields, read, initial, c.name);
    CellNamedIs(columns, c.name, c.cell);
    assert ColumnValue(c, fields, read, plain.value).Ok?;
    assert Column(c.name, c.cell) == c;
  }

  ghost predicate SameColumns(columns: seq<Column>, columns': seq<Column>) {
    && Distinct(columns) && Distinct(columns')
    && forall c :: c in columns <==> c in columns'
  }

  lemma {:induction false} CellNamedIs(columns: seq<Column>, name: string, cell: Cell)
    requires Distinct(columns)
    ensures CellNamed(columns, name) == Some(cell) <==> Column(name, cell) in columns
  {
    if |columns| == 0 {
    } else {
      TailDistinct(columns);
      CellNamedIs(columns[1..], name, cell);
      assert columns == [columns[0]] + columns[1..];
    }
  }

  lemma SameCells(columns: seq<Column>, columns': seq<Column>, name: string)
    requires SameColumns(columns, columns')
    ensures CellNamed(columns, name) == CellNamed(columns', name)
  {
    var cell, cell' := CellNamed(columns, name), CellNamed(columns', name);
    if cell.Some? {
      CellNamedIs(columns, name, cell.value);
      CellNamedIs(columns', name, cell.value);
    } else if cell'.Some? {
      CellNamedIs(columns, name, cell'.value);
      CellNamedIs(columns', name, cell'.value);
    }
  }

  lemma SameFields(o: Object, o': Object)
    requires forall name :: At(o, name) == At(o', name)
    ensures o == o'
  {
    forall name ensures name in o <==> name in o'
      ensures name in o ==> o[name] == o'[name]
    {
      assert At(o, name) == At(o', name);
    }
  }

  lemma SamePlain(columns: seq<Column>, columns': seq<Column>, fields: map<string, Field>, read: Reading,
                  initial: Object)
    requires SameColumns(columns, columns')
    ensures var plain, plain' := PlainPass(columns, fields, read, initial), PlainPass(columns', fields, read, initial);
            (plain.Ok? <==> plain'.Ok?) && (plain.Ok? ==> plain == plain')
  {
    PlainPassReads(columns, fields, read, initial);
    PlainPassReads(columns', fields, read, initial);
    var plain, plain' := PlainPass(columns, fields, read, initial), PlainPass(columns', fields, read, initial);
    if plain.Ok? {
      forall name ensures At(plain.value, name) == At(plain'.value, name) {
        SameCells(columns, columns', name);
        PlainPassAt(columns, fields, read, initial, name);
        PlainPassAt(columns', fields, read, initial, name);
      }
      SameFields(plain.value, plain'.value);
    }
  }

  // Two orders of the columns give the same object, or both throw.
  ghost predicate SameOutcome(columns: seq<Column>, columns': seq<Column>, fields: map<string, Field>, read: Reading,
                              initial: Object)
  {
    var r, r' := RowAsObject(columns, fields, read, initial), RowAsObject(columns', fields, read, initial);
    (r.Ok? <==> r'.Ok?) && (r.Ok? ==> r == r')
  }

  lemma ColumnOrderIrrelevant(columns: seq<Column>, columns': seq<Column>, fields: map<string, Field>, read: Reading,
                              initial: Object)
    requires SameColumns(columns, columns') && SelectorsReadPlain(fields, initial)
    ensures SameOutcome(columns, columns', fields, read, initial)
  {
    var r, r' := RowAsObject(columns, fields, read, initial), RowAsObject(columns', fields, read, initial);
    SamePlain(columns, columns', fields, read, initial);
    RowReads(columns, fields, read, initial);
    RowReads(columns', fields, read, initial);
    if r.Ok? {
      forall name ensures At(r.value, name) == At(r'.value, name) {
        SameCells(columns, columns', name);
        RowFields(columns, fields, read, initial, name);
        RowFields(columns', fields, read, initial, name);
      }
      SameFields(r.value, r'.value);
    }
  }
}

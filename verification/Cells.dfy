/**
 Values and the SQLite cells that hold them: serialization binds a value, deserialization reads a
 cell back. Integers are stored as 64-bit signed cells whatever their declared width.
 */
module Cells {
  import opened Wrappers

  datatype IntType = Int8 | UInt8 | Int16 | UInt16 | Int32 | UInt32 | Int64 | UInt64 | Boolean

  // A declared type. An enum is stored as its interpretation; `Unmapped` are the types that have
  // neither a serializer nor a deserializer.
  datatype Type = IntOf(t: IntType) | Float64 | String | Blob | Any | Enum(interpretation: Type) | Unmapped

  // A value with its type; None is a null of that type. An enum value carries the outcome of its
  // interpretation, None when that fails. `Unknown` is the type of a property that was not found.
  datatype Value =
    | IntValue(t: IntType, v: Option<int>)
    | FloatValue(r: Option<real>)
    | StringValue(s: Option<string>)
    | BlobValue(b: Option<string>)
    | AnyValue(held: Option<Value>)
    | EnumValue(interpreted: Option<Value>)
    | UnmappedValue
    | Unknown

  datatype Cell = Null | Integer(i: int) | Float(r: real) | Text(s: string) | Bytes(b: string)

  datatype CodecError = NoMethod | EnumFailed | WrongCell

  // ---------- Widths ----------

  function Lo(t: IntType): int {
    match t
    case Int8 => -0x80
    case Int16 => -0x8000
    case Int32 => -0x8000_0000
    case Int64 => -0x8000_0000_0000_0000
    case _ => 0
  }

  function Hi(t: IntType): int {
    match t
    case Int8 => 0x7F
    case UInt8 => 0xFF
    case Int16 => 0x7FFF
    case UInt16 => 0xFFFF
    case Int32 => 0x7FFF_FFFF
    case UInt32 => 0xFFFF_FFFF
    case Int64 => 0x7FFF_FFFF_FFFF_FFFF
    case UInt64 => 0xFFFF_FFFF_FFFF_FFFF
    case Boolean => 1
  }

  // 2 to the number of bits.
  function Modulus(t: IntType): nat {
    Hi(t) - Lo(t) + 1
  }

  predicate InRange(t: IntType, x: int) {
    Lo(t) <= x <= Hi(t)
  }

  // The C++ conversion of an integer to a type: the low bits, or a test against zero for bool.
  function Cast(t: IntType, x: int): int {
    if t == Boolean then
      if x != 0 then 1 else 0
    else
      var low := x % Modulus(t);
      if low > Hi(t) then low - Modulus(t) else low
  }

  // ---------- Integers ----------

  // Narrow types are bound as C `int`, wide ones as a 64-bit integer.
  function SerializeInt(t: IntType, v: Option<int>): Cell {
    match v
    case None => Null
    case Some(x) =>
      match t
      case UInt32 => Integer(Cast(Int64, x))
      case Int64 => Integer(Cast(Int64, x))
      case UInt64 => Integer(Cast(Int64, x))
      case _ => Integer(Cast(Int32, x))
  }

  function DeserializeInt(t: IntType, c: Cell): Result<Option<int>, CodecError> {
    match c
    case Null => Ok(None)
    case Integer(i) => Ok(Some(Cast(t, i)))
    case _ => Threw(WrongCell)
  }

  // ---------- Casting ----------

  // A non-zero multiple of `m` is at least `m` away from zero.
  lemma Close(m: int, k: int, d: int)
    requires m > 0 && d == m * k && -m < d < m
    ensures d == 0
  {
    assert k >= 1 ==> m * k >= m;
    assert k <= -1 ==> m * k <= -m;
  }

  lemma ModUnique(x: int, m: int, q: int, r: int)
    requires m > 0 && 0 <= r < m && x == m * q + r
    ensures x % m == r
  {
    var q', r' := x / m, x % m;
    assert x == m * q' + r';
    assert r - r' == m * (q' - q);
    Close(m, q' - q, r - r');
  }

  lemma CastId(t: IntType, x: int)
    requires InRange(t, x)
    ensures Cast(t, x) == x
  {
    if t != Boolean {
      if x < 0 {
        ModUnique(x, Modulus(t), -1, x + Modulus(t));
      } else {
        ModUnique(x, Modulus(t), 0, x);
      }
    }
  }

  // The value in range that is congruent to `c` modulo 2 to the number of bits, `m`.
  predicate Represents(t: IntType, x: int, c: int, m: nat)
  {
    m > 0 && InRange(t, x) && (x - c) % m == 0
  }

  // Reading an integer cell gives the value in range that is congruent to it modulo 2 to the
  // number of bits, and there is only one.
  lemma CastRepresents(t: IntType, c: int, x: int)
    requires t != Boolean
    ensures x == Cast(t, c) <==> Represents(t, x, c, Modulus(t))
  {
    var m := Modulus(t);
    CastCongruent(t, c, m);
    if Represents(t, x, c, m) {
      var y := Cast(t, c);
      var p, q := (x - c) / m, (y - c) / m;
      assert x - c == m * p && y - c == m * q;
      assert x - y == m * (p - q);
      Close(m, p - q, x - y);
    }
  }

  // Reading an integer cell as a Boolean asks whether it is zero.
  lemma BooleanIsNonzero(c: int)
    ensures DeserializeInt(Boolean, Integer(c)) == Ok(Some(if c == 0 then 0 else 1))
  {
  }

  lemma CastCongruent(t: IntType, c: int, m: nat)
    requires t != Boolean && m == Modulus(t)
    ensures Represents(t, Cast(t, c), c, m)
  {
    var low, k := c % m, c / m;
    assert c == m * k + low;
    if low > Hi(t) {
      assert low - m - c == m * (-k - 1) + 0;
      ModUnique(low - m - c, m, -k - 1, 0);
    } else {
      assert low - c == m * (-k) + 0;
      ModUnique(low - c, m, -k, 0);
    }
  }

  // ---------- Round trips ----------

  // Every value of the nine integer types, and null, survives being stored and read back.
  lemma IntRoundTrip(t: IntType, v: Option<int>)
    requires v.Some? ==> InRange(t, v.value)
    ensures DeserializeInt(t, SerializeInt(t, v)) == Ok(v)
  {
    if v.Some? {
      StoredInt(t, v.value);
      CastId(t, v.value);
    }
  }

  // What is stored: the value itself, except that the upper half of UInt64 turns negative.
  lemma StoredInt(t: IntType, x: int)
    requires InRange(t, x)
    ensures var i := if x > Hi(Int64) then x - Modulus(UInt64) else x;
            SerializeInt(t, Some(x)) == Integer(i) && InRange(Int64, i) && Cast(t, i) == x
  {
    CastId(t, x);
    if x > Hi(Int64) {
      ModUnique(x, Modulus(Int64), 0, x);
      ModUnique(x - Modulus(UInt64), Modulus(UInt64), -1, x);
    } else {
      CastId(Int64, x);
      if InRange(Int32, x) {
        CastId(Int32, x);
      }
    }
  }

  // Storing what was read back from a cell restores exactly the cells in the range of the type;
  // for UInt64 these are all cells, the upper half being read from negative ones.
  lemma CellRestored(t: IntType, i: int)
    requires InRange(Int64, i)
    ensures DeserializeInt(t, Integer(i)).Ok?
    ensures SerializeInt(t, DeserializeInt(t, Integer(i)).value) == Integer(i) <==> InRange(t, i) || t == UInt64
  {
    var x := Cast(t, i);
    if t != Boolean {
      CastCongruent(t, i, Modulus(t));
    }
    StoredInt(t, x);
    if InRange(t, i) {
      CastId(t, i);
    } else if t == UInt64 {
      ModUnique(i, Modulus(UInt64), -1, i + Modulus(UInt64));
    }
  }

  // ---------- Dispatch on the type ----------

  function Nullable<T>(v: Option<T>, cell: T -> Cell): Cell {
    if v.Some? then cell(v.value) else Null
  }

  // The cell a value is bound as. Any, like every unmapped type, has no serializer.
  function Serialize(v: Value): Result<Cell, CodecError> {
    match v
    case IntValue(t, x) => Ok(SerializeInt(t, x))
    case FloatValue(r) => Ok(Nullable(r, x => Float(x)))
    case StringValue(s) => Ok(Nullable(s, x => Text(x)))
    case BlobValue(b) => Ok(Nullable(b, x => Bytes(x)))
    case EnumValue(interpreted) => if interpreted.Some? then Serialize(interpreted.value) else Threw(EnumFailed)
    case _ => Threw(NoMethod)
  }

  // What lies outside this library: what an enum makes of the value its interpretation type was
  // read as, and how SQLite renders a numeric cell as text.
  datatype Host = Host(readEnum: Value -> Option<Value>, render: Cell -> string)

  // The value a cell is read as.
  function Deserialize(c: Cell, ty: Type, host: Host): Result<Value, CodecError> {
    match ty
    case IntOf(t) =>
      var r := DeserializeInt(t, c);
      if r.Ok? then Ok(IntValue(t, r.value)) else Threw(r.error)
    case Float64 =>
      (match c
       case Null => Ok(FloatValue(None))
       case Float(r) => Ok(FloatValue(Some(r)))
       case Integer(i) => Ok(FloatValue(Some(i as real)))
       case _ => Threw(WrongCell))
    case String => Ok(DeserializeText(c, false, host))
    case Blob => Ok(DeserializeText(c, true, host))
    case Any => DeserializeAny(c)
    case Enum(interpretation) =>
      var r := Deserialize(c, interpretation, host);
      if r.Threw? then
        r
      else
        var e := host.readEnum(r.value);
        if e.Some? then Ok(EnumValue(e)) else Threw(EnumFailed)
    case Unmapped => Threw(NoMethod)
  }

  // A null blob is read as a null string, as the original does.
  function DeserializeText(c: Cell, blob: bool, host: Host): Value {
    match c
    case Null => StringValue(None)
    case _ =>
      var s := if c.Text? then c.s else if c.Bytes? then c.b else host.render(c);
      if blob then BlobValue(Some(s)) else StringValue(Some(s))
  }

  // The declared type is taken from the cell: integers as Int64, and so on.
  function DeserializeAny(c: Cell): Result<Value, CodecError> {
    match c
    case Null => Ok(AnyValue(None))
    case Integer(i) => Ok(AnyValue(Some(IntValue(Int64, Some(Cast(Int64, i))))))
    case Float(r) => Ok(AnyValue(Some(FloatValue(Some(r)))))
    case Text(s) => Ok(AnyValue(Some(StringValue(Some(s)))))
    case Bytes(b) => Ok(AnyValue(Some(BlobValue(Some(b)))))
  }

  predicate WellTyped(v: Value) {
    v.IntValue? && v.v.Some? ==> InRange(v.t, v.v.value)
  }

  function TypeOf(v: Value): Type {
    match v
    case IntValue(t, _) => IntOf(t)
    case FloatValue(_) => Float64
    case StringValue(_) => String
    case BlobValue(_) => Blob
    case _ => Unmapped
  }

  // A value of a plain type read back from the cell it is stored in is the same value, with the
  // sole exception of a null blob.
  lemma ValueRoundTrip(v: Value, host: Host)
    requires WellTyped(v) && TypeOf(v) != Unmapped
    ensures Serialize(v).Ok?
    ensures Deserialize(Serialize(v).value, TypeOf(v), host) == Ok(v) <==> v != BlobValue(None)
  {
    if v.IntValue? {
      IntRoundTrip(v.t, v.v);
    }
  }

  // Reading a stored integer without knowing its type gives it back widened to Int64, unless it
  // is a UInt64 of the upper half.
  lemma AnyWidens(t: IntType, x: int)
    requires InRange(t, x)
    ensures SerializeInt(t, Some(x)).Integer?
    ensures DeserializeAny(SerializeInt(t, Some(x))) == Ok(AnyValue(Some(IntValue(Int64, Some(x))))) <==>
            x <= Hi(Int64)
  {
    StoredInt(t, x);
    CastId(Int64, SerializeInt(t, Some(x)).i);
  }

  // The types whose cells tell them apart: a value of one of them comes back without its type being
  // given.
  predicate ToldByCell(v: Value) {
    match v
    case IntValue(t, x) => t == Int64 && x.Some?
    case FloatValue(r) => r.Some?
    case StringValue(s) => s.Some?
    case BlobValue(b) => b.Some?
    case _ => false
  }

  lemma AnyRestores(v: Value)
    requires WellTyped(v) && ToldByCell(v)
    ensures Serialize(v).Ok? && DeserializeAny(Serialize(v).value) == Ok(AnyValue(Some(v)))
  {
    if v.IntValue? {
      StoredInt(Int64, v.v.value);
      CastId(Int64, v.v.value);
    }
  }

  // An enum value is stored as its interpretation and comes back exactly when the enum accepts what
  // its interpretation was read as; a failed interpretation is not stored at all.
  lemma EnumRoundTrip(x: Value, host: Host)
    requires WellTyped(x) && TypeOf(x) != Unmapped && x != BlobValue(None)
    ensures Serialize(EnumValue(None)) == Threw(EnumFailed)
    ensures Serialize(EnumValue(Some(x))) == Serialize(x) && Serialize(x).Ok?
    ensures Deserialize(Serialize(x).value, Enum(TypeOf(x)), host) == Ok(EnumValue(Some(x))) <==>
            host.readEnum(x) == Some(x)
  {
    ValueRoundTrip(x, host);
  }

  // ---------- Which values have a cell, and which cells have a value ----------

  function Bits(t: IntType): nat {
    match t
    case Int8 => 8
    case UInt8 => 8
    case Int16 => 16
    case UInt16 => 16
    case Int32 => 32
    case UInt32 => 32
    case Int64 => 64
    case UInt64 => 64
    case Boolean => 1
  }

  function PowerOfTwo(n: nat): nat {
    if n == 0 then 1 else 2 * PowerOfTwo(n - 1)
  }

  lemma {:induction false} PowerOfTwoAdd(a: nat, b: nat)
    ensures PowerOfTwo(a + b) == PowerOfTwo(a) * PowerOfTwo(b)
    decreases a
  {
    if a == 0 {
    } else {
      PowerOfTwoAdd(a - 1, b);
      assert 2 * (PowerOfTwo(a - 1) * PowerOfTwo(b)) == (2 * PowerOfTwo(a - 1)) * PowerOfTwo(b);
    }
  }

  lemma Powers()
    ensures PowerOfTwo(1) == 2 && PowerOfTwo(8) == 0x100 && PowerOfTwo(16) == 0x1_0000
    ensures PowerOfTwo(32) == 0x1_0000_0000 && PowerOfTwo(64) == 0x1_0000_0000_0000_0000
  {
    assert PowerOfTwo(2) == 4 && PowerOfTwo(4) == 16 by {
      PowerOfTwoAdd(1, 1);
      PowerOfTwoAdd(2, 2);
    }
    PowerOfTwoAdd(4, 4);
    PowerOfTwoAdd(8, 8);
    PowerOfTwoAdd(16, 16);
    PowerOfTwoAdd(32, 32);
  }

  // A signed type ranges over the numbers of its bits in two's complement, the others from zero up.
  lemma Widths(t: IntType, x: int)
    ensures var signed, m: int := t == Int8 || t == Int16 || t == Int32 || t == Int64, PowerOfTwo(Bits(t));
            InRange(t, x) <==> if signed then -m <= 2 * x < m else 0 <= x < m
  {
    Powers();
  }

  // What a value interprets to in the end, None where an interpretation fails.
  function Interpreted(v: Value): Option<Value> {
    match v
    case EnumValue(None) => None
    case EnumValue(Some(x)) => Interpreted(x)
    case _ => Some(v)
  }

  // A value is stored if and only if it is an integer, a number, a string or a blob, or an enum value
  // that interprets to one; every other type throws. A null is stored for a null of these types only.
  lemma {:induction false} StoredExactly(v: Value)
    ensures var x := Interpreted(v);
            && (Serialize(v).Ok? <==>
                x.Some? && (x.value.IntValue? || x.value.FloatValue? || x.value.StringValue? || x.value.BlobValue?))
            && (Serialize(v) == Ok(Null) <==>
                && x.Some?
                && (|| (x.value.IntValue? && x.value.v.None?)
                    || (x.value.FloatValue? && x.value.r.None?)
                    || (x.value.StringValue? && x.value.s.None?)
                    || (x.value.BlobValue? && x.value.b.None?)))
            && (Serialize(v).Threw? ==> Serialize(v).error == if x.None? then EnumFailed else NoMethod)
            && (x.Some? ==> Serialize(v) == Serialize(x.value))
  {
    if v.EnumValue? && v.interpreted.Some? {
      StoredExactly(v.interpreted.value);
    }
  }

  // Which cells can be read as which types: an integer type takes no other cell than integers, a
  // float takes integers as well, text and Any take every cell, and null is taken by all. An enum
  // takes what its interpretation takes and it accepts itself.
  lemma ReadExactly(c: Cell, ty: Type, host: Host)
    ensures Deserialize(c, ty, host).Ok? <==>
            match ty
            case IntOf(_) => c.Null? || c.Integer?
            case Float64 => c.Null? || c.Integer? || c.Float?
            case String => true
            case Blob => true
            case Any => true
            case Enum(interpretation) =>
              var r := Deserialize(c, interpretation, host);
              r.Ok? && host.readEnum(r.value).Some?
            case Unmapped => false
  {
  }

  // A cell read as another type than the one that stored it: an integer is the same number as a
  // float; text and bytes are the same characters as a string and as a blob, but different types when
  // none is given; and a number is what SQLite renders it as.
  lemma ReadAcross(c: Cell, i: int, s: string, host: Host)
    ensures Deserialize(Integer(i), Float64, host) == Deserialize(Float(i as real), Float64, host) ==
            Ok(FloatValue(Some(i as real)))
    ensures Deserialize(Text(s), String, host) == Deserialize(Bytes(s), String, host) == Ok(StringValue(Some(s)))
    ensures Deserialize(Text(s), Blob, host) == Deserialize(Bytes(s), Blob, host) == Ok(BlobValue(Some(s)))
    ensures Deserialize(Text(s), Any, host) == Ok(AnyValue(Some(StringValue(Some(s)))))
    ensures Deserialize(Bytes(s), Any, host) == Ok(AnyValue(Some(BlobValue(Some(s)))))
    ensures c.Integer? || c.Float? ==>
              && Deserialize(c, String, host) == Ok(StringValue(Some(host.render(c))))
              && Deserialize(c, Blob, host) == Ok(BlobValue(Some(host.render(c))))
  {
  }

  predicate IsNull(v: Value) {
    match v
    case IntValue(_, x) => x.None?
    case FloatValue(r) => r.None?
    case StringValue(s) => s.None?
    case BlobValue(b) => b.None?
    case AnyValue(held) => held.None?
    case _ => false
  }

  // A null cell is read as a null of every type that is no enum, and no other cell is.
  lemma NullReadsAsNull(c: Cell, ty: Type, host: Host)
    requires !ty.Enum? && Deserialize(c, ty, host).Ok?
    ensures IsNull(Deserialize(c, ty, host).value) <==> c == Null
    ensures ty != Blob && ty != Any && c == Null ==> TypeOf(Deserialize(c, ty, host).value) == ty
  {
  }
}

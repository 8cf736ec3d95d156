/** GGUF metadata values, written and read. */
module GgufValue {
  import opened Wrappers
  import opened ByteCodec

  const T_UINT8: nat := 0
  const T_INT8: nat := 1
  const T_UINT16: nat := 2
  const T_INT16: nat := 3
  const T_UINT32: nat := 4
  const T_INT32: nat := 5
  const T_FLOAT32: nat := 6
  const T_BOOL: nat := 7
  const T_STRING: nat := 8
  const T_ARRAY: nat := 9
  const T_UINT64: nat := 10
  const T_INT64: nat := 11
  const T_FLOAT64: nat := 12

  datatype Error = UnexpectedEnd | UnsupportedType(vtype: nat) | BadMagic | PackRange | ZeroAlignment
                 | Refused(what: string)

  /** A metadata value. Floats are their bits, strings their UTF-8 bytes; a list keeps
      the item type its bytes declare. */
  datatype Value =
    | Number(n: int)
    | Real(bits: nat)
    | Boolean(b: bool)
    | Text(s: Bytes)
    | List(itemType: nat, items: seq<Value>)

  // ----- Types ------------------------------------------------------------------------

  /** Bytes of a fixed-size number, or None. */
  function ScalarSize(vtype: nat): (size: Option<nat>)
    ensures size.Some? ==> size.value > 0
  {
    if vtype == T_UINT8 || vtype == T_INT8 then Some(1)
    else if vtype == T_UINT16 || vtype == T_INT16 then Some(2)
    else if vtype == T_UINT32 || vtype == T_INT32 || vtype == T_FLOAT32 then Some(4)
    else if vtype == T_UINT64 || vtype == T_INT64 || vtype == T_FLOAT64 then Some(8)
    else None
  }

  predicate IsSigned(vtype: nat) {
    vtype == T_INT8 || vtype == T_INT16 || vtype == T_INT32 || vtype == T_INT64
  }

  predicate IsFloat(vtype: nat) {
    vtype == T_FLOAT32 || vtype == T_FLOAT64
  }

  predicate FitsScalar(v: Value, vtype: nat, size: nat) {
    if IsFloat(vtype) then v.Real? && v.bits < Pow256(size)
    else v.Number? && if IsSigned(vtype) then -(Pow256(size) as int) <= 2 * v.n < Pow256(size)
                      else 0 <= v.n < Pow256(size)
  }

  /** The value can be written as this type; arrays nest to any depth. */
  predicate HasType(v: Value, vtype: nat) {
    if vtype == T_STRING then v.Text? && |v.s| < Pow256(8)
    else if vtype == T_BOOL then v.Boolean?
    else if vtype == T_ARRAY then
      v.List? && v.itemType < Pow256(4) && |v.items| < Pow256(8)
      && forall i :: 0 <= i < |v.items| ==> HasType(v.items[i], v.itemType)
    else
      ScalarSize(vtype).Some? && FitsScalar(v, vtype, ScalarSize(vtype).value)
  }

  // ----- Writing ------------------------------------------------------------------------

  function EncodeString(s: Bytes): Bytes {
    LittleEndian(|s|, 8) + s
  }

  function EncodeScalar(v: Value, vtype: nat, size: nat): Bytes
    requires FitsScalar(v, vtype, size)
  {
    LittleEndian(if v.Real? then v.bits else Unsigned(v.n, size), size)
  }

  function EncodeValue(v: Value, vtype: nat): Bytes
    requires HasType(v, vtype)
    decreases v, 0
  {
    if vtype == T_STRING then EncodeString(v.s)
    else if vtype == T_BOOL then [if v.b then 1 else 0]
    else if vtype == T_ARRAY then
      LittleEndian(v.itemType, 4) + (LittleEndian(|v.items|, 8) + EncodeItems(v.items, v.itemType))
    else EncodeScalar(v, vtype, ScalarSize(vtype).value)
  }

  function EncodeItems(items: seq<Value>, itemType: nat): Bytes
    requires forall i :: 0 <= i < |items| ==> HasType(items[i], itemType)
    decreases items, 1
  {
    if items == [] then [] else EncodeValue(items[0], itemType) + EncodeItems(items[1..], itemType)
  }

  // ----- Reading ------------------------------------------------------------------------

  /** Something read, and the position after it. */
  datatype Read<T> = Read(value: T, pos: nat)

  function ReadBytes(data: Bytes, pos: nat, n: nat): (r: Result<Read<Bytes>, Error>)
    requires pos <= |data|
    ensures r.Ok? ==> r.value.pos == pos + n <= |data| && r.value.value == data[pos..pos + n]
    ensures r.Err? ==> pos + n > |data|
  {
    if pos + n > |data| then Err(UnexpectedEnd) else Ok(Read(data[pos..pos + n], pos + n))
  }

  function ReadNumber(data: Bytes, pos: nat, size: nat): (r: Result<Read<nat>, Error>)
    requires pos <= |data|
    ensures r.Ok? ==> r.value.pos == pos + size <= |data|
  {
    match ReadBytes(data, pos, size)
    case Err(e) => Err(e)
    case Ok(b) => Ok(Read(FromLittleEndian(b.value), b.pos))
  }

  function ReadString(data: Bytes, pos: nat): (r: Result<Read<Bytes>, Error>)
    requires pos <= |data|
    ensures r.Ok? ==> pos < r.value.pos <= |data|
  {
    match ReadNumber(data, pos, 8)
    case Err(e) => Err(e)
    case Ok(n) => ReadBytes(data, n.pos, n.value)
  }

  function ScalarOf(vtype: nat, size: nat, raw: nat): Value {
    if IsFloat(vtype) then Real(raw)
    else Number(if IsSigned(vtype) then Signed(raw, size) else raw)
  }

  function ReadValue(data: Bytes, pos: nat, vtype: nat): (r: Result<Read<Value>, Error>)
    requires pos <= |data|
    ensures r.Ok? ==> pos < r.value.pos <= |data|
    decreases |data| - pos, 0, 0
  {
    if vtype == T_STRING then
      match ReadString(data, pos)
      case Err(e) => Err(e)
      case Ok(s) => Ok(Read(Text(s.value), s.pos))
    else if vtype == T_BOOL then
      match ReadBytes(data, pos, 1)
      case Err(e) => Err(e)
      case Ok(b) => Ok(Read(Boolean(b.value != [0]), b.pos))
    else if vtype == T_ARRAY then
      match ReadNumber(data, pos, 4)
      case Err(e) => Err(e)
      case Ok(itemType) =>
        match ReadNumber(data, itemType.pos, 8)
        case Err(e) => Err(e)
        case Ok(count) =>
          match ReadItems(data, count.pos, itemType.value, count.value)
          case Err(e) => Err(e)
          case Ok(items) => Ok(Read(List(itemType.value, items.value), items.pos))
    else match ScalarSize(vtype)
      case None => Err(UnsupportedType(vtype))
      case Some(size) =>
        match ReadNumber(data, pos, size)
        case Err(e) => Err(e)
        case Ok(raw) => Ok(Read(ScalarOf(vtype, size, raw.value), raw.pos))
  }

  function ReadItems(data: Bytes, pos: nat, itemType: nat, count: nat): (r: Result<Read<seq<Value>>, Error>)
    requires pos <= |data|
    ensures r.Ok? ==> pos <= r.value.pos <= |data| && |r.value.value| == count
    decreases |data| - pos, 1, count
  {
    if count == 0 then Ok(Read([], pos))
    else match ReadValue(data, pos, itemType)
      case Err(e) => Err(e)
      case Ok(first) =>
        match ReadItems(data, first.pos, itemType, count - 1)
        case Err(e) => Err(e)
        case Ok(rest) => Ok(Read([first.value] + rest.value, rest.pos))
  }

  // ----- Reading back what was written ----------------------------------------------------

  lemma NumberBack(data: Bytes, pos: nat, n: nat, size: nat)
    requires n < Pow256(size) && Holds(data, pos, LittleEndian(n, size))
    ensures ReadNumber(data, pos, size) == Ok(Read(n, pos + size))
  {
    NumberAt(data, pos, n, size);
  }

  lemma StringBack(data: Bytes, pos: nat, s: Bytes)
    requires |s| < Pow256(8) && Holds(data, pos, EncodeString(s))
    ensures ReadString(data, pos) == Ok(Read(s, pos + |EncodeString(s)|))
  {
    hide Pow256, LittleEndian, FromLittleEndian, ReadNumber;
    HoldsParts(data, pos, LittleEndian(|s|, 8), s);
    NumberBack(data, pos, |s|, 8);
    assert |EncodeString(s)| == 8 + |s|;
  }

  lemma ScalarBack(data: Bytes, pos: nat, v: Value, vtype: nat, size: nat)
    requires FitsScalar(v, vtype, size) && Holds(data, pos, EncodeScalar(v, vtype, size))
    ensures ReadNumber(data, pos, size).Ok?
    ensures ReadNumber(data, pos, size).value.pos == pos + size
    ensures ScalarOf(vtype, size, ReadNumber(data, pos, size).value.value) == v
  {
    hide LittleEndian;
    var raw := if v.Real? then v.bits else Unsigned(v.n, size);
    NumberBack(data, pos, raw, size);
  }

  /** The reader reads back every value that has a type, nested arrays included. */
  lemma {:induction false} ValueBack(data: Bytes, pos: nat, v: Value, vtype: nat)
    requires HasType(v, vtype) && Holds(data, pos, EncodeValue(v, vtype))
    ensures ReadValue(data, pos, vtype) == Ok(Read(v, pos + |EncodeValue(v, vtype)|))
    decreases v, 0
  {
    hide Pow256, LittleEndian, EncodeString, ReadString, ReadNumber, ReadBytes, EncodeScalar, FitsScalar, ScalarOf;
    if vtype == T_STRING {
      StringBack(data, pos, v.s);
    } else if vtype == T_BOOL {
      BoolBack(data, pos, v.b);
    } else if vtype == T_ARRAY {
      var tag, count, items :=
        LittleEndian(v.itemType, 4), LittleEndian(|v.items|, 8), EncodeItems(v.items, v.itemType);
      HoldsParts(data, pos, tag, count + items);
      HoldsParts(data, pos + 4, count, items);
      NumberBack(data, pos, v.itemType, 4);
      NumberBack(data, pos + 4, |v.items|, 8);
      ItemsBack(data, pos + 12, v.items, v.itemType);
    } else {
      ScalarBack(data, pos, v, vtype, ScalarSize(vtype).value);
      ScalarLength(v, vtype, ScalarSize(vtype).value);
    }
  }

  lemma BoolBack(data: Bytes, pos: nat, b: bool)
    requires Holds(data, pos, [if b then 1 else 0])
    ensures ReadBytes(data, pos, 1).Ok? && ReadBytes(data, pos, 1).value.pos == pos + 1
    ensures (ReadBytes(data, pos, 1).value.value != [0]) == b
  {
    var one: Bytes := [if b then 1 else 0];
    assert one[0] == 1 <==> b;
  }

  lemma ScalarLength(v: Value, vtype: nat, size: nat)
    requires FitsScalar(v, vtype, size)
    ensures |EncodeScalar(v, vtype, size)| == size
  {}

  lemma {:induction false} ItemsBack(data: Bytes, pos: nat, items: seq<Value>, itemType: nat)
    requires forall i :: 0 <= i < |items| ==> HasType(items[i], itemType)
    requires Holds(data, pos, EncodeItems(items, itemType))
    ensures ReadItems(data, pos, itemType, |items|) == Ok(Read(items, pos + |EncodeItems(items, itemType)|))
    decreases items, 1
  {
    hide HasType, EncodeValue, ReadValue;
    if items != [] {
      var first := EncodeValue(items[0], itemType);
      HoldsParts(data, pos, first, EncodeItems(items[1..], itemType));
      ValueBack(data, pos, items[0], itemType);
      ItemsBack(data, pos + |first|, items[1..], itemType);
      assert items == [items[0]] + items[1..];
    }
  }
}

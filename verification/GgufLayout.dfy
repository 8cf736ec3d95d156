/** A GGUF v3 file, as written and as parsed. */
module GgufLayout {
  import opened Wrappers
  import opened ByteCodec
  import opened Arith
  import opened GgufValue

  const GGML_F32: nat := 0
  const GGML_F16: nat := 1

  const MAGIC: Bytes := [0x47, 0x47, 0x55, 0x46]

  /** "general.alignment" */
  const ALIGNMENT_KEY: Bytes := [103, 101, 110, 101, 114, 97, 108, 46, 97, 108, 105, 103, 110, 109, 101, 110, 116]

  datatype Entry = Entry(key: Bytes, vtype: nat, value: Value)

  /** Elements are the bits of 32-bit floats, the shape is outermost first. */
  datatype Tensor = Tensor(name: Bytes, shape: seq<nat>, data: seq<nat>, ggmlType: nat, offset: nat) {
    function ElementSize(): (n: nat)
      ensures n > 0
    {
      if ggmlType == GGML_F32 then 4 else 2
    }

    function NBytes(): nat {
      |data| * ElementSize()
    }

    /** Innermost dimension first. */
    function Dims(): seq<nat> {
      ReverseSeq(shape)
    }
  }

  function ReverseSeq(s: seq<nat>): (r: seq<nat>)
    ensures |r| == |s|
  {
    if s == [] then [] else ReverseSeq(s[1..]) + [s[0]]
  }

  lemma {:induction false} ReverseAt(s: seq<nat>, k: nat)
    requires k < |s|
    ensures ReverseSeq(s)[k] == s[|s| - 1 - k]
  {
    if k < |s| - 1 { ReverseAt(s[1..], k); }
  }

  function Product(s: seq<nat>): nat {
    if s == [] then 1 else s[0] * Product(s[1..])
  }

  /** Division that rounds down, for divisors of either sign. */
  function FloorDiv(a: int, b: int): int
    requires b != 0
  {
    if b > 0 then a / b else -a / -b
  }

  function AlignUp(value: int, alignment: int): int
    requires alignment != 0
  {
    FloorDiv(value + alignment - 1, alignment) * alignment
  }

  // ----- Writing ----------------------------------------------------------------------

  function PackUnsigned(n: int, size: nat): (r: Result<Bytes, Error>)
    ensures r.Ok? <==> 0 <= n < Pow256(size)
    ensures r.Ok? ==> |r.value| == size
  {
    if 0 <= n < Pow256(size) then Ok(LittleEndian(n, size)) else Err(PackRange)
  }

  function PackString(s: Bytes): Result<Bytes, Error> {
    match PackUnsigned(|s|, 8)
    case Err(e) => Err(e)
    case Ok(length) => Ok(length + s)
  }

  function PackItem(itemType: nat, v: Value): Result<Bytes, Error> {
    if itemType == T_STRING then if v.Text? then PackString(v.s) else Err(PackRange)
    else if itemType == T_UINT32 then if v.Number? then PackUnsigned(v.n, 4) else Err(PackRange)
    else if itemType == T_FLOAT32 then if v.Real? then PackUnsigned(v.bits, 4) else Err(PackRange)
    else Err(Refused("unsupported array item type"))
  }

  function PackItems(itemType: nat, items: seq<Value>): Result<Bytes, Error> {
    if items == [] then Ok([])
    else match PackItems(itemType, items[..|items| - 1])
      case Err(e) => Err(e)
      case Ok(front) =>
        match PackItem(itemType, items[|items| - 1])
        case Err(e) => Err(e)
        case Ok(last) => Ok(front + last)
  }

  function PackArray(v: Value): Result<Bytes, Error> {
    if !v.List? then Err(PackRange)
    else match PackUnsigned(v.itemType, 4)
      case Err(e) => Err(e)
      case Ok(tag) =>
        match PackUnsigned(|v.items|, 8)
        case Err(e) => Err(e)
        case Ok(count) =>
          match PackItems(v.itemType, v.items)
          case Err(e) => Err(e)
          case Ok(items) => Ok(tag + (count + items))
  }

  function PackValue(vtype: nat, v: Value): Result<Bytes, Error> {
    if vtype == T_UINT32 then if v.Number? then PackUnsigned(v.n, 4) else Err(PackRange)
    else if vtype == T_INT32 then
      if v.Number? && -0x8000_0000 <= v.n < 0x8000_0000 then PackUnsigned(Unsigned(v.n, 4), 4) else Err(PackRange)
    else if vtype == T_FLOAT32 then if v.Real? then PackUnsigned(v.bits, 4) else Err(PackRange)
    else if vtype == T_BOOL then if v.Boolean? then Ok([if v.b then 1 else 0]) else Err(PackRange)
    else if vtype == T_STRING then if v.Text? then PackString(v.s) else Err(PackRange)
    else if vtype == T_ARRAY then PackArray(v)
    else Err(Refused("unsupported GGUF kv type"))
  }

  function PackEntry(e: Entry): Result<Bytes, Error> {
    match PackString(e.key)
    case Err(x) => Err(x)
    case Ok(key) =>
      match PackUnsigned(e.vtype, 4)
      case Err(x) => Err(x)
      case Ok(tag) =>
        match PackValue(e.vtype, e.value)
        case Err(x) => Err(x)
        case Ok(value) => Ok(key + (tag + value))
  }

  function PackEntries(kv: seq<Entry>): Result<Bytes, Error> {
    if kv == [] then Ok([])
    else match PackEntries(kv[..|kv| - 1])
      case Err(e) => Err(e)
      case Ok(front) =>
        match PackEntry(kv[|kv| - 1])
        case Err(e) => Err(e)
        case Ok(last) => Ok(front + last)
  }

  function PackDims(dims: seq<nat>): Result<Bytes, Error> {
    if dims == [] then Ok([])
    else match PackDims(dims[..|dims| - 1])
      case Err(e) => Err(e)
      case Ok(front) =>
        match PackUnsigned(dims[|dims| - 1], 8)
        case Err(e) => Err(e)
        case Ok(last) => Ok(front + last)
  }

  /** Where the data of the first tensors ends, relative to the data start. */
  function EndOf(tensors: seq<Tensor>, alignment: nat): nat
    requires alignment > 0
    decreases |tensors|, 0
  {
    if tensors == [] then 0
    else NextOffset(tensors[..|tensors| - 1], alignment) + tensors[|tensors| - 1].NBytes()
  }

  /** Where the tensor after these goes. */
  function NextOffset(tensors: seq<Tensor>, alignment: nat): (offset: nat)
    requires alignment > 0
    ensures EndOf(tensors, alignment) <= offset
    decreases |tensors|, 1
  {
    AlignUpBounds(EndOf(tensors, alignment), alignment);
    AlignUp(EndOf(tensors, alignment), alignment)
  }

  lemma AlignUpBounds(value: nat, alignment: nat)
    requires alignment > 0
    ensures value <= AlignUp(value, alignment) < value + alignment
    ensures AlignUp(value, alignment) % alignment == 0
  {
    var up := value + alignment - 1;
    DivModDef(up, alignment);
    DivUnique((up / alignment) * alignment, alignment, up / alignment, 0);
  }

  function PackInfo(t: Tensor): Result<Bytes, Error> {
    match PackString(t.name)
    case Err(e) => Err(e)
    case Ok(name) =>
      match PackUnsigned(|t.Dims()|, 4)
      case Err(e) => Err(e)
      case Ok(count) =>
        match PackDims(t.Dims())
        case Err(e) => Err(e)
        case Ok(dims) =>
          match PackUnsigned(t.ggmlType, 4)
          case Err(e) => Err(e)
          case Ok(tag) =>
            match PackUnsigned(t.offset, 8)
            case Err(e) => Err(e)
            case Ok(offset) => Ok(name + (count + (dims + (tag + offset))))
  }

  /** The tensors with their offsets assigned in order. */
  function Placed(tensors: seq<Tensor>, alignment: nat): (ts: seq<Tensor>)
    requires alignment > 0
    ensures |ts| == |tensors|
  {
    if tensors == [] then []
    else
      var front := tensors[..|tensors| - 1];
      Placed(front, alignment) + [tensors[|tensors| - 1].(offset := NextOffset(front, alignment))]
  }

  function PackInfos(placed: seq<Tensor>): Result<Bytes, Error> {
    if placed == [] then Ok([])
    else match PackInfos(placed[..|placed| - 1])
      case Err(e) => Err(e)
      case Ok(front) =>
        match PackInfo(placed[|placed| - 1])
        case Err(e) => Err(e)
        case Ok(last) => Ok(front + last)
  }

  function Zeros(n: nat): (z: Bytes)
    ensures |z| == n && forall i {:trigger z[i]} :: 0 <= i < n ==> z[i] == 0
  {
    seq(n, i => 0)
  }

  /** A tensor's elements as bytes; `half` rounds a 32-bit float to 16 bits. */
  function Elements(half: nat -> nat, ggmlType: nat, data: seq<nat>): (b: Bytes)
    ensures |b| == |data| * if ggmlType == GGML_F32 then 4 else 2
  {
    if data == [] then []
    else Elements(half, ggmlType, data[..|data| - 1])
         + if ggmlType == GGML_F32 then LittleEndian(data[|data| - 1], 4)
           else LittleEndian(half(data[|data| - 1]), 2)
  }

  /** The bytes from pos on are the elements in order, lowest byte first: four bytes each
      of a tensor of type 0, and otherwise the two bytes of the element rounded. */
  ghost predicate StoresElements(half: nat -> nat, t: Tensor, data: Bytes, pos: nat) {
    if t.ggmlType == 0 then
      && pos + 4 * |t.data| <= |data|
      && forall k {:trigger t.data[k]} :: 0 <= k < |t.data| ==> var n := t.data[k];
           && data[pos + 4 * k] as nat == n % 0x100
           && data[pos + 4 * k + 1] as nat == n / 0x100 % 0x100
           && data[pos + 4 * k + 2] as nat == n / 0x1_0000 % 0x100
           && data[pos + 4 * k + 3] as nat == n / 0x100_0000 % 0x100
    else
      && pos + 2 * |t.data| <= |data|
      && forall k {:trigger t.data[k]} :: 0 <= k < |t.data| ==> var n := half(t.data[k]);
           && data[pos + 2 * k] as nat == n % 0x100
           && data[pos + 2 * k + 1] as nat == n / 0x100 % 0x100
  }

  lemma {:induction false} ElementAt(half: nat -> nat, ggmlType: nat, data: seq<nat>, k: nat)
    requires k < |data|
    ensures var size := if ggmlType == GGML_F32 then 4 else 2;
            && k * size + size <= |Elements(half, ggmlType, data)|
            && Elements(half, ggmlType, data)[k * size..k * size + size]
                 == LittleEndian(if ggmlType == GGML_F32 then data[k] else half(data[k]), size)
    decreases |data|
  {
    hide LittleEndian;
    var size := if ggmlType == GGML_F32 then 4 else 2;
    var front := data[..|data| - 1];
    var lead := Elements(half, ggmlType, front);
    assert |lead| == |front| * size;
    if k < |front| {
      ElementAt(half, ggmlType, front, k);
      var all := Elements(half, ggmlType, data);
      assert all[k * size..k * size + size] == lead[k * size..k * size + size];
    }
  }

  /** Element k of a tensor whose bytes are held from pos on. */
  lemma ElementStored(half: nat -> nat, t: Tensor, data: Bytes, pos: nat, k: nat)
    requires Holds(data, pos, Encoded(half, t)) && k < |t.data|
    ensures t.ggmlType == 0 ==> BytesAre(data, pos + 4 * k, 4, t.data[k])
    ensures t.ggmlType != 0 ==> BytesAre(data, pos + 2 * k, 2, half(t.data[k]))
  {
    hide Elements, LittleEndian, BytesAre;
    var b := Encoded(half, t);
    ElementAt(half, t.ggmlType, t.data, k);
    if t.ggmlType == 0 {
      HoldsSlice(data, pos, b, 4 * k, 4 * k + 4);
      LowBytesAre(data, pos + 4 * k, 4, t.data[k]);
    } else {
      HoldsSlice(data, pos, b, 2 * k, 2 * k + 2);
      LowBytesAre(data, pos + 2 * k, 2, half(t.data[k]));
    }
  }

  lemma LowBytesAre(data: Bytes, at: nat, size: nat, n: nat)
    requires (size == 2 || size == 4) && at + size <= |data| && data[at..at + size] == LittleEndian(n, size)
    ensures BytesAre(data, at, size, n)
  {
    hide LittleEndian;
    LowBytes(n);
    var part := data[at..at + size];
    assert part[0] == data[at] && part[1] == data[at + 1];
    if size == 4 { assert part[2] == data[at + 2] && part[3] == data[at + 3]; }
  }

  lemma ElementsStored(half: nat -> nat, t: Tensor, data: Bytes, pos: nat)
    requires Holds(data, pos, Encoded(half, t))
    ensures StoresElements(half, t, data, pos)
  {
    hide Elements;
    forall k {:trigger t.data[k]} | 0 <= k < |t.data|
      ensures t.ggmlType == 0 ==> BytesAre(data, pos + 4 * k, 4, t.data[k])
      ensures t.ggmlType != 0 ==> BytesAre(data, pos + 2 * k, 2, half(t.data[k]))
    {
      ElementStored(half, t, data, pos, k);
    }
  }

  predicate BytesAre(data: Bytes, at: nat, size: nat, n: nat) {
    && 2 <= size && at + size <= |data|
    && data[at] as nat == n % 0x100 && data[at + 1] as nat == n / 0x100 % 0x100
    && (size == 4 ==> data[at + 2] as nat == n / 0x1_0000 % 0x100 && data[at + 3] as nat == n / 0x100_0000 % 0x100)
  }

  lemma LowBytes(n: nat)
    ensures LittleEndian(n, 2) == [(n % 0x100) as byte, (n / 0x100 % 0x100) as byte]
    ensures LittleEndian(n, 4) == [(n % 0x100) as byte, (n / 0x100 % 0x100) as byte,
                                   (n / 0x1_0000 % 0x100) as byte, (n / 0x100_0000 % 0x100) as byte]
  {
    TwoLow(n);
    TwoLow(n / 0x1_0000);
    assert n / 256 / 256 == n / 0x1_0000;
    assert n / 0x1_0000 / 256 == n / 0x100_0000;
    assert LittleEndian(n / 256, 3) == [(n / 256 % 256) as byte] + LittleEndian(n / 256 / 256, 2);
  }

  lemma TwoLow(n: nat)
    ensures LittleEndian(n, 2) == [(n % 0x100) as byte, (n / 0x100 % 0x100) as byte]
  {
    assert LittleEndian(n / 256, 1) == [(n / 256 % 256) as byte] + LittleEndian(n / 256 / 256, 0);
  }

  function Encoded(half: nat -> nat, t: Tensor): (b: Bytes)
    ensures |b| == t.NBytes()
  {
    Elements(half, t.ggmlType, t.data)
  }

  /** The data section: each tensor's bytes at its offset, zeros between. */
  function Payload(half: nat -> nat, tensors: seq<Tensor>, alignment: nat): (b: Bytes)
    requires alignment > 0
    ensures |b| == EndOf(tensors, alignment)
  {
    if tensors == [] then []
    else
      var front := tensors[..|tensors| - 1];
      Payload(half, front, alignment)
      + Zeros(NextOffset(front, alignment) - EndOf(front, alignment))
      + Encoded(half, tensors[|tensors| - 1])
  }

  /** Everything before the data section, without its padding. */
  function PackFront(kv: seq<Entry>, placed: seq<Tensor>): Result<Bytes, Error> {
    match PackUnsigned(|placed|, 8)
    case Err(e) => Err(e)
    case Ok(tensorCount) =>
      match PackUnsigned(|kv|, 8)
      case Err(e) => Err(e)
      case Ok(kvCount) =>
        match PackEntries(kv)
        case Err(e) => Err(e)
        case Ok(entries) =>
          match PackInfos(placed)
          case Err(e) => Err(e)
          case Ok(infos) =>
            Ok(MAGIC + (LittleEndian(3, 4) + (tensorCount + (kvCount + (entries + infos)))))
  }

  /** The whole file. */
  function FileBytes(half: nat -> nat, kv: seq<Entry>, tensors: seq<Tensor>, alignment: nat): Result<Bytes, Error>
    requires alignment > 0
  {
    match PackFront(kv, Placed(tensors, alignment))
    case Err(e) => Err(e)
    case Ok(front) =>
      AlignUpBounds(|front|, alignment);
      Ok(front + Zeros(AlignUp(|front|, alignment) - |front|) + Payload(half, tensors, alignment))
  }

  // ----- Reading ------------------------------------------------------------------------

  function ReadEntry(data: Bytes, pos: nat): (r: Result<Read<Entry>, Error>)
    requires pos <= |data|
    ensures r.Ok? ==> pos <= r.value.pos <= |data|
  {
    match ReadString(data, pos)
    case Err(e) => Err(e)
    case Ok(key) =>
      match ReadNumber(data, key.pos, 4)
      case Err(e) => Err(e)
      case Ok(vtype) =>
        match ReadValue(data, vtype.pos, vtype.value)
        case Err(e) => Err(e)
        case Ok(v) => Ok(Read(Entry(key.value, vtype.value, v.value), v.pos))
  }

  function ReadEntries(data: Bytes, pos: nat, n: nat): (r: Result<Read<seq<Entry>>, Error>)
    requires pos <= |data|
    ensures r.Ok? ==> pos <= r.value.pos <= |data| && |r.value.value| == n
  {
    if n == 0 then Ok(Read([], pos))
    else match ReadEntries(data, pos, n - 1)
      case Err(e) => Err(e)
      case Ok(front) =>
        match ReadEntry(data, front.pos)
        case Err(e) => Err(e)
        case Ok(last) => Ok(Read(front.value + [last.value], last.pos))
  }

  function ReadDims(data: Bytes, pos: nat, n: nat): (r: Result<Read<seq<nat>>, Error>)
    requires pos <= |data|
    ensures r.Ok? ==> pos <= r.value.pos <= |data| && |r.value.value| == n
  {
    if n == 0 then Ok(Read([], pos))
    else match ReadDims(data, pos, n - 1)
      case Err(e) => Err(e)
      case Ok(front) =>
        match ReadNumber(data, front.pos, 8)
        case Err(e) => Err(e)
        case Ok(last) => Ok(Read(front.value + [last.value], last.pos))
  }

  datatype Info = Info(name: Bytes, dims: seq<nat>, ggmlType: nat, offset: nat)

  function ReadInfo(data: Bytes, pos: nat): (r: Result<Read<Info>, Error>)
    requires pos <= |data|
    ensures r.Ok? ==> pos <= r.value.pos <= |data|
  {
    match ReadString(data, pos)
    case Err(e) => Err(e)
    case Ok(name) =>
      match ReadNumber(data, name.pos, 4)
      case Err(e) => Err(e)
      case Ok(count) =>
        match ReadDims(data, count.pos, count.value)
        case Err(e) => Err(e)
        case Ok(dims) =>
          match ReadNumber(data, dims.pos, 4)
          case Err(e) => Err(e)
          case Ok(tag) =>
            match ReadNumber(data, tag.pos, 8)
            case Err(e) => Err(e)
            case Ok(offset) => Ok(Read(Info(name.value, dims.value, tag.value, offset.value), offset.pos))
  }

  function ReadInfos(data: Bytes, pos: nat, n: nat): (r: Result<Read<seq<Info>>, Error>)
    requires pos <= |data|
    ensures r.Ok? ==> pos <= r.value.pos <= |data| && |r.value.value| == n
  {
    if n == 0 then Ok(Read([], pos))
    else match ReadInfos(data, pos, n - 1)
      case Err(e) => Err(e)
      case Ok(front) =>
        match ReadInfo(data, front.pos)
        case Err(e) => Err(e)
        case Ok(last) => Ok(Read(front.value + [last.value], last.pos))
  }

  /** Later pairs replace earlier ones with the same key. */
  function LastWins(kv: seq<Entry>): map<Bytes, Value> {
    if kv == [] then map[]
    else LastWins(kv[..|kv| - 1])[kv[|kv| - 1].key := kv[|kv| - 1].value]
  }

  /** The alignment the metadata names, 32 if it names none. */
  function AlignmentOf(kv: map<Bytes, Value>): Result<int, Error> {
    if ALIGNMENT_KEY !in kv then Ok(32)
    else if kv[ALIGNMENT_KEY].Number? then Ok(kv[ALIGNMENT_KEY].n)
    else Err(Refused("alignment is not an integer"))
  }

  /** Elements per block and bytes per block of the known tensor types. */
  function TypeInfo(ggmlType: nat): Option<(nat, nat)> {
    match ggmlType
    case 0 => Some((1, 4)) case 1 => Some((1, 2)) case 2 => Some((32, 18)) case 3 => Some((32, 20))
    case 6 => Some((32, 22)) case 7 => Some((32, 24)) case 8 => Some((32, 34)) case 9 => Some((32, 40))
    case 10 => Some((256, 84)) case 11 => Some((256, 110)) case 12 => Some((256, 144)) case 13 => Some((256, 176))
    case 14 => Some((256, 210)) case 15 => Some((256, 292)) case 16 => Some((256, 66)) case 17 => Some((256, 74))
    case 18 => Some((256, 98)) case 19 => Some((256, 50)) case 20 => Some((32, 18)) case 21 => Some((256, 110))
    case 22 => Some((256, 82)) case 23 => Some((256, 136)) case 24 => Some((1, 1)) case 25 => Some((1, 2))
    case 26 => Some((1, 4)) case 27 => Some((1, 8)) case 28 => Some((1, 8)) case 29 => Some((256, 56))
    case 30 => Some((1, 2)) case _ => None
  }

  /** Bytes of a tensor of a known type. */
  function SizeOf(info: Info): Option<nat> {
    match TypeInfo(info.ggmlType)
    case None => None
    case Some((block, size)) => if block == 0 then None else Some(Product(info.dims) / block * size)
  }

  datatype GgufFile = GgufFile(version: nat, kv: map<Bytes, Value>, tensors: seq<Info>, dataStart: int)

  function ReadFile(data: Bytes): Result<GgufFile, Error> {
    match ReadBytes(data, 0, 4)
    case Err(e) => Err(e)
    case Ok(magic) =>
      if magic.value != MAGIC then Err(BadMagic)
      else ReadAfterMagic(data)
  }

  function ReadAfterMagic(data: Bytes): Result<GgufFile, Error>
    requires |data| >= 4
  {
    match ReadNumber(data, 4, 4)
    case Err(e) => Err(e)
    case Ok(version) =>
      match ReadNumber(data, version.pos, 8)
      case Err(e) => Err(e)
      case Ok(tensorCount) =>
        match ReadNumber(data, tensorCount.pos, 8)
        case Err(e) => Err(e)
        case Ok(kvCount) =>
          match ReadEntries(data, kvCount.pos, kvCount.value)
          case Err(e) => Err(e)
          case Ok(entries) =>
            match ReadInfos(data, entries.pos, tensorCount.value)
            case Err(e) => Err(e)
            case Ok(infos) =>
              match AlignmentOf(LastWins(entries.value))
              case Err(e) => Err(e)
              case Ok(alignment) =>
                if alignment == 0 then Err(ZeroAlignment)
                else Ok(GgufFile(version.value, LastWins(entries.value), infos.value,
                                 AlignUp(infos.pos, alignment)))
  }
}

/** The reader, with its cursor moving over the bytes. Every method is proved to read
    what the layout's parse defines, errors included. */
module GgufReader {
  import opened Wrappers
  import opened ByteCodec
  import opened GgufValue
  import opened GgufLayout

  class Reader {
    const data: Bytes
    var pos: nat

    ghost predicate Valid()
      reads this
    {
      pos <= |data|
    }

    constructor (bytes: Bytes)
      ensures Valid() && data == bytes && pos == 0
    {
      data, pos := bytes, 0;
    }

    /** What a read of this value and end position leaves behind. */
    ghost predicate Left<T>(r: Result<T, Error>, spec: Result<Read<T>, Error>)
      reads this
    {
      match spec
      case Ok(read) => r == Ok(read.value) && pos == read.pos
      case Err(e) => r == Err(e)
    }

    method Take(n: nat) returns (r: Result<Bytes, Error>)
      requires Valid()
      modifies this
      ensures Valid() && Left(r, ReadBytes(data, old(pos), n))
    {
      if pos + n > |data| {
        return Err(UnexpectedEnd);
      }
      r := Ok(data[pos..pos + n]);
      pos := pos + n;
    }

    method Number(size: nat) returns (r: Result<nat, Error>)
      requires Valid()
      modifies this
      ensures Valid() && Left(r, ReadNumber(data, old(pos), size))
    {
      var b := Take(size);
      match b
      case Err(e) => return Err(e);
      case Ok(bytes) => return Ok(FromLittleEndian(bytes));
    }

    method String() returns (r: Result<Bytes, Error>)
      requires Valid()
      modifies this
      ensures Valid() && Left(r, ReadString(data, old(pos)))
    {
      hide FromLittleEndian;
      var n := Number(8);
      match n
      case Err(e) => return Err(e);
      case Ok(length) => r := Take(length);
    }

    method Value(vtype: nat) returns (r: Result<Value, Error>)
      requires Valid()
      modifies this
      ensures Valid() && Left(r, ReadValue(data, old(pos), vtype))
      decreases |data| - pos, 0
    {
      hide FromLittleEndian, ReadString, ReadNumber, ReadBytes, ScalarOf, ReadItems;
      if vtype == T_STRING {
        var s := String();
        return if s.Ok? then Ok(Text(s.value)) else Err(s.error);
      }
      if vtype == T_BOOL {
        var b := Take(1);
        return if b.Ok? then Ok(Boolean(b.value != [0])) else Err(b.error);
      }
      if vtype == T_ARRAY {
        var itemType := Number(4);
        if itemType.Err? { return Err(itemType.error); }
        var count := Number(8);
        if count.Err? { return Err(count.error); }
        var items := Items(itemType.value, count.value);
        return if items.Ok? then Ok(List(itemType.value, items.value)) else Err(items.error);
      }
      var size := ScalarSize(vtype);
      if size.None? { return Err(UnsupportedType(vtype)); }
      var raw := Number(size.value);
      return if raw.Ok? then Ok(ScalarOf(vtype, size.value, raw.value)) else Err(raw.error);
    }

    /** The items of an array, one after another. */
    method Items(itemType: nat, count: nat) returns (r: Result<seq<Value>, Error>)
      requires Valid()
      modifies this
      ensures Valid() && Left(r, ReadItems(data, old(pos), itemType, count))
      decreases |data| - pos, 1
    {
      hide ReadValue;
      var items := [];
      var k := 0;
      ghost var whole := ReadItems(data, pos, itemType, count);
      assert whole.Ok? ==> [] + whole.value.value == whole.value.value;
      while k < count
        invariant k <= count && old(pos) <= pos <= |data| && (k == 0 || old(pos) < pos)
        invariant whole == Prepend(items, ReadItems(data, pos, itemType, count - k))
      {
        ghost var at := pos;
        var item := Value(itemType);
        if item.Err? {
          return Err(item.error);
        }
        ItemStep(data, at, itemType, count - k, items);
        items := items + [item.value];
        k := k + 1;
      }
      assert items + [] == items;
      return Ok(items);
    }
  }

  /** The rest of a list of items, after those already read. */
  ghost function Prepend(items: seq<Value>, rest: Result<Read<seq<Value>>, Error>): Result<Read<seq<Value>>, Error> {
    match rest
    case Err(e) => Err(e)
    case Ok(read) => Ok(Read(items + read.value, read.pos))
  }

  lemma ItemStep(data: Bytes, pos: nat, itemType: nat, count: nat, items: seq<Value>)
    requires pos <= |data| && count > 0 && ReadValue(data, pos, itemType).Ok?
    ensures var first := ReadValue(data, pos, itemType).value;
            Prepend(items, ReadItems(data, pos, itemType, count))
              == Prepend(items + [first.value], ReadItems(data, first.pos, itemType, count - 1))
  {
    hide ReadValue;
    var first := ReadValue(data, pos, itemType).value;
    var rest := ReadItems(data, first.pos, itemType, count - 1);
    if rest.Ok? {
      assert items + ([first.value] + rest.value.value) == (items + [first.value]) + rest.value.value;
    }
  }

  // ----- A whole file -----------------------------------------------------------------------

  lemma {:induction false} EntriesPrefixFails(data: Bytes, pos: nat, k: nat, n: nat)
    requires pos <= |data| && k <= n && ReadEntries(data, pos, k).Err?
    ensures ReadEntries(data, pos, n) == Err(ReadEntries(data, pos, k).error)
    decreases n - k
  {
    if k < n { EntriesPrefixFails(data, pos, k + 1, n); }
  }

  lemma {:induction false} InfosPrefixFails(data: Bytes, pos: nat, k: nat, n: nat)
    requires pos <= |data| && k <= n && ReadInfos(data, pos, k).Err?
    ensures ReadInfos(data, pos, n) == Err(ReadInfos(data, pos, k).error)
    decreases n - k
  {
    if k < n { InfosPrefixFails(data, pos, k + 1, n); }
  }

  lemma {:induction false} DimsPrefixFails(data: Bytes, pos: nat, k: nat, n: nat)
    requires pos <= |data| && k <= n && ReadDims(data, pos, k).Err?
    ensures ReadDims(data, pos, n) == Err(ReadDims(data, pos, k).error)
    decreases n - k
  {
    if k < n { DimsPrefixFails(data, pos, k + 1, n); }
  }

  /** One key/value pair. */
  method LoadEntry(r: Reader) returns (e: Result<Entry, Error>)
    requires r.Valid()
    modifies r
    ensures r.Valid() && r.Left(e, ReadEntry(r.data, old(r.pos)))
  {
    hide ReadString, ReadNumber, ReadValue;
    var key := r.String();
    if key.Err? { return Err(key.error); }
    var vtype := r.Number(4);
    if vtype.Err? { return Err(vtype.error); }
    var value := r.Value(vtype.value);
    if value.Err? { return Err(value.error); }
    return Ok(Entry(key.value, vtype.value, value.value));
  }

  /** The dictionary of all pairs; a repeated key keeps its last value. */
  method LoadEntries(r: Reader, n: nat) returns (kv: Result<map<Bytes, Value>, Error>)
    requires r.Valid()
    modifies r
    ensures r.Valid()
    ensures match ReadEntries(r.data, old(r.pos), n)
            case Ok(read) => kv == Ok(LastWins(read.value)) && r.pos == read.pos
            case Err(e) => kv == Err(e)
  {
    hide ReadEntry;
    ghost var start := r.pos;
    var pairs := map[];
    for k := 0 to n
      invariant r.Valid() && ReadEntries(r.data, start, k).Ok?
      invariant var read := ReadEntries(r.data, start, k).value;
                pairs == LastWins(read.value) && r.pos == read.pos
    {
      ghost var before := ReadEntries(r.data, start, k).value.value;
      var e := LoadEntry(r);
      if e.Err? {
        EntriesPrefixFails(r.data, start, k + 1, n);
        return Err(e.error);
      }
      assert (before + [e.value])[..k] == before;
      pairs := pairs[e.value.key := e.value.value];
    }
    return Ok(pairs);
  }

  method LoadDims(r: Reader, n: nat) returns (dims: Result<seq<nat>, Error>)
    requires r.Valid()
    modifies r
    ensures r.Valid() && r.Left(dims, ReadDims(r.data, old(r.pos), n))
  {
    hide ReadNumber;
    ghost var start := r.pos;
    var ds := [];
    for k := 0 to n
      invariant r.Valid() && ReadDims(r.data, start, k) == Ok(Read(ds, r.pos))
    {
      var d := r.Number(8);
      if d.Err? {
        DimsPrefixFails(r.data, start, k + 1, n);
        return Err(d.error);
      }
      ds := ds + [d.value];
    }
    return Ok(ds);
  }

  method LoadInfo(r: Reader) returns (info: Result<Info, Error>)
    requires r.Valid()
    modifies r
    ensures r.Valid() && r.Left(info, ReadInfo(r.data, old(r.pos)))
  {
    hide ReadString, ReadNumber, ReadDims;
    var name := r.String();
    if name.Err? { return Err(name.error); }
    var count := r.Number(4);
    if count.Err? { return Err(count.error); }
    var dims := LoadDims(r, count.value);
    if dims.Err? { return Err(dims.error); }
    var tag := r.Number(4);
    if tag.Err? { return Err(tag.error); }
    var offset := r.Number(8);
    if offset.Err? { return Err(offset.error); }
    return Ok(Info(name.value, dims.value, tag.value, offset.value));
  }

  method LoadInfos(r: Reader, n: nat) returns (infos: Result<seq<Info>, Error>)
    requires r.Valid()
    modifies r
    ensures r.Valid() && r.Left(infos, ReadInfos(r.data, old(r.pos), n))
  {
    hide ReadInfo;
    ghost var start := r.pos;
    var list := [];
    for k := 0 to n
      invariant r.Valid() && ReadInfos(r.data, start, k) == Ok(Read(list, r.pos))
    {
      var info := LoadInfo(r);
      if info.Err? {
        InfosPrefixFails(r.data, start, k + 1, n);
        return Err(info.error);
      }
      list := list + [info.value];
    }
    return Ok(list);
  }

  /** Parses a whole file. */
  method Load(data: Bytes) returns (file: Result<GgufFile, Error>)
    ensures file == ReadFile(data)
  {
    hide ReadNumber, ReadEntries, ReadInfos, LastWins, AlignmentOf, AlignUp;
    var r := new Reader(data);
    var magic := r.Take(4);
    if magic.Err? { return Err(magic.error); }
    if magic.value != MAGIC { return Err(BadMagic); }
    var version := r.Number(4);
    if version.Err? { return Err(version.error); }
    var tensorCount := r.Number(8);
    if tensorCount.Err? { return Err(tensorCount.error); }
    var kvCount := r.Number(8);
    if kvCount.Err? { return Err(kvCount.error); }
    var kv := LoadEntries(r, kvCount.value);
    if kv.Err? { return Err(kv.error); }
    var infos := LoadInfos(r, tensorCount.value);
    if infos.Err? { return Err(infos.error); }
    var alignment := AlignmentOf(kv.value);
    if alignment.Err? { return Err(alignment.error); }
    if alignment.value == 0 { return Err(ZeroAlignment); }
    return Ok(GgufFile(version.value, kv.value, infos.value, AlignUp(r.pos, alignment.value)));
  }
}

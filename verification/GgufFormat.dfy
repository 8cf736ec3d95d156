/** The bytes of a GGUF file, field by field, by the numbers the format gives its types. */
module GgufFormat {
  import opened Wrappers
  import opened ByteCodec
  import opened GgufValue
  import opened GgufLayout
  import opened GgufRoundTrip

  /** The number in the bytes [from, from + size), lowest byte first. */
  ghost predicate Says(b: Bytes, from: nat, size: nat, n: int) {
    from + size <= |b| && FromLittleEndian(b[from..from + size]) == n
  }

  ghost predicate Spells(b: Bytes, from: nat, s: Bytes) {
    from + |s| <= |b| && b[from..from + |s|] == s
  }

  lemma HeldNumber(b: Bytes, pos: nat, n: int, size: nat)
    requires PackUnsigned(n, size).Ok? && Holds(b, pos, PackUnsigned(n, size).value)
    ensures Says(b, pos, size, n) && |PackUnsigned(n, size).value| == size
  {
    hide LittleEndian, FromLittleEndian, Pow256;
    NumberAt(b, pos, n, size);
  }

  lemma HeldString(b: Bytes, pos: nat, s: Bytes)
    requires PackString(s).Ok? && Holds(b, pos, PackString(s).value)
    ensures Says(b, pos, 8, |s|) && Spells(b, pos + 8, s) && |PackString(s).value| == 8 + |s|
  {
    hide LittleEndian, FromLittleEndian, Pow256, PackUnsigned;
    HoldsParts(b, pos, PackUnsigned(|s|, 8).value, s);
    HeldNumber(b, pos, |s|, 8);
  }

  lemma HoldsAll(b: Bytes)
    ensures Holds(b, 0, b)
  {}

  // ----- Values ----------------------------------------------------------------------

  /** A value of type 4, 5, 6, 7, 8 or 9 in its bytes; an array's items follow its item
      type and their number. */
  ghost predicate ValueBytes(b: Bytes, vtype: nat, v: Value) {
    match vtype
    case 4 => |b| == 4 && v.Number? && Says(b, 0, 4, v.n)
    case 5 => |b| == 4 && v.Number? && Says(b, 0, 4, if v.n < 0 then v.n + 0x1_0000_0000 else v.n)
              && -0x8000_0000 <= v.n < 0x8000_0000
    case 6 => |b| == 4 && v.Real? && Says(b, 0, 4, v.bits)
    case 7 => v.Boolean? && b == [if v.b then 1 else 0]
    case 8 => v.Text? && |b| == 8 + |v.s| && Says(b, 0, 8, |v.s|) && Spells(b, 8, v.s)
    case 9 => v.List? && |b| >= 12 && Says(b, 0, 4, v.itemType) && Says(b, 4, 8, |v.items|)
              && ItemBytes(b[12..], v.itemType, v.items)
    case _ => false
  }

  /** Numbers of type 4, floats of type 6 or texts of type 8, one after another. */
  ghost predicate ItemBytes(b: Bytes, itemType: nat, items: seq<Value>)
    decreases |items|
  {
    if items == [] then b == []
    else (itemType == 4 || itemType == 6 || itemType == 8)
         && (exists at {:trigger b[..at]} ::
               && 0 <= at <= |b| && ItemBytes(b[..at], itemType, items[..|items| - 1])
               && OneItem(b[at..], itemType, items[|items| - 1]))
  }

  ghost predicate OneItem(b: Bytes, itemType: nat, v: Value) {
    if itemType == 8 then v.Text? && |b| == 8 + |v.s| && Says(b, 0, 8, |v.s|) && Spells(b, 8, v.s)
    else if itemType == 6 then |b| == 4 && v.Real? && Says(b, 0, 4, v.bits)
    else |b| == 4 && v.Number? && Says(b, 0, 4, v.n)
  }

  lemma ItemFormat(itemType: nat, v: Value)
    requires PackItem(itemType, v).Ok?
    ensures itemType == 4 || itemType == 6 || itemType == 8
    ensures OneItem(PackItem(itemType, v).value, itemType, v)
  {
    hide PackString, PackUnsigned, Says, Spells;
    var b := PackItem(itemType, v).value;
    HoldsAll(b);
    if v.Text? && itemType == 8 { HeldString(b, 0, v.s); }
    if v.Real? && itemType == 6 { HeldNumber(b, 0, v.bits, 4); }
    if v.Number? && itemType == 4 { HeldNumber(b, 0, v.n, 4); }
  }

  lemma {:induction false} ItemsFormat(itemType: nat, items: seq<Value>)
    requires PackItems(itemType, items).Ok?
    ensures ItemBytes(PackItems(itemType, items).value, itemType, items)
    decreases |items|
  {
    hide PackItem, OneItem;
    if items != [] {
      var front, last := items[..|items| - 1], items[|items| - 1];
      ItemsFormat(itemType, front);
      ItemFormat(itemType, last);
      var b, at := PackItems(itemType, items).value, |PackItems(itemType, front).value|;
      assert b[..at] == PackItems(itemType, front).value && b[at..] == PackItem(itemType, last).value;
    }
  }

  lemma ArrayFormat(v: Value)
    requires PackArray(v).Ok?
    ensures ValueBytes(PackArray(v).value, 9, v)
  {
    hide PackUnsigned, Says, ItemBytes, PackItems;
    var b := PackArray(v).value;
    var tag, count, items :=
      PackUnsigned(v.itemType, 4).value, PackUnsigned(|v.items|, 8).value, PackItems(v.itemType, v.items).value;
    HoldsAll(b);
    HoldsParts(b, 0, tag, count + items);
    HeldNumber(b, 0, v.itemType, 4);
    HoldsParts(b, 4, count, items);
    HeldNumber(b, 4, |v.items|, 8);
    ItemsFormat(v.itemType, v.items);
    assert b == tag + count + items && b[12..] == items;
  }

  /** What the writer emits for a value is the format's encoding of it. */
  lemma ValueFormat(vtype: nat, v: Value)
    requires PackValue(vtype, v).Ok?
    ensures ValueBytes(PackValue(vtype, v).value, vtype, v)
  {
    var b := PackValue(vtype, v).value;
    HoldsAll(b);
    GgufRoundTrip.FourBytes();
    if vtype == 9 { ArrayFormat(v); }
    hide PackString, PackUnsigned, Says, Spells, PackArray, ItemBytes, Pow256;
    if vtype == 4 { HeldNumber(b, 0, v.n, 4); }
    if vtype == 5 { HeldNumber(b, 0, Unsigned(v.n, 4), 4); }
    if vtype == 6 { HeldNumber(b, 0, v.bits, 4); }
    if vtype == 8 { HeldString(b, 0, v.s); }
  }

  // ----- Pairs and tensor descriptions ---------------------------------------------------

  /** A pair: the key behind its length, the type, the value. */
  lemma EntryFormat(e: Entry)
    requires PackEntry(e).Ok?
    ensures var b, k := PackEntry(e).value, |e.key|;
            && |b| >= 12 + k && Says(b, 0, 8, k) && Spells(b, 8, e.key) && Says(b, 8 + k, 4, e.vtype)
            && ValueBytes(b[12 + k..], e.vtype, e.value)
  {
    hide PackString, PackUnsigned, PackValue, Says, Spells, ValueBytes;
    var b := PackEntry(e).value;
    var key, tag, value := PackString(e.key).value, PackUnsigned(e.vtype, 4).value, PackValue(e.vtype, e.value).value;
    HoldsAll(b);
    HoldsParts(b, 0, key, tag + value);
    HeldString(b, 0, e.key);
    HoldsParts(b, |key|, tag, value);
    HeldNumber(b, |key|, e.vtype, 4);
    ValueFormat(e.vtype, e.value);
    assert b == key + tag + value && b[12 + |e.key|..] == value;
  }

  lemma {:induction false} DimsFormat(b: Bytes, pos: nat, dims: seq<nat>)
    requires PackDims(dims).Ok? && Holds(b, pos, PackDims(dims).value)
    ensures |PackDims(dims).value| == 8 * |dims|
    ensures forall j {:trigger dims[j]} :: 0 <= j < |dims| ==> Says(b, pos + 8 * j, 8, dims[j])
    decreases |dims|
  {
    hide PackUnsigned, Says;
    if dims != [] {
      var front, last := dims[..|dims| - 1], dims[|dims| - 1];
      HoldsParts(b, pos, PackDims(front).value, PackUnsigned(last, 8).value);
      DimsFormat(b, pos, front);
      HeldNumber(b, pos + 8 * |front|, last, 8);
      forall j {:trigger dims[j]} | 0 <= j < |dims|
        ensures Says(b, pos + 8 * j, 8, dims[j])
      {
        if j < |front| { assert front[j] == dims[j]; }
      }
    }
  }

  /** Dimension number j in the file is the j-th innermost of the shape. */
  ghost predicate DimsAt(b: Bytes, from: nat, shape: seq<nat>) {
    forall i {:trigger shape[i]} :: 0 <= i < |shape| ==> Says(b, from + 8 * (|shape| - 1 - i), 8, shape[i])
  }

  lemma DimsLength(t: Tensor)
    ensures |t.Dims()| == |t.shape|
  {}

  lemma DimsPlaced(b: Bytes, from: nat, t: Tensor)
    requires forall j {:trigger t.Dims()[j]} :: 0 <= j < |t.Dims()| ==> Says(b, from + 8 * j, 8, t.Dims()[j])
    ensures DimsAt(b, from, t.shape)
  {
    hide Says;
    hide Tensor.Dims;
    DimsReversed(t);
    forall i {:trigger t.shape[i]} | 0 <= i < |t.shape|
      ensures Says(b, from + 8 * (|t.shape| - 1 - i), 8, t.shape[i])
    {
      var j := |t.shape| - 1 - i;
      assert t.Dims()[j] == t.shape[i];
    }
  }

  /** A tensor's description: its name behind its length, the number of its dimensions,
      the dimensions with the innermost first, its type, and its offset. */
  lemma InfoFormat(t: Tensor)
    requires PackInfo(t).Ok?
    ensures var b, n, d := PackInfo(t).value, |t.name|, |t.shape|;
            && |b| == 24 + n + 8 * d
            && Says(b, 0, 8, n) && Spells(b, 8, t.name) && Says(b, 8 + n, 4, d)
            && DimsAt(b, 12 + n, t.shape)
            && Says(b, 12 + n + 8 * d, 4, t.ggmlType) && Says(b, 16 + n + 8 * d, 8, t.offset)
  {
    hide PackString, PackUnsigned, PackDims, Says, Spells, DimsAt;
    hide Tensor.Dims;
    DimsLength(t);
    var b, n, d := PackInfo(t).value, |t.name|, |t.shape|;
    var name, count, dims := PackString(t.name).value, PackUnsigned(|t.Dims()|, 4).value, PackDims(t.Dims()).value;
    var tag, offset := PackUnsigned(t.ggmlType, 4).value, PackUnsigned(t.offset, 8).value;
    HoldsAll(b);
    HoldsParts(b, 0, name, count + (dims + (tag + offset)));
    HeldString(b, 0, t.name);
    HoldsParts(b, 8 + n, count, dims + (tag + offset));
    HeldNumber(b, 8 + n, d, 4);
    HoldsParts(b, 12 + n, dims, tag + offset);
    DimsFormat(b, 12 + n, t.Dims());
    HoldsParts(b, 12 + n + 8 * d, tag, offset);
    HeldNumber(b, 12 + n + 8 * d, t.ggmlType, 4);
    HeldNumber(b, 16 + n + 8 * d, t.offset, 8);
    DimsPlaced(b, 12 + n, t);
  }

  // ----- What can be written --------------------------------------------------------------

  lemma EightBytes()
    ensures Pow256(4) == 0x1_0000_0000 && Pow256(8) == 0x1_0000_0000_0000_0000
  {
    GgufRoundTrip.FourBytes();
    assert Pow256(5) == 0x100_0000_0000;
    assert Pow256(6) == 0x1_0000_0000_0000;
    assert Pow256(7) == 0x100_0000_0000_0000;
  }

  predicate ItemWritable(itemType: nat, v: Value) {
    || (itemType == 4 && v.Number? && 0 <= v.n <= 0xFFFF_FFFF)
    || (itemType == 6 && v.Real? && v.bits <= 0xFFFF_FFFF)
    || (itemType == 8 && v.Text? && |v.s| <= 0xFFFF_FFFF_FFFF_FFFF)
  }

  /** Values within the ranges of the types the writer knows. */
  predicate Writable(vtype: nat, v: Value) {
    match vtype
    case 5 => v.Number? && -0x8000_0000 <= v.n <= 0x7FFF_FFFF
    case 7 => v.Boolean?
    case 9 => v.List? && v.itemType <= 0xFFFF_FFFF && |v.items| <= 0xFFFF_FFFF_FFFF_FFFF
              && forall i {:trigger v.items[i]} :: 0 <= i < |v.items| ==> ItemWritable(v.itemType, v.items[i])
    case _ => ItemWritable(vtype, v)
  }

  lemma {:induction false} ItemsWritten(itemType: nat, items: seq<Value>)
    ensures PackItems(itemType, items).Ok?
       <==> forall i {:trigger items[i]} :: 0 <= i < |items| ==> ItemWritable(itemType, items[i])
    decreases |items|
  {
    hide ItemWritable, PackItem;
    if items != [] {
      var front, last := items[..|items| - 1], items[|items| - 1];
      ItemsWritten(itemType, front);
      ItemWritten(itemType, last);
      assert forall i {:trigger items[i]} :: 0 <= i < |front| ==> items[i] == front[i];
      assert forall i {:trigger front[i]} :: 0 <= i < |front| ==> front[i] == items[i];
    }
  }

  lemma ItemWritten(itemType: nat, v: Value)
    ensures PackItem(itemType, v).Ok? <==> ItemWritable(itemType, v)
  {
    EightBytes();
    hide Pow256;
  }

  /** A value can be written exactly when it is in the range of its type. */
  lemma ValueWritten(vtype: nat, v: Value)
    ensures PackValue(vtype, v).Ok? <==> Writable(vtype, v)
  {
    EightBytes();
    if v.List? { ItemsWritten(v.itemType, v.items); }
    hide Pow256, PackItems;
  }

  predicate EntryWritable(e: Entry) {
    |e.key| <= 0xFFFF_FFFF_FFFF_FFFF && e.vtype <= 0xFFFF_FFFF && Writable(e.vtype, e.value)
  }

  predicate AllEntries(kv: seq<Entry>) {
    forall i {:trigger kv[i]} :: 0 <= i < |kv| ==> EntryWritable(kv[i])
  }

  lemma {:induction false} EntriesWritten(kv: seq<Entry>)
    ensures PackEntries(kv).Ok? <==> AllEntries(kv)
    decreases |kv|
  {
    hide PackEntry, EntryWritable;
    if kv != [] {
      var front, last := kv[..|kv| - 1], kv[|kv| - 1];
      EntriesWritten(front);
      EntryWritten(last);
      assert forall i {:trigger kv[i]} :: 0 <= i < |front| ==> kv[i] == front[i];
      assert forall i {:trigger front[i]} :: 0 <= i < |front| ==> front[i] == kv[i];
    }
  }

  lemma EntryWritten(e: Entry)
    ensures PackEntry(e).Ok? <==> EntryWritable(e)
  {
    EightBytes();
    ValueWritten(e.vtype, e.value);
    hide Pow256, PackValue, Writable;
  }

  predicate Fits64(n: nat) {
    n <= 0xFFFF_FFFF_FFFF_FFFF
  }

  predicate InfoWritable(t: Tensor) {
    && Fits64(|t.name|) && |t.shape| <= 0xFFFF_FFFF
    && (forall i {:trigger t.shape[i]} :: 0 <= i < |t.shape| ==> Fits64(t.shape[i]))
    && t.ggmlType <= 0xFFFF_FFFF && Fits64(t.offset)
  }

  lemma DimWritten(n: nat)
    ensures PackUnsigned(n, 8).Ok? <==> Fits64(n)
  {
    EightBytes();
    hide Pow256;
  }

  lemma {:induction false} DimsWritten(dims: seq<nat>)
    ensures PackDims(dims).Ok? <==> forall i {:trigger dims[i]} :: 0 <= i < |dims| ==> Fits64(dims[i])
    decreases |dims|
  {
    hide PackUnsigned, Fits64;
    if dims != [] {
      var front := dims[..|dims| - 1];
      DimsWritten(front);
      DimWritten(dims[|dims| - 1]);
      assert forall i {:trigger dims[i]} :: 0 <= i < |front| ==> dims[i] == front[i];
      assert forall i {:trigger front[i]} :: 0 <= i < |front| ==> front[i] == dims[i];
    }
  }

  lemma InfoWritten(t: Tensor)
    ensures PackInfo(t).Ok? <==> InfoWritable(t)
  {
    EightBytes();
    DimsWritten(t.Dims());
    SameDims(t);
    DimsLength(t);
    hide Pow256, PackDims;
    hide Tensor.Dims;
  }

  lemma SameDims(t: Tensor)
    ensures (forall i {:trigger t.Dims()[i]} :: 0 <= i < |t.Dims()| ==> Fits64(t.Dims()[i]))
       <==> (forall i {:trigger t.shape[i]} :: 0 <= i < |t.shape| ==> Fits64(t.shape[i]))
  {
    DimsReversed(t);
    hide Fits64;
    hide Tensor.Dims;
    if forall i {:trigger t.Dims()[i]} :: 0 <= i < |t.Dims()| ==> Fits64(t.Dims()[i]) {
      forall i | 0 <= i < |t.shape|
        ensures Fits64(t.shape[i])
      {
        assert t.Dims()[|t.shape| - 1 - i] == t.shape[i];
      }
    }
  }

  predicate AllInfos(ts: seq<Tensor>) {
    forall i {:trigger ts[i]} :: 0 <= i < |ts| ==> InfoWritable(ts[i])
  }

  lemma {:induction false} InfosWritten(ts: seq<Tensor>)
    ensures PackInfos(ts).Ok? <==> AllInfos(ts)
    decreases |ts|
  {
    hide PackInfo, InfoWritable;
    if ts != [] {
      var front := ts[..|ts| - 1];
      InfosWritten(front);
      InfoWritten(ts[|ts| - 1]);
      assert forall i {:trigger ts[i]} :: 0 <= i < |front| ==> ts[i] == front[i];
      assert forall i {:trigger front[i]} :: 0 <= i < |front| ==> front[i] == ts[i];
    }
  }

  /** A file is written exactly when its counts, its pairs and its descriptions, with the
      offsets the tensors are given, are within the ranges of their fields. */
  lemma WrittenExactly(half: nat -> nat, kv: seq<Entry>, tensors: seq<Tensor>, alignment: nat)
    requires alignment > 0
    ensures FileBytes(half, kv, tensors, alignment).Ok?
       <==> && |tensors| <= 0xFFFF_FFFF_FFFF_FFFF && |kv| <= 0xFFFF_FFFF_FFFF_FFFF
            && AllEntries(kv) && AllInfos(Placed(tensors, alignment))
  {
    FrontWritten(kv, Placed(tensors, alignment));
    hide PackFront, AllEntries, AllInfos, Placed, Payload, AlignUp;
  }

  lemma FrontWritten(kv: seq<Entry>, placed: seq<Tensor>)
    ensures PackFront(kv, placed).Ok?
       <==> && |placed| <= 0xFFFF_FFFF_FFFF_FFFF && |kv| <= 0xFFFF_FFFF_FFFF_FFFF
            && AllEntries(kv) && AllInfos(placed)
  {
    EightBytes();
    EntriesWritten(kv);
    InfosWritten(placed);
    hide Pow256, PackEntries, PackInfos, AllEntries, AllInfos, LittleEndian;
  }

  // ----- Reading by number -----------------------------------------------------------------

  /** The integer types by their numbers: bytes of the value, and whether it is signed. */
  predicate IntegerType(vtype: nat, size: nat, signed: bool) {
    || (vtype == 0 && size == 1 && !signed) || (vtype == 1 && size == 1 && signed)
    || (vtype == 2 && size == 2 && !signed) || (vtype == 3 && size == 2 && signed)
    || (vtype == 4 && size == 4 && !signed) || (vtype == 5 && size == 4 && signed)
    || (vtype == 10 && size == 8 && !signed) || (vtype == 11 && size == 8 && signed)
  }

  /** The reader takes every integer type's bytes, and gives their value modulo the width,
      in the range of the type. */
  lemma IntegerRead(data: Bytes, pos: nat, vtype: nat, size: nat, signed: bool)
    requires pos + size <= |data| && IntegerType(vtype, size, signed)
    ensures var r := ReadValue(data, pos, vtype);
            && r.Ok? && r.value.pos == pos + size && r.value.value.Number?
            && var n := r.value.value.n;
               && (n - FromLittleEndian(data[pos..pos + size])) % Pow256(size) == 0
               && (if signed then -(Pow256(size) as int) <= 2 * n < Pow256(size) else 0 <= n < Pow256(size))
  {
    hide FromLittleEndian, Pow256;
    var u := FromLittleEndian(data[pos..pos + size]);
    assert Pow256(size) > 0 && u < Pow256(size);
    ModOfMinus(Pow256(size));
  }

  /** Floats of type 6 and 12 are the bits of four and of eight bytes; there is no type
      beyond 12. */
  lemma FloatRead(data: Bytes, pos: nat, vtype: nat)
    requires pos + 8 <= |data|
    ensures vtype == 6 ==> ReadValue(data, pos, vtype) == Ok(Read(Real(FromLittleEndian(data[pos..pos + 4])), pos + 4))
    ensures vtype == 12 ==> ReadValue(data, pos, vtype) == Ok(Read(Real(FromLittleEndian(data[pos..pos + 8])), pos + 8))
    ensures vtype > 12 ==> ReadValue(data, pos, vtype) == Err(UnsupportedType(vtype))
  {
    hide FromLittleEndian;
  }

  lemma ModOfMinus(p: int)
    requires p > 0
    ensures (-p) % p == 0 && 0 % p == 0
  {}

  /** The data section starts at a multiple of the alignment the file names, or of 32. */
  lemma DataStartAligned(data: Bytes)
    requires ReadFile(data).Ok?
    ensures var f := ReadFile(data).value;
            && (ALIGNMENT_KEY !in f.kv ==> f.dataStart % 32 == 0)
            && (ALIGNMENT_KEY in f.kv ==>
                  f.kv[ALIGNMENT_KEY].Number? && f.kv[ALIGNMENT_KEY].n != 0
                  && (f.kv[ALIGNMENT_KEY].n > 0 ==> f.dataStart % f.kv[ALIGNMENT_KEY].n == 0))
  {
    hide ReadNumber, ReadEntries, ReadInfos, LastWins, AlignUp;
    var f := ReadFile(data).value;
    var alignment := AlignmentOf(f.kv).value;
    if alignment > 0 {
      forall pos: nat
        ensures AlignUp(pos, alignment) % alignment == 0
      {
        AlignUpBounds(pos, alignment);
      }
    }
  }
}

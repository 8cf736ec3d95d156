/** The writer: metadata and tensors collected in order, then laid out. What it emits
    is the file that the layout defines, so that the reader's results hold of it. */
module GgufWriter {
  import opened Wrappers
  import opened ByteCodec
  import opened GgufValue
  import opened GgufLayout
  import opened GgufRoundTrip

  /** "kokopop.tensor.logical_names" and "kokopop.tensor.physical_names" */
  const NAMES_PREFIX: Bytes := [107, 111, 107, 111, 112, 111, 112, 46, 116, 101, 110, 115, 111, 114, 46]
  const LOGICAL_KEY: Bytes := NAMES_PREFIX + [108, 111, 103, 105, 99, 97, 108, 95, 110, 97, 109, 101, 115]
  const PHYSICAL_KEY: Bytes := NAMES_PREFIX + [112, 104, 121, 115, 105, 99, 97, 108, 95, 110, 97, 109, 101, 115]

  /** "st.", the prefix of hashed names. */
  const HASHED: Bytes := [115, 116, 46]

  const U32_LIMIT: nat := 0x1_0000_0000

  lemma KeysSpell()
    ensures AsText(ALIGNMENT_KEY) == "general.alignment" && AsText(HASHED) == "st."
    ensures AsText(LOGICAL_KEY) == "kokopop.tensor.logical_names"
    ensures AsText(PHYSICAL_KEY) == "kokopop.tensor.physical_names"
  {
    LogicalSpells();
    PhysicalSpells();
    hide AsText;
    AlignmentSpells();
  }

  lemma AlignmentSpells()
    ensures AsText(ALIGNMENT_KEY) == "general.alignment" && AsText(HASHED) == "st."
  {}

  lemma LogicalSpells()
    ensures AsText(LOGICAL_KEY) == "kokopop.tensor.logical_names"
  {}

  lemma PhysicalSpells()
    ensures AsText(PHYSICAL_KEY) == "kokopop.tensor.physical_names"
  {}

  /** A list of these texts, of type 8. */
  predicate IsTextList(v: Value, names: seq<Bytes>) {
    && v.List? && v.itemType == 8 && |v.items| == |names|
    && forall i {:trigger v.items[i]} :: 0 <= i < |names| ==> v.items[i] == Text(names[i])
  }

  function TextList(names: seq<Bytes>): (v: Value)
    ensures IsTextList(v, names)
  {
    List(T_STRING, seq(|names|, i requires 0 <= i < |names| => Text(names[i])))
  }

  function RealList(bits: seq<nat>): (v: Value)
    ensures v.List? && v.itemType == 6 && |v.items| == |bits|
    ensures forall i {:trigger v.items[i]} :: 0 <= i < |bits| ==> v.items[i] == Real(bits[i])
  {
    List(T_FLOAT32, seq(|bits|, i requires 0 <= i < |bits| => Real(bits[i])))
  }

  function NumberList(values: seq<int>): (v: Value)
    ensures v.List? && v.itemType == 4 && |v.items| == |values|
    ensures forall i {:trigger v.items[i]} :: 0 <= i < |values| ==> v.items[i] == Number(values[i])
  {
    List(T_UINT32, seq(|values|, i requires 0 <= i < |values| => Number(values[i])))
  }

  /** The pairs `write` adds at the end. */
  function OwnPairs(alignment: nat, logical: seq<Bytes>, physical: seq<Bytes>): seq<Entry> {
    [Entry(ALIGNMENT_KEY, T_UINT32, Number(alignment)),
     Entry(LOGICAL_KEY, T_ARRAY, TextList(logical)),
     Entry(PHYSICAL_KEY, T_ARRAY, TextList(physical))]
  }

  lemma LastWinsAppend(kv: seq<Entry>, e: Entry)
    ensures LastWins(kv + [e]) == LastWins(kv)[e.key := e.value]
  {
    assert (kv + [e])[..|kv|] == kv;
  }

  /** Whatever was added before, the file names the writer's own alignment. */
  lemma OwnAlignment(kv: seq<Entry>, alignment: nat, logical: seq<Bytes>, physical: seq<Bytes>)
    ensures AlignmentOf(LastWins(kv + OwnPairs(alignment, logical, physical))) == Ok(alignment)
  {
    hide LastWins;
    var pairs := OwnPairs(alignment, logical, physical);
    LastWinsAppend(kv, pairs[0]);
    LastWinsAppend(kv + [pairs[0]], pairs[1]);
    LastWinsAppend(kv + [pairs[0]] + [pairs[1]], pairs[2]);
    assert kv + pairs == kv + [pairs[0]] + [pairs[1]] + [pairs[2]];
    assert |ALIGNMENT_KEY| == 17 && |LOGICAL_KEY| == 28 && |PHYSICAL_KEY| == 29;
  }

  /** The writer's own pairs: its alignment, and the logical and the physical names. */
  ghost predicate OwnFound(kv: map<Bytes, Value>, alignment: nat, logical: seq<Bytes>, physical: seq<Bytes>) {
    && ALIGNMENT_KEY in kv && kv[ALIGNMENT_KEY] == Number(alignment)
    && LOGICAL_KEY in kv && IsTextList(kv[LOGICAL_KEY], logical)
    && PHYSICAL_KEY in kv && IsTextList(kv[PHYSICAL_KEY], physical)
  }

  /** The reader finds them, whatever was added before. */
  lemma OwnPairsFound(kv: seq<Entry>, alignment: nat, logical: seq<Bytes>, physical: seq<Bytes>)
    ensures OwnFound(LastWins(kv + OwnPairs(alignment, logical, physical)), alignment, logical, physical)
  {
    hide LastWins, IsTextList;
    var pairs := OwnPairs(alignment, logical, physical);
    LastWinsAppend(kv, pairs[0]);
    LastWinsAppend(kv + [pairs[0]], pairs[1]);
    LastWinsAppend(kv + [pairs[0]] + [pairs[1]], pairs[2]);
    assert kv + pairs == kv + [pairs[0]] + [pairs[1]] + [pairs[2]];
    assert |ALIGNMENT_KEY| == 17 && |LOGICAL_KEY| == 28 && |PHYSICAL_KEY| == 29;
  }

  /** The first 24 bytes: "GGUF", version 3, and the numbers of tensors and pairs. */
  ghost predicate Begins(data: Bytes, tensors: nat, pairs: nat) {
    && |data| >= 24 && AsText(data[..4]) == "GGUF" && FromLittleEndian(data[4..8]) == 3
    && FromLittleEndian(data[8..16]) == tensors && FromLittleEndian(data[16..24]) == pairs
  }

  lemma FileBegins(half: nat -> nat, kv: seq<Entry>, tensors: seq<Tensor>, alignment: nat, data: Bytes)
    requires alignment > 0 && FileBytes(half, kv, tensors, alignment) == Ok(data)
    ensures Begins(data, |tensors|, |kv|)
  {
    hide PackFront, Placed, Payload, AlignUp, Begins;
    var placed := Placed(tensors, alignment);
    var front := PackFront(kv, placed).value;
    assert data[..|front|] == front;
    assert Holds(data, 0, front);
    FrontBegins(data, kv, placed);
  }

  lemma FrontBegins(data: Bytes, kv: seq<Entry>, placed: seq<Tensor>)
    requires PackFront(kv, placed).Ok? && Holds(data, 0, PackFront(kv, placed).value)
    ensures Begins(data, |placed|, |kv|)
  {
    hide PackEntries, PackInfos, LittleEndian, FromLittleEndian, Pow256, Begins, Holds;
    var tensorCount, kvCount := PackUnsigned(|placed|, 8).value, PackUnsigned(|kv|, 8).value;
    var rest := PackEntries(kv).value + PackInfos(placed).value;
    var three := LittleEndian(3, 4);
    HoldsParts(data, 0, MAGIC, three + (tensorCount + (kvCount + rest)));
    HoldsParts(data, 4, three, tensorCount + (kvCount + rest));
    HoldsParts(data, 8, tensorCount, kvCount + rest);
    HoldsParts(data, 16, kvCount, rest);
    GgufRoundTrip.FourBytes();
    NumberAt(data, 4, 3, 4);
    NumberAt(data, 8, |placed|, 8);
    NumberAt(data, 16, |kv|, 8);
    BeginsWith(data, |placed|, |kv|);
  }

  lemma BeginsWith(data: Bytes, tensors: nat, pairs: nat)
    requires Holds(data, 0, MAGIC) && |data| >= 24 && FromLittleEndian(data[4..4 + 4]) == 3
    requires FromLittleEndian(data[8..8 + 8]) == tensors && FromLittleEndian(data[16..16 + 8]) == pairs
    ensures Begins(data, tensors, pairs)
  {
    hide FromLittleEndian;
    assert data[..4] == MAGIC;
    assert AsText(MAGIC) == "GGUF";
  }

  class GgufWriter {
    const alignment: int
    /** Rounding of a 32-bit float to 16 bits, the tests on element values, and the
        name hash are taken as given. */
    const half: nat -> nat
    const isFinite: nat -> bool
    const overflowsHalf: nat -> bool
    const hash: Bytes -> Bytes
    var kv: seq<Entry>
    var tensors: seq<Tensor>
    var logicalNames: seq<Bytes>
    var physicalNames: seq<Bytes>
    var used: set<Bytes>

    /** One name pair per tensor, in order; physical names are distinct. */
    ghost predicate Valid()
      reads this
    {
      && |logicalNames| == |physicalNames| == |tensors|
      && used == (set n | n in physicalNames)
      && (forall i, j :: 0 <= i < j < |physicalNames| ==> physicalNames[i] != physicalNames[j])
      && (forall i :: 0 <= i < |tensors| ==> tensors[i].name == physicalNames[i])
      && (forall i :: 0 <= i < |tensors| ==> tensors[i].data != [])
    }

    constructor (alignment: int, half: nat -> nat, isFinite: nat -> bool, overflowsHalf: nat -> bool,
                 hash: Bytes -> Bytes)
      ensures Valid() && kv == [] && tensors == [] && this.alignment == alignment && this.half == half
    {
      this.alignment, this.half, this.isFinite, this.overflowsHalf, this.hash :=
        alignment, half, isFinite, overflowsHalf, hash;
      kv, tensors, logicalNames, physicalNames, used := [], [], [], [], {};
    }

    // ----- Metadata -------------------------------------------------------------------

    method AddU32(key: Bytes, value: int) returns (error: Option<Error>)
      modifies this`kv
      ensures error.None? <==> 0 <= value <= 0xFFFF_FFFF
      ensures kv == if error.None? then old(kv) + [Entry(key, T_UINT32, Number(value))] else old(kv)
    {
      if !(0 <= value < U32_LIMIT) {
        return Some(Refused("does not fit in u32"));
      }
      kv := kv + [Entry(key, T_UINT32, Number(value))];
      return None;
    }

    /** Values whose range is checked only when they are packed. */
    method Add(key: Bytes, vtype: nat, value: Value)
      requires vtype == T_INT32 || vtype == T_FLOAT32 || vtype == T_BOOL || vtype == T_STRING
      modifies this`kv
      ensures kv == old(kv) + [Entry(key, vtype, value)]
    {
      kv := kv + [Entry(key, vtype, value)];
    }

    method AddStringArray(key: Bytes, values: seq<Bytes>)
      modifies this`kv
      ensures kv == old(kv) + [Entry(key, T_ARRAY, TextList(values))]
    {
      kv := kv + [Entry(key, T_ARRAY, TextList(values))];
    }

    method AddF32Array(key: Bytes, values: seq<nat>) returns (error: Option<Error>)
      modifies this`kv
      ensures error.None? <==> forall i :: 0 <= i < |values| ==> isFinite(values[i])
      ensures kv == if error.None? then
                      old(kv) + [Entry(key, T_ARRAY, RealList(values))]
                    else old(kv)
    {
      for i := 0 to |values|
        invariant forall j :: 0 <= j < i ==> isFinite(values[j])
      {
        if !isFinite(values[i]) {
          return Some(Refused("not finite"));
        }
      }
      kv := kv + [Entry(key, T_ARRAY, RealList(values))];
      return None;
    }

    method AddU32Array(key: Bytes, values: seq<int>) returns (error: Option<Error>)
      modifies this`kv
      ensures error.None? <==> forall i :: 0 <= i < |values| ==> 0 <= values[i] <= 0xFFFF_FFFF
      ensures kv == if error.None? then
                      old(kv) + [Entry(key, T_ARRAY, NumberList(values))]
                    else old(kv)
    {
      for i := 0 to |values|
        invariant forall j :: 0 <= j < i ==> 0 <= values[j] < U32_LIMIT
      {
        if !(0 <= values[i] < U32_LIMIT) {
          return Some(Refused("does not fit in u32"));
        }
      }
      kv := kv + [Entry(key, T_ARRAY, NumberList(values))];
      return None;
    }

    // ----- Tensors ----------------------------------------------------------------------

    /** A name for the file: the logical one if it is short and free, else its hash. */
    method PhysicalName(logical: Bytes) returns (r: Result<Bytes, Error>)
      modifies this`used, this`logicalNames, this`physicalNames
      ensures r.Ok? ==> r.value !in old(used) && used == old(used) + {r.value}
      ensures r.Ok? ==> logicalNames == old(logicalNames) + [logical] && physicalNames == old(physicalNames) + [r.value]
      ensures r.Ok? ==> r.value == if |logical| < 64 && logical !in old(used) then logical else HASHED + hash(logical)
      ensures r.Err? <==> !(|logical| < 64 && logical !in old(used)) && HASHED + hash(logical) in old(used)
      ensures r.Err? ==> used == old(used) && logicalNames == old(logicalNames) && physicalNames == old(physicalNames)
    {
      var physical := logical;
      if !(|logical| < 64 && logical !in used) {
        physical := HASHED + hash(logical);
        if physical in used {
          return Err(Refused("tensor name hash collision"));
        }
      }
      used := used + {physical};
      logicalNames := logicalNames + [logical];
      physicalNames := physicalNames + [physical];
      return Ok(physical);
    }

    method AddTensor(logical: Bytes, shape: seq<nat>, data: seq<nat>, ggmlType: nat) returns (error: Option<Error>)
      requires Valid()
      modifies this`tensors, this`used, this`logicalNames, this`physicalNames
      ensures Valid()
      ensures error.None? ==> |tensors| == |old(tensors)| + 1 && tensors[..|old(tensors)|] == old(tensors)
      ensures error.None? ==> var t := tensors[|old(tensors)|];
                t.shape == shape && t.data == data && t.ggmlType == ggmlType
                && logicalNames == old(logicalNames) + [logical]
      ensures error.Some? ==> tensors == old(tensors) && logicalNames == old(logicalNames)
      ensures error.None? <==>
                && data != []
                && (forall i :: 0 <= i < |data| ==> isFinite(data[i]))
                && (ggmlType == GGML_F16 ==> forall i :: 0 <= i < |data| ==> !overflowsHalf(data[i]))
                && ((|logical| < 64 && logical !in old(used)) || HASHED + hash(logical) !in old(used))
    {
      if data == [] {
        return Some(Refused("empty tensor"));
      }
      for i := 0 to |data|
        invariant forall j :: 0 <= j < i ==> isFinite(data[j])
      {
        if !isFinite(data[i]) {
          return Some(Refused("contains NaN or infinity"));
        }
      }
      if ggmlType == GGML_F16 {
        for i := 0 to |data|
          invariant forall j :: 0 <= j < i ==> !overflowsHalf(data[j])
        {
          if overflowsHalf(data[i]) {
            return Some(Refused("peak magnitude overflows F16"));
          }
        }
      }
      var physical := PhysicalName(logical);
      if physical.Err? {
        return Some(physical.error);
      }
      tensors := tensors + [Tensor(physical.value, shape, data, ggmlType, 0)];
      assert physicalNames == old(physicalNames) + [physical.value];
      return None;
    }

    // ----- Serialisation -----------------------------------------------------------------

    /** All pairs, packed one after another. */
    method KvBytes() returns (r: Result<Bytes, Error>)
      ensures r == PackEntries(kv)
    {
      hide PackEntry;
      var out: Bytes := [];
      for i := 0 to |kv|
        invariant PackEntries(kv[..i]) == Ok(out)
      {
        assert kv[..i + 1][..i] == kv[..i];
        var e := PackEntry(kv[i]);
        if e.Err? {
          EntriesFail(kv, i + 1);
          return Err(e.error);
        }
        out := out + e.value;
      }
      assert kv[..|kv|] == kv;
      return Ok(out);
    }

    static lemma {:induction false} EntriesFail(kv: seq<Entry>, i: nat)
      requires i <= |kv| && PackEntries(kv[..i]).Err?
      ensures PackEntries(kv) == PackEntries(kv[..i])
      decreases |kv| - i
    {
      if i < |kv| {
        assert kv[..i + 1][..i] == kv[..i];
        EntriesFail(kv, i + 1);
      } else {
        assert kv[..i] == kv;
      }
    }

    static lemma {:induction false} InfosFail(ts: seq<Tensor>, i: nat)
      requires i <= |ts| && PackInfos(ts[..i]).Err?
      ensures PackInfos(ts) == PackInfos(ts[..i])
      decreases |ts| - i
    {
      if i < |ts| {
        assert ts[..i + 1][..i] == ts[..i];
        InfosFail(ts, i + 1);
      } else {
        assert ts[..i] == ts;
      }
    }

    /** Assigns every tensor its offset and describes it. */
    method TensorInfoBytes() returns (r: Result<Bytes, Error>)
      requires alignment > 0
      modifies this`tensors
      ensures |tensors| == |old(tensors)|
      ensures r == PackInfos(Placed(old(tensors), alignment))
      ensures r.Ok? ==> tensors == Placed(old(tensors), alignment)
    {
      hide PackInfo, EndOf, NextOffset, Tensor.NBytes, AlignUp;
      ghost var before := tensors;
      ghost var placed := Placed(before, alignment);
      var out: Bytes := [];
      var offset := 0;
      EndOfNone(alignment);
      for i := 0 to |tensors|
        invariant |tensors| == |before|
        invariant forall j {:trigger tensors[j]} :: 0 <= j < |tensors| ==>
                    tensors[j] == if j < i then placed[j] else before[j]
        invariant offset == EndOf(before[..i], alignment)
        invariant PackInfos(placed[..i]) == Ok(out)
      {
        PlacedAt(before, alignment, i);
        offset := AlignUpNat(offset, alignment);
        NextOffsetIs(before[..i], alignment);
        tensors := tensors[i := tensors[i].(offset := offset)];
        assert placed[..i + 1][..i] == placed[..i];
        var info := PackInfo(tensors[i]);
        if info.Err? {
          InfosFail(placed, i + 1);
          return Err(info.error);
        }
        out := out + info.value;
        OffsetStep(before, alignment, i);
        OffsetKeepsBytes(before[i], offset);
        offset := offset + tensors[i].NBytes();
      }
      assert placed[..|placed|] == placed;
      assert tensors == placed;
      return Ok(out);
    }

    static lemma EndOfNone(alignment: nat)
      requires alignment > 0
      ensures EndOf([], alignment) == 0
    {}

    static lemma NextOffsetIs(ts: seq<Tensor>, alignment: nat)
      requires alignment > 0
      ensures NextOffset(ts, alignment) == AlignUp(EndOf(ts, alignment), alignment)
    {}

    static function AlignUpNat(value: nat, alignment: nat): (r: nat)
      requires alignment > 0
      ensures r == AlignUp(value, alignment)
    {
      AlignUpBounds(value, alignment);
      AlignUp(value, alignment)
    }

    /** The data section behind the front of the file. */
    method DataBytes(lead: Bytes, placed: seq<Tensor>, ghost before: seq<Tensor>) returns (blob: Bytes)
      requires alignment > 0 && placed == Placed(before, alignment)
      ensures blob == lead + Payload(half, before, alignment)
    {
      hide EndOf, NextOffset, Encoded, Placed, AlignUp;
      hide Tensor.NBytes;
      var start := |lead|;
      blob := lead;
      assert lead + [] == lead;
      for i := 0 to |placed|
        invariant blob == lead + Payload(half, before[..i], alignment)
      {
        var t := placed[i];
        PlacedAt(before, alignment, i);
        SameEncoding(half, before[i], t.offset);
        PayloadNext(half, before, alignment, i);
        var want := start + t.offset;
        if |blob| < want {
          blob := blob + Zeros(want - |blob|);
        }
        blob := blob + Encoded(half, t);
      }
      assert before[..|before|] == before;
    }

    static lemma SameEncoding(half: nat -> nat, t: Tensor, offset: nat)
      ensures Encoded(half, t.(offset := offset)) == Encoded(half, t)
    {}

    static lemma PayloadNext(half: nat -> nat, ts: seq<Tensor>, alignment: nat, i: nat)
      requires alignment > 0 && i < |ts|
      ensures |Payload(half, ts[..i], alignment)| <= NextOffset(ts[..i], alignment)
      ensures Payload(half, ts[..i + 1], alignment)
           == Payload(half, ts[..i], alignment)
              + Zeros(NextOffset(ts[..i], alignment) - |Payload(half, ts[..i], alignment)|)
              + Encoded(half, ts[i])
    {
      hide NextOffset, EndOf, Encoded;
      var longer := ts[..i + 1];
      assert longer[..|longer| - 1] == ts[..i] && longer[|longer| - 1] == ts[i];
    }

    /** Adds the writer's own pairs and emits the file. Whatever it emits, the reader
        reads back. */
    method Write() returns (r: Result<Bytes, Error>)
      requires Valid()
      modifies this`kv, this`tensors
      ensures r.Ok? ==> 0 < alignment < U32_LIMIT
      ensures r.Ok? ==> kv == old(kv) + OwnPairs(alignment, logicalNames, physicalNames)
      ensures r.Ok? ==> tensors == Placed(old(tensors), alignment)
      ensures 0 < alignment < U32_LIMIT ==>
                r == FileBytes(half, old(kv) + OwnPairs(alignment, logicalNames, physicalNames),
                               old(tensors), alignment)
      ensures r.Ok? ==>
                && ReadFile(r.value).Ok?
                && var f := ReadFile(r.value).value;
                   && f.version == 3 && f.kv == LastWins(kv) && f.dataStart >= 0 && |f.tensors| == |old(tensors)|
                   && forall i :: 0 <= i < |f.tensors| ==>
                        TensorAgrees(half, old(tensors)[i], f.tensors[i], r.value, f.dataStart, alignment)
      ensures r.Ok? ==> forall i, j :: 0 <= i < j < |old(tensors)| ==> old(tensors)[i].name != old(tensors)[j].name
      ensures r.Ok? ==> Begins(r.value, |old(tensors)|, |old(kv)| + 3)
      ensures r.Ok? ==> OwnFound(LastWins(kv), alignment, logicalNames, physicalNames)
    {
      hide Begins, OwnFound;
      hide ReadFile, LastWins, Placed, TensorAgrees, PackEntries, FileBytes, PackUnsigned;
      ghost var before := tensors;
      var fits := AddU32(ALIGNMENT_KEY, alignment);
      if fits.Some? {
        return Err(fits.value);
      }
      AddStringArray(LOGICAL_KEY, logicalNames);
      AddStringArray(PHYSICAL_KEY, physicalNames);
      ghost var all := old(kv) + OwnPairs(alignment, logicalNames, physicalNames);
      assert kv == all;
      if alignment == 0 {
        var tensorCount := PackUnsigned(|tensors|, 8);
        var kvCount := PackUnsigned(|kv|, 8);
        var entries := KvBytes();
        return Err(if tensorCount.Err? then tensorCount.error else if kvCount.Err? then kvCount.error
                   else if entries.Err? then entries.error else ZeroAlignment);
      }
      r := FileOf();
      if r.Ok? {
        OwnAlignment(old(kv), alignment, logicalNames, physicalNames);
        WriteThenRead(half, all, before, alignment, r.value);
        FileBegins(half, all, before, alignment, r.value);
        OwnPairsFound(old(kv), alignment, logicalNames, physicalNames);
      }
    }

    /** Everything collected, laid out. */
    method FileOf() returns (r: Result<Bytes, Error>)
      requires alignment > 0
      modifies this`tensors
      ensures r == FileBytes(half, kv, old(tensors), alignment)
      ensures r.Ok? ==> tensors == Placed(old(tensors), alignment)
    {
      hide Placed, Payload, PackEntries, PackInfos, FileBytes, PackUnsigned, LeadOf;
      ghost var before := tensors;
      var tensorCount := PackUnsigned(|tensors|, 8);
      var kvCount := PackUnsigned(|kv|, 8);
      var entries := KvBytes();
      var infos := TensorInfoBytes();
      FileOfParts(half, kv, before, alignment);
      if tensorCount.Err? { return Err(tensorCount.error); }
      if kvCount.Err? { return Err(kvCount.error); }
      if entries.Err? { return Err(entries.error); }
      if infos.Err? { return Err(infos.error); }
      var lead := LeadOf(tensorCount.value, kvCount.value, entries.value, infos.value, alignment);
      var blob := DataBytes(lead, tensors, before);
      return Ok(blob);
    }

    /** The file put together from its parts, or the first error among them. */
    static lemma FileOfParts(half: nat -> nat, kv: seq<Entry>, tensors: seq<Tensor>, alignment: nat)
      requires alignment > 0
      ensures var placed := Placed(tensors, alignment);
              var tensorCount, kvCount := PackUnsigned(|tensors|, 8), PackUnsigned(|kv|, 8);
              var entries, infos := PackEntries(kv), PackInfos(placed);
              FileBytes(half, kv, tensors, alignment) ==
                if tensorCount.Err? then Err(tensorCount.error)
                else if kvCount.Err? then Err(kvCount.error)
                else if entries.Err? then Err(entries.error)
                else if infos.Err? then Err(infos.error)
                else Ok(LeadOf(tensorCount.value, kvCount.value, entries.value, infos.value, alignment)
                        + Payload(half, tensors, alignment))
    {
      hide PackUnsigned, PackEntries, PackInfos, Payload, LittleEndian, Placed, AlignUp;
    }
  }

  /** Everything before the data section. */
  function LeadOf(tensorCount: Bytes, kvCount: Bytes, entries: Bytes, infos: Bytes, alignment: nat): Bytes
    requires alignment > 0
  {
    var front := MAGIC + (LittleEndian(3, 4) + (tensorCount + (kvCount + (entries + infos))));
    AlignUpBounds(|front|, alignment);
    front + Zeros(AlignUp(|front|, alignment) - |front|)
  }
}

/** Reading a written file gives back what was written. */
module GgufRoundTrip {
  import opened Wrappers
  import opened Arith
  import opened ByteCodec
  import opened GgufValue
  import opened GgufLayout

  // ----- Values -----------------------------------------------------------------------

  lemma FourBytes()
    ensures Pow256(4) == 0x1_0000_0000
  {
    assert Pow256(1) == 256;
    assert Pow256(2) == 0x1_0000;
    assert Pow256(3) == 0x100_0000;
  }

  lemma {:induction false} EncodeItemsAppend(items: seq<Value>, last: Value, itemType: nat)
    requires forall i :: 0 <= i < |items| ==> HasType(items[i], itemType)
    requires HasType(last, itemType)
    ensures forall i :: 0 <= i < |items + [last]| ==> HasType((items + [last])[i], itemType)
    ensures EncodeItems(items + [last], itemType) == EncodeItems(items, itemType) + EncodeValue(last, itemType)
  {
    hide HasType, EncodeValue;
    if items == [] {
      assert [last][1..] == [];
      assert EncodeValue(last, itemType) + [] == EncodeValue(last, itemType);
      assert [] + [last] == [last];
    } else {
      EncodeItemsAppend(items[1..], last, itemType);
      assert (items + [last])[1..] == items[1..] + [last];
    }
  }

  lemma ItemIsEncoded(itemType: nat, v: Value)
    requires PackItem(itemType, v).Ok?
    ensures HasType(v, itemType) && EncodeValue(v, itemType) == PackItem(itemType, v).value
  {
    hide LittleEndian, Pow256;
  }

  lemma {:induction false} ItemsAreEncoded(itemType: nat, items: seq<Value>)
    requires PackItems(itemType, items).Ok?
    ensures forall i :: 0 <= i < |items| ==> HasType(items[i], itemType)
    ensures EncodeItems(items, itemType) == PackItems(itemType, items).value
    decreases |items|
  {
    hide HasType, EncodeValue, PackItem;
    if items != [] {
      var front, last := items[..|items| - 1], items[|items| - 1];
      ItemsAreEncoded(itemType, front);
      ItemIsEncoded(itemType, last);
      EncodeItemsAppend(front, last, itemType);
      assert front + [last] == items;
    }
  }

  /** What the writer emits for a value is that value's encoding. */
  lemma ValueIsEncoded(vtype: nat, v: Value)
    requires PackValue(vtype, v).Ok?
    ensures HasType(v, vtype) && EncodeValue(v, vtype) == PackValue(vtype, v).value
  {
    hide LittleEndian, Pow256, PackItems, EncodeItems;
    FourBytes();
    if vtype == T_ARRAY {
      ItemsAreEncoded(v.itemType, v.items);
    }
  }

  // ----- Entries ------------------------------------------------------------------------

  lemma StringIsRead(data: Bytes, pos: nat, s: Bytes)
    requires PackString(s).Ok? && Holds(data, pos, PackString(s).value)
    ensures ReadString(data, pos) == Ok(Read(s, pos + |PackString(s).value|))
  {
    hide LittleEndian, Pow256, ReadString;
    StringBack(data, pos, s);
  }

  lemma NumberIsRead(data: Bytes, pos: nat, n: nat, size: nat)
    requires PackUnsigned(n, size).Ok? && Holds(data, pos, PackUnsigned(n, size).value)
    ensures ReadNumber(data, pos, size) == Ok(Read(n, pos + size)) && |PackUnsigned(n, size).value| == size
  {
    hide LittleEndian, Pow256, ReadNumber;
    NumberBack(data, pos, n, size);
  }

  lemma EntryBack(data: Bytes, pos: nat, e: Entry)
    requires PackEntry(e).Ok? && Holds(data, pos, PackEntry(e).value)
    ensures ReadEntry(data, pos) == Ok(Read(e, pos + |PackEntry(e).value|))
  {
    hide PackString, PackUnsigned, PackValue, ReadString, ReadNumber, ReadValue, EncodeValue, HasType, Holds;
    var key, tag, value := PackString(e.key).value, PackUnsigned(e.vtype, 4).value, PackValue(e.vtype, e.value).value;
    HoldsParts(data, pos, key, tag + value);
    HoldsParts(data, pos + |key|, tag, value);
    StringIsRead(data, pos, e.key);
    NumberIsRead(data, pos + |key|, e.vtype, 4);
    ValueIsEncoded(e.vtype, e.value);
    ValueBack(data, pos + |key| + 4, e.value, e.vtype);
  }

  lemma {:induction false} EntriesBack(data: Bytes, pos: nat, kv: seq<Entry>)
    requires pos <= |data|
    requires PackEntries(kv).Ok? && Holds(data, pos, PackEntries(kv).value)
    ensures ReadEntries(data, pos, |kv|) == Ok(Read(kv, pos + |PackEntries(kv).value|))
    decreases |kv|
  {
    hide PackEntry, ReadEntry, Holds;
    if kv != [] {
      var front, last := kv[..|kv| - 1], kv[|kv| - 1];
      HoldsParts(data, pos, PackEntries(front).value, PackEntry(last).value);
      EntriesBack(data, pos, front);
      EntryBack(data, pos + |PackEntries(front).value|, last);
      assert kv == front + [last];
    }
  }

  // ----- Tensor descriptions -----------------------------------------------------------

  lemma {:induction false} DimsBack(data: Bytes, pos: nat, dims: seq<nat>)
    requires pos <= |data|
    requires PackDims(dims).Ok? && Holds(data, pos, PackDims(dims).value)
    ensures ReadDims(data, pos, |dims|) == Ok(Read(dims, pos + |PackDims(dims).value|))
    decreases |dims|
  {
    hide PackUnsigned, ReadNumber, Holds;
    if dims != [] {
      var front, last := dims[..|dims| - 1], dims[|dims| - 1];
      HoldsParts(data, pos, PackDims(front).value, PackUnsigned(last, 8).value);
      DimsBack(data, pos, front);
      NumberIsRead(data, pos + |PackDims(front).value|, last, 8);
      assert dims == front + [last];
    }
  }

  function InfoOf(t: Tensor): Info {
    Info(t.name, t.Dims(), t.ggmlType, t.offset)
  }

  function InfosOf(ts: seq<Tensor>): (infos: seq<Info>)
    ensures |infos| == |ts|
    ensures forall i {:trigger infos[i]} :: 0 <= i < |ts| ==> infos[i] == InfoOf(ts[i])
  {
    seq(|ts|, i requires 0 <= i < |ts| => InfoOf(ts[i]))
  }

  lemma InfoBack(data: Bytes, pos: nat, t: Tensor)
    requires PackInfo(t).Ok? && Holds(data, pos, PackInfo(t).value)
    ensures ReadInfo(data, pos) == Ok(Read(InfoOf(t), pos + |PackInfo(t).value|))
  {
    hide PackString, PackUnsigned, PackDims, ReadString, ReadNumber, ReadDims, Holds;
    var name, count, dims := PackString(t.name).value, PackUnsigned(|t.Dims()|, 4).value, PackDims(t.Dims()).value;
    var tag, offset := PackUnsigned(t.ggmlType, 4).value, PackUnsigned(t.offset, 8).value;
    HoldsParts(data, pos, name, count + (dims + (tag + offset)));
    var p := pos + |name|;
    StringIsRead(data, pos, t.name);
    HoldsParts(data, p, count, dims + (tag + offset));
    NumberIsRead(data, p, |t.Dims()|, 4);
    HoldsParts(data, p + 4, dims, tag + offset);
    HoldsInside(data, p + 4, dims);
    DimsBack(data, p + 4, t.Dims());
    HoldsParts(data, p + 4 + |dims|, tag, offset);
    NumberIsRead(data, p + 4 + |dims|, t.ggmlType, 4);
    NumberIsRead(data, p + 8 + |dims|, t.offset, 8);
  }

  lemma HoldsInside(data: Bytes, pos: nat, bytes: Bytes)
    requires Holds(data, pos, bytes)
    ensures pos + |bytes| <= |data|
  {}

  lemma {:induction false} InfosBack(data: Bytes, pos: nat, ts: seq<Tensor>)
    requires pos <= |data|
    requires PackInfos(ts).Ok? && Holds(data, pos, PackInfos(ts).value)
    ensures ReadInfos(data, pos, |ts|) == Ok(Read(InfosOf(ts), pos + |PackInfos(ts).value|))
    decreases |ts|
  {
    hide PackInfo, ReadInfo, Holds, InfoOf;
    if ts != [] {
      var front, last := ts[..|ts| - 1], ts[|ts| - 1];
      HoldsParts(data, pos, PackInfos(front).value, PackInfo(last).value);
      InfosBack(data, pos, front);
      InfoBack(data, pos + |PackInfos(front).value|, last);
      assert InfosOf(ts) == InfosOf(front) + [InfoOf(last)];
    }
  }

  // ----- The whole file --------------------------------------------------------------------

  lemma FrontBack(data: Bytes, kv: seq<Entry>, placed: seq<Tensor>, alignment: int)
    requires alignment != 0 && AlignmentOf(LastWins(kv)) == Ok(alignment)
    requires PackFront(kv, placed).Ok? && Holds(data, 0, PackFront(kv, placed).value)
    ensures ReadFile(data)
         == Ok(GgufFile(3, LastWins(kv), InfosOf(placed), AlignUp(|PackFront(kv, placed).value|, alignment)))
  {
    hide PackUnsigned, PackEntries, PackInfos, ReadNumber, ReadEntries, ReadInfos, Holds, LittleEndian,
         AlignmentOf, LastWins, InfosOf, AlignUp;
    var three, tensorCount, kvCount :=
      LittleEndian(3, 4), PackUnsigned(|placed|, 8).value, PackUnsigned(|kv|, 8).value;
    var entries, infos := PackEntries(kv).value, PackInfos(placed).value;
    HoldsParts(data, 0, MAGIC, three + (tensorCount + (kvCount + (entries + infos))));
    MagicRead(data);
    HoldsParts(data, 4, three, tensorCount + (kvCount + (entries + infos)));
    FourBytes();
    NumberBack(data, 4, 3, 4);
    HoldsParts(data, 8, tensorCount, kvCount + (entries + infos));
    NumberIsRead(data, 8, |placed|, 8);
    HoldsParts(data, 16, kvCount, entries + infos);
    NumberIsRead(data, 16, |kv|, 8);
    HoldsParts(data, 24, entries, infos);
    HoldsInside(data, 24, entries);
    EntriesBack(data, 24, kv);
    InfosBack(data, 24 + |entries|, placed);
    HoldsInside(data, 24 + |entries|, infos);
  }

  lemma MagicRead(data: Bytes)
    requires Holds(data, 0, MAGIC)
    ensures |data| >= 4 && ReadBytes(data, 0, 4) == Ok(Read(MAGIC, 4))
  {}

  /** Reading a written file returns the same pairs, the same tensor names, dimensions,
      types and offsets, and the data start the writer used. */
  lemma FileRoundTrip(half: nat -> nat, kv: seq<Entry>, tensors: seq<Tensor>, alignment: nat)
    requires alignment > 0 && AlignmentOf(LastWins(kv)) == Ok(alignment)
    requires FileBytes(half, kv, tensors, alignment).Ok?
    ensures ReadFile(FileBytes(half, kv, tensors, alignment).value)
         == Ok(GgufFile(3, LastWins(kv), InfosOf(Placed(tensors, alignment)),
                        DataStart(kv, tensors, alignment)))
  {
    hide PackFront, ReadFile, LastWins, InfosOf, Payload, AlignUp, Placed;
    var placed := Placed(tensors, alignment);
    var front := PackFront(kv, placed).value;
    var data := FileBytes(half, kv, tensors, alignment).value;
    assert data[..|front|] == front;
    FrontBack(data, kv, placed, alignment);
  }

  /** Where the data section of a written file starts. */
  function DataStart(kv: seq<Entry>, tensors: seq<Tensor>, alignment: nat): (start: int)
    requires alignment > 0 && PackFront(kv, Placed(tensors, alignment)).Ok?
    ensures start >= 0
  {
    var front := PackFront(kv, Placed(tensors, alignment)).value;
    AlignUpBounds(|front|, alignment);
    AlignUp(|front|, alignment)
  }

  // ----- Where the tensors are ---------------------------------------------------------------

  lemma {:induction false} PlacedAt(tensors: seq<Tensor>, alignment: nat, i: nat)
    requires alignment > 0 && i < |tensors|
    ensures Placed(tensors, alignment)[i] == tensors[i].(offset := NextOffset(tensors[..i], alignment))
    decreases |tensors|
  {
    hide NextOffset;
    if i < |tensors| - 1 {
      PlacedAt(tensors[..|tensors| - 1], alignment, i);
      assert tensors[..|tensors| - 1][..i] == tensors[..i];
    }
  }

  lemma {:induction false} PayloadAt(half: nat -> nat, tensors: seq<Tensor>, alignment: nat, i: nat,
                                     payload: Bytes, offset: nat, bytes: Bytes)
    requires alignment > 0 && i < |tensors|
    requires payload == Payload(half, tensors, alignment)
    requires offset == NextOffset(tensors[..i], alignment) && bytes == Encoded(half, tensors[i])
    ensures Holds(payload, offset, bytes)
    decreases |tensors|
  {
    hide NextOffset, EndOf, Encoded, Payload, Holds;
    var front := tensors[..|tensors| - 1];
    var before := Payload(half, front, alignment);
    PayloadStep(half, tensors, alignment);
    if i < |front| {
      assert front[..i] == tensors[..i];
      PayloadAt(half, front, alignment, i, before, offset, bytes);
      HoldsLonger(before, payload, offset, bytes);
    } else {
      assert front == tensors[..i];
      HoldsLast(payload, offset, bytes);
    }
  }

  lemma PayloadStep(half: nat -> nat, tensors: seq<Tensor>, alignment: nat)
    requires alignment > 0 && tensors != []
    ensures var front, last := tensors[..|tensors| - 1], Encoded(half, tensors[|tensors| - 1]);
            var payload := Payload(half, tensors, alignment);
            && Payload(half, front, alignment) <= payload
            && |payload| == NextOffset(front, alignment) + |last|
            && payload[NextOffset(front, alignment)..] == last
  {
    hide NextOffset, Encoded, EndOf;
    var front, last := tensors[..|tensors| - 1], Encoded(half, tensors[|tensors| - 1]);
    var lead := Payload(half, front, alignment) + Zeros(NextOffset(front, alignment) - EndOf(front, alignment));
    assert Payload(half, tensors, alignment) == lead + last;
  }

  lemma HoldsLast(payload: Bytes, offset: nat, bytes: Bytes)
    requires offset <= |payload| && payload[offset..] == bytes
    ensures Holds(payload, offset, bytes)
  {
    assert payload[offset..offset + |bytes|] == payload[offset..];
  }

  lemma HoldsLonger(a: Bytes, b: Bytes, pos: nat, bytes: Bytes)
    requires Holds(a, pos, bytes) && a <= b
    ensures Holds(b, pos, bytes)
  {
    assert b[pos..pos + |bytes|] == a[pos..pos + |bytes|];
  }

  /** A file is something as long as the data start, then the data section. */
  lemma Lead(half: nat -> nat, kv: seq<Entry>, tensors: seq<Tensor>, alignment: nat) returns (lead: Bytes)
    requires alignment > 0 && FileBytes(half, kv, tensors, alignment).Ok?
    ensures PackFront(kv, Placed(tensors, alignment)).Ok?
    ensures FileBytes(half, kv, tensors, alignment).value == lead + Payload(half, tensors, alignment)
    ensures |lead| == DataStart(kv, tensors, alignment)
  {
    hide PackFront, Payload, AlignUp, Placed;
    var front := PackFront(kv, Placed(tensors, alignment)).value;
    AlignUpBounds(|front|, alignment);
    lead := front + Zeros(AlignUp(|front|, alignment) - |front|);
  }

  lemma HoldsAfter(lead: Bytes, data: Bytes, pos: nat, bytes: Bytes)
    requires Holds(data, pos, bytes)
    ensures Holds(lead + data, |lead| + pos, bytes)
  {
    assert (lead + data)[|lead| + pos..|lead| + pos + |bytes|] == data[pos..pos + |bytes|];
  }

  lemma {:induction false} EndGrows(tensors: seq<Tensor>, alignment: nat, i: nat)
    requires alignment > 0 && i <= |tensors|
    ensures EndOf(tensors[..i], alignment) <= EndOf(tensors, alignment)
    decreases |tensors|
  {
    if i < |tensors| {
      EndGrows(tensors[..|tensors| - 1], alignment, i);
      assert tensors[..|tensors| - 1][..i] == tensors[..i];
    } else {
      assert tensors[..i] == tensors;
    }
  }

  /** Offsets are aligned and the tensors' ranges are disjoint, in order, and inside
      the data section. */
  lemma TensorRanges(tensors: seq<Tensor>, alignment: nat, i: nat, j: nat)
    requires alignment > 0 && i < |tensors|
    ensures var ts := Placed(tensors, alignment);
            && ts[i].offset % alignment == 0
            && ts[i].offset + ts[i].NBytes() <= EndOf(tensors, alignment)
            && (i < j < |tensors| ==> ts[i].offset + ts[i].NBytes() <= ts[j].offset)
  {
    hide NextOffset, EndOf, Placed, AlignUp;
    hide Tensor.NBytes;
    PlacedAt(tensors, alignment, i);
    OffsetKeepsBytes(tensors[i], NextOffset(tensors[..i], alignment));
    OffsetStep(tensors, alignment, i);
    EndGrows(tensors, alignment, i + 1);
    if i < j < |tensors| {
      PlacedAt(tensors, alignment, j);
      EndGrows(tensors[..j], alignment, i + 1);
      assert tensors[..j][..i + 1] == tensors[..i + 1];
    }
  }

  lemma OffsetKeepsBytes(t: Tensor, offset: nat)
    ensures t.(offset := offset).NBytes() == t.NBytes()
  {}

  lemma OffsetStep(tensors: seq<Tensor>, alignment: nat, i: nat)
    requires alignment > 0 && i < |tensors|
    ensures NextOffset(tensors[..i], alignment) % alignment == 0
    ensures EndOf(tensors[..i + 1], alignment) == NextOffset(tensors[..i], alignment) + tensors[i].NBytes()
  {
    AlignUpBounds(EndOf(tensors[..i], alignment), alignment);
    hide AlignUp, Tensor.NBytes;
    var longer := tensors[..i + 1];
    assert longer[..|longer| - 1] == tensors[..i] && longer[|longer| - 1] == tensors[i];
  }

  // ----- Sizes ------------------------------------------------------------------------------

  lemma {:induction false} ProductOfAppend(s: seq<nat>, x: nat)
    ensures Product(s + [x]) == Product(s) * x
  {
    if s == [] {
      assert [] + [x] == [x];
      assert [x][1..] == [];
    } else {
      ProductOfAppend(s[1..], x);
      assert (s + [x])[1..] == s[1..] + [x];
      assert s[0] * (Product(s[1..]) * x) == (s[0] * Product(s[1..])) * x;
    }
  }

  lemma {:induction false} ProductOfReverse(s: seq<nat>)
    ensures Product(ReverseSeq(s)) == Product(s)
  {
    if s != [] {
      ProductOfReverse(s[1..]);
      ProductOfAppend(ReverseSeq(s[1..]), s[0]);
    }
  }

  /** A matrix has as many elements as rows times columns, and so on. */
  lemma ProductOfShapes(a: nat, b: nat, c: nat)
    ensures Product([]) == 1 && Product([a]) == a && Product([a, b]) == a * b && Product([a, b, c]) == a * b * c
  {
    TwoFactors(a, b);
    TwoFactors(b, c);
    assert [a, b, c][1..] == [b, c];
    assert a * (b * c) == a * b * c;
  }

  lemma TwoFactors(a: nat, b: nat)
    ensures Product([]) == 1 && Product([a]) == a && Product([a, b]) == a * b
  {
    assert [a][1..] == [] && [a, b][1..] == [b] && [b][1..] == [];
    assert Product([b]) == b;
  }

  /** A tensor of k whole blocks takes k times the bytes of a block. */
  lemma BlocksCounted(info: Info, block: nat, size: nat, k: nat)
    requires TypeInfo(info.ggmlType) == Some((block, size)) && block > 0 && Product(info.dims) == k * block
    ensures SizeOf(info) == Some(k * size)
  {
    hide Product;
    DivUnique(k * block, block, k, 0);
  }

  /** The reader computes each tensor's size from its dimensions and type. */
  lemma SizeRead(t: Tensor)
    requires Product(t.shape) == |t.data|
    requires t.ggmlType == GGML_F32 || t.ggmlType == GGML_F16
    ensures SizeOf(InfoOf(t)) == Some(t.NBytes())
  {
    ProductOfReverse(t.shape);
  }

  // ----- The main result -----------------------------------------------------------------------

  /** What the reader knows about a tensor agrees with what was written: its name, its
      dimensions with the innermost first, its type, and its elements at an aligned
      offset. */
  ghost predicate TensorAgrees(half: nat -> nat, t: Tensor, info: Info, data: Bytes, dataStart: nat, alignment: nat)
    requires alignment > 0
  {
    && info.name == t.name && info.ggmlType == t.ggmlType
    && |info.dims| == |t.shape|
    && (forall j {:trigger info.dims[j]} :: 0 <= j < |t.shape| ==> info.dims[j] == t.shape[|t.shape| - 1 - j])
    && info.offset % alignment == 0
    && StoresElements(half, t, data, dataStart + info.offset)
  }

  lemma DimsReversed(t: Tensor)
    ensures |t.Dims()| == |t.shape|
    ensures forall j {:trigger t.Dims()[j]} :: 0 <= j < |t.shape| ==> t.Dims()[j] == t.shape[|t.shape| - 1 - j]
  {
    forall j | 0 <= j < |t.shape|
      ensures t.Dims()[j] == t.shape[|t.shape| - 1 - j]
    {
      ReverseAt(t.shape, j);
    }
  }

  /** Whatever the writer emits, the reader accepts, and finds the same metadata (the
      last value of a repeated key), the same tensors in the same order, and every
      tensor's bytes where it says they are. */
  lemma WriteThenRead(half: nat -> nat, kv: seq<Entry>, tensors: seq<Tensor>, alignment: nat, data: Bytes)
    requires alignment > 0 && AlignmentOf(LastWins(kv)) == Ok(alignment)
    requires FileBytes(half, kv, tensors, alignment) == Ok(data)
    ensures ReadFile(data).Ok?
    ensures var f := ReadFile(data).value;
            && f.version == 3 && f.kv == LastWins(kv) && f.dataStart >= 0 && |f.tensors| == |tensors|
            && forall i :: 0 <= i < |tensors| ==>
                 TensorAgrees(half, tensors[i], f.tensors[i], data, f.dataStart, alignment)
  {
    hide ReadFile, FileBytes, PackFront, LastWins, Placed, AlignmentOf, TensorAgrees, Payload, DataStart;
    FileRoundTrip(half, kv, tensors, alignment);
    var lead := Lead(half, kv, tensors, alignment);
    var f := ReadFile(data).value;
    forall i | 0 <= i < |tensors|
      ensures TensorAgrees(half, tensors[i], f.tensors[i], data, f.dataStart, alignment)
    {
      TensorStored(half, tensors, alignment, i, lead, data);
    }
  }

  lemma TensorStored(half: nat -> nat, tensors: seq<Tensor>, alignment: nat, i: nat, lead: Bytes, data: Bytes)
    requires alignment > 0 && i < |tensors|
    requires data == lead + Payload(half, tensors, alignment)
    ensures TensorAgrees(half, tensors[i], InfoOf(Placed(tensors, alignment)[i]), data, |lead|, alignment)
  {
    hide Payload, NextOffset, Encoded, Placed, Holds, EndOf, StoresElements;
    hide Tensor.NBytes, Tensor.Dims;
    PlacedAt(tensors, alignment, i);
    DimsReversed(tensors[i]);
    var offset, bytes := NextOffset(tensors[..i], alignment), Encoded(half, tensors[i]);
    OffsetStep(tensors, alignment, i);
    PayloadAt(half, tensors, alignment, i, Payload(half, tensors, alignment), offset, bytes);
    HoldsAfter(lead, Payload(half, tensors, alignment), offset, bytes);
    ElementsStored(half, tensors[i], data, |lead| + offset);
    OffsetKeepsDims(tensors[i], offset);
  }

  lemma OffsetKeepsDims(t: Tensor, offset: nat)
    ensures t.(offset := offset).Dims() == t.Dims()
  {}
}

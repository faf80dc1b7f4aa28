/** Serialization of a frozen trie, utils/GYBUnicodeDataUtils.py, and lookups in the bytes. */
module TrieSerialization {
  import opened Options
  import opened Powers
  import opened UnicodeTrie

  // ---- entries of one or two bytes

  type Width = w: nat | 1 <= w <= 2 witness 1

  /** `n` entries take this many bytes. */
  function Size(width: Width, n: nat): nat {
    if width == 1 then n else 2 * n
  }

  /** What the assertions of `_int_to_le_bytes` admit. */
  predicate FitsWidth(words: seq<int>, width: Width) {
    forall i :: 0 <= i < |words| ==> 0 <= words[i] < if width == 1 then 0x100 else 0x1_0000
  }

  /** `_int_to_le_bytes`: `data & 0xff00`, the second byte of a wide entry, is not shifted down. */
  function IntToLeBytes(data: int, width: Width): (bytes: seq<int>)
    requires 0 <= data < 0x1_0000
    ensures |bytes| == width
  {
    if width == 1 then [data] else [data % 0x100, data - data % 0x100]
  }

  function IntListToLeBytes(words: seq<int>, width: Width): (bytes: seq<int>)
    requires FitsWidth(words, width)
    ensures |bytes| == Size(width, |words|)
  {
    if words == [] then [] else IntToLeBytes(words[0], width) + IntListToLeBytes(words[1..], width)
  }

  /** The little-endian entry at `position`, if the bytes go that far. */
  function Load(bytes: seq<int>, position: nat, width: Width): Option<int> {
    if position + width > |bytes| then None
    else if width == 1 then Some(bytes[position])
    else Some(bytes[position] + 0x100 * bytes[position + 1])
  }

  lemma {:induction false} EntryByte(words: seq<int>, width: Width, i: nat, d: nat)
    requires FitsWidth(words, width) && i < |words| && d < width
    ensures Size(width, i) + width <= Size(width, |words|)
    ensures IntListToLeBytes(words, width)[Size(width, i) + d] == IntToLeBytes(words[i], width)[d]
  {
    hide IntToLeBytes;
    if i > 0 {
      EntryByte(words[1..], width, i - 1, d);
    }
  }

  lemma OneByte(data: int)
    requires 0 <= data < 0x1_0000
    ensures IntToLeBytes(data, 1) == [data]
  {
  }

  /** The second byte is 256 times what it should be. */
  lemma TwoBytes(data: int)
    requires 0 <= data < 0x1_0000
    ensures var bytes := IntToLeBytes(data, 2); bytes[0] + 0x100 * bytes[1] == data <==> data < 0x100
  {
  }

  lemma LoadOf(bytes: seq<int>, position: nat, width: Width, data: int)
    requires 0 <= data < (if width == 1 then 0x100 else 0x1_0000) && position + width <= |bytes|
    requires bytes[position] == IntToLeBytes(data, width)[0]
    requires bytes[position + (width - 1)] == IntToLeBytes(data, width)[width - 1]
    ensures Load(bytes, position, width) == Some(data) <==> data < 0x100
  {
    OneByte(data);
    TwoBytes(data);
    hide IntToLeBytes;
  }

  /** An entry is loaded as it was stored if and only if it fits in one byte. */
  lemma EntryLoads(bytes: seq<int>, before: seq<int>, words: seq<int>, width: Width, after: seq<int>, i: nat)
    requires FitsWidth(words, width) && i < |words|
    requires bytes == before + IntListToLeBytes(words, width) + after
    ensures Load(bytes, |before| + Size(width, i), width) == Some(words[i]) <==> words[i] < 0x100
  {
    hide IntListToLeBytes, IntToLeBytes, Load;
    var list, k := IntListToLeBytes(words, width), Size(width, i);
    EntryByte(words, width, i, 0);
    EntryByte(words, width, i, width - 1);
    var position := |before| + k;
    assert bytes[position] == list[k];
    assert bytes[position + (width - 1)] == list[k + (width - 1)];
    LoadOf(bytes, position, width, words[i]);
  }

  /** The smallest entry that is not. */
  lemma Entry256IsLost()
    ensures Load(IntListToLeBytes([0x100], 2), 0, 2) == Some(0x1_0000)
  {
    assert IntListToLeBytes([0x100], 2) == IntToLeBytes(0x100, 2) + IntListToLeBytes([], 2) == [0, 0x100];
  }

  // ---- blocks one after the other

  function Flattened<T>(blocks: seq<seq<T>>): seq<T> {
    if blocks == [] then [] else blocks[0] + Flattened(blocks[1..])
  }

  lemma {:induction false} ElementOfBlock<T>(blocks: seq<seq<T>>, size: nat, b: nat, k: nat)
    requires b < |blocks| && k < size && forall i :: 0 <= i < |blocks| ==> |blocks[i]| == size
    ensures b * size + k < |Flattened(blocks)| && Flattened(blocks)[b * size + k] == blocks[b][k]
  {
    if b > 0 {
      ElementOfBlock(blocks[1..], size, b - 1, k);
      assert b * size + k == size + ((b - 1) * size + k);
    }
  }

  lemma {:induction false} FlattenedMembers<T>(blocks: seq<seq<T>>, x: T)
    ensures x in Flattened(blocks) <==> InSome(blocks, x)
  {
    if blocks != [] {
      var rest := blocks[1..];
      FlattenedMembers(rest, x);
      if b :| 0 <= b < |rest| && x in rest[b] {
        assert x in blocks[b + 1];
      }
      if b :| 0 <= b < |blocks| && x in blocks[b] {
        assert b > 0 ==> x in rest[b - 1];
      }
    }
  }

  function Numeric(values: seq<Value>, toNumericValue: Value -> int): (words: seq<int>)
    ensures |words| == |values|
  {
    seq(|values|, i requires 0 <= i < |values| => toNumericValue(values[i]))
  }

  // ---- the serialized trie

  /** The bytes of all tables, with the width of the lookup tables' entries and the offset of each table but the
      first, which is at 0. Data entries are one byte wide. */
  datatype TrieBytes = TrieBytes(bytes: seq<int>, bmpLookupWidth: Width, suppLookup1Width: Width, suppLookup2Width: Width,
                                 bmpDataOffset: nat, suppLookup1Offset: nat, suppLookup2Offset: nat, suppDataOffset: nat)

  function BytesPerEntry(blocks: nat): Width {
    if blocks < 0x100 then 1 else 2
  }

  /** The words of the five tables. */
  datatype Words = Words(bmpLookup: seq<int>, bmpData: seq<int>, suppLookup1: seq<int>, suppLookup2: seq<int>, suppData: seq<int>)

  function WordsOf(trie: UnicodeTrieGenerator, toNumericValue: Value -> int): Words
    reads trie
  {
    Words(trie.bmpLookup, Numeric(Flattened(trie.bmpData), toNumericValue),
          trie.suppLookup1, Flattened(trie.suppLookup2), Numeric(Flattened(trie.suppData), toNumericValue))
  }

  /** No assertion of `serialize` fails. */
  predicate Serializable(trie: UnicodeTrieGenerator, toNumericValue: Value -> int)
    reads trie
  {
    var words := WordsOf(trie, toNumericValue);
    && FitsWidth(words.bmpLookup, BytesPerEntry(|trie.bmpData|)) && FitsWidth(words.bmpData, 1)
    && FitsWidth(words.suppLookup1, BytesPerEntry(|trie.suppLookup2|))
    && FitsWidth(words.suppLookup2, BytesPerEntry(|trie.suppData|)) && FitsWidth(words.suppData, 1)
  }

  /** Where `t` says a table is, its bytes are. */
  ghost predicate Holds(t: TrieBytes, offset: nat, words: seq<int>, width: Width) {
    && FitsWidth(words, width)
    && exists before, after ::
         |before| == offset && t.bytes == before + IntListToLeBytes(words, width) + after
  }

  /** The tables are one after the other, from 0 to the end, without a byte between them. */
  predicate LaidOut(t: TrieBytes, words: Words) {
    && t.bmpDataOffset == t.bmpLookupWidth * |words.bmpLookup|
    && t.suppLookup1Offset == t.bmpDataOffset + |words.bmpData|
    && t.suppLookup2Offset == t.suppLookup1Offset + t.suppLookup1Width * |words.suppLookup1|
    && t.suppDataOffset == t.suppLookup2Offset + t.suppLookup2Width * |words.suppLookup2|
    && |t.bytes| == t.suppDataOffset + |words.suppData|
  }

  /** All tables are where `t` says. The entries of a lookup table take one byte each if there are fewer than 256
      blocks to choose from, and two otherwise. */
  ghost predicate HoldsTrie(t: TrieBytes, trie: UnicodeTrieGenerator, toNumericValue: Value -> int)
    reads trie
  {
    var words := WordsOf(trie, toNumericValue);
    && Holds(t, 0, words.bmpLookup, t.bmpLookupWidth) && Holds(t, t.bmpDataOffset, words.bmpData, 1)
    && Holds(t, t.suppLookup1Offset, words.suppLookup1, t.suppLookup1Width)
    && Holds(t, t.suppLookup2Offset, words.suppLookup2, t.suppLookup2Width)
    && Holds(t, t.suppDataOffset, words.suppData, 1)
    && (t.bmpLookupWidth == 1 <==> |trie.bmpData| < 256)
    && (t.suppLookup1Width == 1 <==> |trie.suppLookup2| < 256)
    && (t.suppLookup2Width == 1 <==> |trie.suppData| < 256)
    && LaidOut(t, words)
  }

  /** None if an assertion fails. */
  method Serialize(trie: UnicodeTrieGenerator, toNumericValue: Value -> int) returns (t: Option<TrieBytes>)
    ensures t.Some? <==> Serializable(trie, toNumericValue)
    ensures t.Some? ==> HoldsTrie(t.value, trie, toNumericValue)
  {
    var bmpLookupWidth := BytesPerEntry(|trie.bmpData|);
    var suppLookup1Width := BytesPerEntry(|trie.suppLookup2|);
    var suppLookup2Width := BytesPerEntry(|trie.suppData|);
    var words := WordsOf(trie, toNumericValue);
    assert (bmpLookupWidth == 1 <==> |trie.bmpData| < 256) && (suppLookup1Width == 1 <==> |trie.suppLookup2| < 256)
           && (suppLookup2Width == 1 <==> |trie.suppData| < 256);
    hide WordsOf, IntListToLeBytes, Holds, FitsWidth, BytesPerEntry;
    if !FitsWidth(words.bmpLookup, bmpLookupWidth) || !FitsWidth(words.bmpData, 1)
       || !FitsWidth(words.suppLookup1, suppLookup1Width) || !FitsWidth(words.suppLookup2, suppLookup2Width)
       || !FitsWidth(words.suppData, 1) {
      return None;
    }
    var bmpLookup := IntListToLeBytes(words.bmpLookup, bmpLookupWidth);
    var bmpData := IntListToLeBytes(words.bmpData, 1);
    var suppLookup1 := IntListToLeBytes(words.suppLookup1, suppLookup1Width);
    var suppLookup2 := IntListToLeBytes(words.suppLookup2, suppLookup2Width);
    var suppData := IntListToLeBytes(words.suppData, 1);
    var bytes1 := bmpLookup;
    var bytes2 := bytes1 + bmpData;
    var bytes3 := bytes2 + suppLookup1;
    var bytes4 := bytes3 + suppLookup2;
    var bytes := bytes4 + suppData;
    t := Some(TrieBytes(bytes, bmpLookupWidth, suppLookup1Width, suppLookup2Width,
                        |bytes1|, |bytes2|, |bytes3|, |bytes4|));
    OneAfterAnother(t.value, words);
  }

  // ---- how many bytes there are

  lemma {:induction false} FlattenedLength<T>(blocks: seq<seq<T>>, size: nat)
    requires forall i :: 0 <= i < |blocks| ==> |blocks[i]| == size
    ensures |Flattened(blocks)| == |blocks| * size
  {
    if blocks != [] {
      FlattenedLength(blocks[1..], size);
      assert |blocks| * size == size + (|blocks| - 1) * size;
    }
  }

  /** Where each table starts, and how many bytes there are, by the numbers of blocks: one for each entry of the five
      tables if there are fewer than 256 blocks of each kind. */
  lemma TableSizes(trie: UnicodeTrieGenerator, t: TrieBytes, toNumericValue: Value -> int)
    requires trie.Valid() && HoldsTrie(t, trie, toNumericValue)
    ensures t.bmpDataOffset == (if |trie.bmpData| < 256 then 1 else 2) * Pow2(trie.bmpFirstLevelIndexBits)
    ensures t.suppLookup1Offset == t.bmpDataOffset + |trie.bmpData| * Pow2(trie.bmpDataOffsetBits)
    ensures t.suppLookup2Offset
            == t.suppLookup1Offset + (if |trie.suppLookup2| < 256 then 1 else 2) * (trie.suppFirstLevelIndexMax + 1)
    ensures t.suppDataOffset
            == t.suppLookup2Offset
               + (if |trie.suppData| < 256 then 1 else 2) * (|trie.suppLookup2| * Pow2(trie.suppSecondLevelIndexBits))
    ensures |t.bytes| == t.suppDataOffset + |trie.suppData| * Pow2(trie.suppDataOffsetBits)
    ensures |trie.bmpData| < 256 && |trie.suppLookup2| < 256 && |trie.suppData| < 256 ==>
              var words := WordsOf(trie, toNumericValue);
              |t.bytes| == |words.bmpLookup| + |words.bmpData| + |words.suppLookup1| + |words.suppLookup2| + |words.suppData|
  {
    hide Flattened, Holds, Pow2;
    FlattenedLength(trie.bmpData, Pow2(trie.bmpDataOffsetBits));
    FlattenedLength(trie.suppLookup2, Pow2(trie.suppSecondLevelIndexBits));
    FlattenedLength(trie.suppData, Pow2(trie.suppDataOffsetBits));
  }

  // ---- when it can be serialized

  predicate OneByteValue(word: int) {
    0 <= word < 0x100
  }

  ghost predicate FewBlocks(trie: UnicodeTrieGenerator, limit: nat)
    reads trie
  {
    |trie.bmpData| <= limit && |trie.suppLookup2| <= limit && |trie.suppData| <= limit
  }

  lemma LookupFits(words: seq<nat>, blocks: nat)
    requires AllBelow(words, blocks)
    ensures blocks <= 0x1_0000 ==> FitsWidth(words, BytesPerEntry(blocks))
    ensures Named(words, blocks) ==> (FitsWidth(words, BytesPerEntry(blocks)) <==> blocks <= 0x1_0000)
  {
    if blocks > 0x1_0000 && Named(words, blocks) {
      assert 0x1_0000 in words;
    }
  }

  lemma DataFits(blocks: seq<seq<Value>>, toNumericValue: Value -> int)
    ensures FitsWidth(Numeric(Flattened(blocks), toNumericValue), 1)
            <==> forall v :: InSome(blocks, v) ==> OneByteValue(toNumericValue(v))
  {
    var values := Flattened(blocks);
    forall v ensures v in values <==> InSome(blocks, v) {
      FlattenedMembers(blocks, v);
    }
    hide Flattened, InSome;
    var words := Numeric(values, toNumericValue);
    if FitsWidth(words, 1) {
      forall v | v in values ensures OneByteValue(toNumericValue(v)) {
        var i :| 0 <= i < |values| && values[i] == v;
        assert words[i] == toNumericValue(v);
      }
    }
  }

  /** With at most 65536 blocks of each kind no assertion fails if and only if all stored values are one byte's. */
  lemma SerializableUpTo65536(trie: UnicodeTrieGenerator, toNumericValue: Value -> int)
    requires trie.Valid() && FewBlocks(trie, 0x1_0000)
    ensures Serializable(trie, toNumericValue) <==> forall v :: trie.Stores(v) ==> OneByteValue(toNumericValue(v))
  {
    FlattenedBelow(trie.suppLookup2, |trie.suppData|);
    hide Flattened, Numeric, InSome, FitsWidth, BytesPerEntry, OneByteValue, Named;
    LookupFits(trie.bmpLookup, |trie.bmpData|);
    LookupFits(trie.suppLookup1, |trie.suppLookup2|);
    LookupFits(Flattened(trie.suppLookup2), |trie.suppData|);
    DataFits(trie.bmpData, toNumericValue);
    DataFits(trie.suppData, toNumericValue);
  }

  /** If all blocks are in use, none fails if and only if there are also no more blocks than that. */
  lemma SerializableExactly(trie: UnicodeTrieGenerator, toNumericValue: Value -> int)
    requires trie.Valid() && trie.AllNamed()
    ensures Serializable(trie, toNumericValue)
            <==> FewBlocks(trie, 0x1_0000) && forall v :: trie.Stores(v) ==> OneByteValue(toNumericValue(v))
  {
    if FewBlocks(trie, 0x1_0000) {
      SerializableUpTo65536(trie, toNumericValue);
    } else {
      FlattenedBelow(trie.suppLookup2, |trie.suppData|);
      FlattenedNamed(trie.suppLookup2, |trie.suppData|);
      hide Flattened, Numeric, InSome, FitsWidth, BytesPerEntry;
      LookupFits(trie.bmpLookup, |trie.bmpData|);
      LookupFits(trie.suppLookup1, |trie.suppLookup2|);
      LookupFits(Flattened(trie.suppLookup2), |trie.suppData|);
    }
  }

  lemma FlattenedNamed(tables: seq<seq<nat>>, n: nat)
    requires forall b: nat :: b < n ==> InSome(tables, b)
    ensures Named(Flattened(tables), n)
  {
    forall b: nat | b < n ensures b in Flattened(tables) {
      FlattenedMembers(tables, b);
    }
  }

  lemma OneAfterAnother(t: TrieBytes, words: Words)
    requires FitsWidth(words.bmpLookup, t.bmpLookupWidth) && FitsWidth(words.bmpData, 1)
    requires FitsWidth(words.suppLookup1, t.suppLookup1Width) && FitsWidth(words.suppLookup2, t.suppLookup2Width)
    requires FitsWidth(words.suppData, 1)
    requires t.bytes == IntListToLeBytes(words.bmpLookup, t.bmpLookupWidth) + IntListToLeBytes(words.bmpData, 1)
                        + IntListToLeBytes(words.suppLookup1, t.suppLookup1Width)
                        + IntListToLeBytes(words.suppLookup2, t.suppLookup2Width) + IntListToLeBytes(words.suppData, 1)
    requires t.bmpDataOffset == Size(t.bmpLookupWidth, |words.bmpLookup|)
    requires t.suppLookup1Offset == t.bmpDataOffset + |words.bmpData|
    requires t.suppLookup2Offset == t.suppLookup1Offset + Size(t.suppLookup1Width, |words.suppLookup1|)
    requires t.suppDataOffset == t.suppLookup2Offset + Size(t.suppLookup2Width, |words.suppLookup2|)
    ensures Holds(t, 0, words.bmpLookup, t.bmpLookupWidth) && Holds(t, t.bmpDataOffset, words.bmpData, 1)
    ensures Holds(t, t.suppLookup1Offset, words.suppLookup1, t.suppLookup1Width)
    ensures Holds(t, t.suppLookup2Offset, words.suppLookup2, t.suppLookup2Width)
    ensures Holds(t, t.suppDataOffset, words.suppData, 1)
  {
    hide IntListToLeBytes, Holds, FitsWidth;
    var a, b := IntListToLeBytes(words.bmpLookup, t.bmpLookupWidth), IntListToLeBytes(words.bmpData, 1);
    var c, d := IntListToLeBytes(words.suppLookup1, t.suppLookup1Width), IntListToLeBytes(words.suppLookup2, t.suppLookup2Width);
    var e := IntListToLeBytes(words.suppData, 1);
    assert a + b + c + d + e == [] + a + (b + c + d + e) == a + b + (c + d + e) == a + b + c + (d + e)
           == a + b + c + d + e + [];
    HoldsAt(t, [], words.bmpLookup, t.bmpLookupWidth, b + c + d + e);
    HoldsAt(t, a, words.bmpData, 1, c + d + e);
    HoldsAt(t, a + b, words.suppLookup1, t.suppLookup1Width, d + e);
    HoldsAt(t, a + b + c, words.suppLookup2, t.suppLookup2Width, e);
    HoldsAt(t, a + b + c + d, words.suppData, 1, []);
  }

  lemma HoldsAt(t: TrieBytes, before: seq<int>, words: seq<int>, width: Width, after: seq<int>)
    requires FitsWidth(words, width) && t.bytes == before + IntListToLeBytes(words, width) + after
    ensures Holds(t, |before|, words, width)
  {
  }

  lemma HeldEntryLoads(t: TrieBytes, offset: nat, words: seq<int>, width: Width, i: nat)
    requires Holds(t, offset, words, width) && i < |words|
    ensures Load(t.bytes, offset + Size(width, i), width) == Some(words[i]) <==> words[i] < 0x100
  {
    var before, after :| |before| == offset && t.bytes == before + IntListToLeBytes(words, width) + after;
    EntryLoads(t.bytes, before, words, width, after, i);
  }

  ghost predicate TableLoads(t: TrieBytes, offset: nat, words: seq<int>, width: Width) {
    forall i :: 0 <= i < |words| ==> Load(t.bytes, offset + Size(width, i), width) == Some(words[i])
  }

  lemma TableLoadsUpTo256(t: TrieBytes, offset: nat, words: seq<nat>, width: Width, blocks: nat)
    requires Holds(t, offset, words, width) && AllBelow(words, blocks) && Named(words, blocks)
    ensures TableLoads(t, offset, words, width) <==> blocks <= 0x100
  {
    hide Holds, Load;
    forall i | 0 <= i < |words|
      ensures Load(t.bytes, offset + Size(width, i), width) == Some(words[i]) <==> words[i] < 0x100
    {
      HeldEntryLoads(t, offset, words, width, i);
    }
    if blocks > 0x100 {
      assert 0x100 in words;
    }
  }

  lemma {:induction false} FlattenedBelow(tables: seq<seq<nat>>, n: nat)
    requires forall t :: 0 <= t < |tables| ==> AllBelow(tables[t], n)
    ensures AllBelow(Flattened(tables), n)
  {
    if tables != [] {
      FlattenedBelow(tables[1..], n);
    }
  }

  /** In a trie whose blocks are all in use, as they are before and after compression, the lookup tables are
      serialized right if and only if there are at most 256 blocks of each kind. */
  lemma LookupTablesLoadUpTo256(trie: UnicodeTrieGenerator, t: TrieBytes, toNumericValue: Value -> int)
    requires trie.Valid() && trie.AllNamed() && HoldsTrie(t, trie, toNumericValue)
    ensures && TableLoads(t, 0, trie.bmpLookup, t.bmpLookupWidth)
            && TableLoads(t, t.suppLookup1Offset, trie.suppLookup1, t.suppLookup1Width)
            && TableLoads(t, t.suppLookup2Offset, Flattened(trie.suppLookup2), t.suppLookup2Width)
            <==> FewBlocks(trie, 0x100)
  {
    hide Holds, TableLoads, Flattened, Numeric;
    TableLoadsUpTo256(t, 0, trie.bmpLookup, t.bmpLookupWidth, |trie.bmpData|);
    TableLoadsUpTo256(t, t.suppLookup1Offset, trie.suppLookup1, t.suppLookup1Width, |trie.suppLookup2|);
    FlattenedBelow(trie.suppLookup2, |trie.suppData|);
    FlattenedNamed(trie.suppLookup2, |trie.suppData|);
    TableLoadsUpTo256(t, t.suppLookup2Offset, Flattened(trie.suppLookup2), t.suppLookup2Width, |trie.suppData|);
  }

  // ---- lookups in the bytes

  /** Entry `i` of the table at `offset`. */
  function Entry(t: TrieBytes, offset: nat, width: Width, i: int): (r: Option<nat>) {
    if i < 0 then None
    else
      match Load(t.bytes, offset + Size(width, i), width)
      case Some(e) => if e >= 0 then Some(e) else None
      case None => None
  }

  /** The lookup that the layout of the tables is for, with each table read from the bytes. */
  function Lookup(trie: UnicodeTrieGenerator, t: TrieBytes, cp: nat): Option<nat> {
    if cp <= MAX_BMP then
      match Entry(t, 0, t.bmpLookupWidth, trie.BmpFirstLevelIndex(cp))
      case None => None
      case Some(block) => Entry(t, t.bmpDataOffset, 1, block * Pow2(trie.bmpDataOffsetBits) + trie.BmpDataOffset(cp))
    else
      match Entry(t, t.suppLookup1Offset, t.suppLookup1Width, trie.SuppFirstLevelIndex(cp))
      case None => None
      case Some(table) =>
        match Entry(t, t.suppLookup2Offset, t.suppLookup2Width,
                    table * Pow2(trie.suppSecondLevelIndexBits) + trie.SuppSecondLevelIndex(cp))
        case None => None
        case Some(block) => Entry(t, t.suppDataOffset, 1, block * Pow2(trie.suppDataOffsetBits) + trie.SuppDataOffset(cp))
  }

  lemma EntryIsWord(t: TrieBytes, offset: nat, words: seq<int>, width: Width, i: nat)
    requires Holds(t, offset, words, width) && i < |words| && (width == 1 || words[i] < 0x100)
    ensures words[i] >= 0 && Entry(t, offset, width, i) == Some(words[i])
  {
    hide Load, IntListToLeBytes;
    HeldEntryLoads(t, offset, words, width, i);
  }

  lemma DataEntry(t: TrieBytes, offset: nat, blocks: seq<seq<Value>>, toNumericValue: Value -> int, size: nat, b: nat, k: nat)
    requires Holds(t, offset, Numeric(Flattened(blocks), toNumericValue), 1)
    requires b < |blocks| && k < size && forall i :: 0 <= i < |blocks| ==> |blocks[i]| == size
    ensures toNumericValue(blocks[b][k]) >= 0 && Entry(t, offset, 1, b * size + k) == Some(toNumericValue(blocks[b][k]))
  {
    hide Flattened, Holds, Entry;
    ElementOfBlock(blocks, size, b, k);
    EntryIsWord(t, offset, Numeric(Flattened(blocks), toNumericValue), 1, b * size + k);
  }

  /** With at most 256 blocks of each kind, the bytes answer as the trie does, for every code point. */
  lemma LookupIsGetValue(trie: UnicodeTrieGenerator, t: TrieBytes, toNumericValue: Value -> int, cp: nat)
    requires trie.Valid() && HoldsTrie(t, trie, toNumericValue) && cp <= MAX_CODE_POINT
    requires FewBlocks(trie, 0x100)
    ensures toNumericValue(trie.GetValue(cp)) >= 0 && Lookup(trie, t, cp) == Some(toNumericValue(trie.GetValue(cp)))
  {
    hide Flattened, Numeric, Holds, Entry, Pow2, Quotient, Remainder;
    if cp <= MAX_BMP {
      trie.BmpIndexInRange(cp);
      var i, k := trie.BmpFirstLevelIndex(cp), trie.BmpDataOffset(cp);
      EntryIsWord(t, 0, trie.bmpLookup, t.bmpLookupWidth, i);
      DataEntry(t, t.bmpDataOffset, trie.bmpData, toNumericValue, Pow2(trie.bmpDataOffsetBits), trie.bmpLookup[i], k);
    } else {
      trie.SuppIndexInRange(cp);
      SuppLookupIsGetValue(trie, t, toNumericValue, cp);
    }
  }

  lemma SuppLookupIsGetValue(trie: UnicodeTrieGenerator, t: TrieBytes, toNumericValue: Value -> int, cp: nat)
    requires trie.Valid() && HoldsTrie(t, trie, toNumericValue) && MAX_BMP < cp <= MAX_CODE_POINT
    requires trie.SuppFirstLevelIndex(cp) <= trie.suppFirstLevelIndexMax
    requires |trie.suppLookup2| <= 0x100 && |trie.suppData| <= 0x100
    ensures toNumericValue(trie.GetValue(cp)) >= 0 && Lookup(trie, t, cp) == Some(toNumericValue(trie.GetValue(cp)))
  {
    hide Flattened, Numeric, Holds, Entry, Pow2, Quotient, Remainder;
    var i, j, k := trie.SuppFirstLevelIndex(cp), trie.SuppSecondLevelIndex(cp), trie.SuppDataOffset(cp);
    var m := Pow2(trie.suppSecondLevelIndexBits);
    var table := trie.suppLookup1[i];
    EntryIsWord(t, t.suppLookup1Offset, trie.suppLookup1, t.suppLookup1Width, i);
    ElementOfBlock(trie.suppLookup2, m, table, j);
    EntryIsWord(t, t.suppLookup2Offset, Flattened(trie.suppLookup2), t.suppLookup2Width, table * m + j);
    DataEntry(t, t.suppDataOffset, trie.suppData, toNumericValue, Pow2(trie.suppDataOffsetBits),
              trie.suppLookup2[table][j], k);
  }

  // ---- the whole sequence

  /** What the templates do with a generator: fill, verify, freeze, verify again, serialize. Neither `verify` can fail. */
  method TestTrieGeneration(bmpFirst: nat, suppFirst: nat, suppSecond: nat, property: nat -> Value, defaultValue: Value,
                            toNumericValue: Value -> int)
      returns (trie: UnicodeTrieGenerator, filled: bool, frozen: bool, t: Option<TrieBytes>)
    requires bmpFirst <= 16 && suppFirst + suppSecond <= 21
    ensures filled && frozen && trie.bmpFirstLevelIndexBits == bmpFirst
    ensures trie.Valid() && trie.AllNamed()
    ensures |trie.bmpData| <= Pow2(bmpFirst) && |trie.suppLookup2| <= trie.suppFirstLevelIndexMax + 1
    ensures |trie.suppData| <= (trie.suppFirstLevelIndexMax + 1) * Pow2(trie.suppSecondLevelIndexBits)
    ensures trie.suppFirstLevelIndexBits == suppFirst && trie.suppSecondLevelIndexBits == suppSecond
    ensures forall cp :: 0 <= cp <= MAX_CODE_POINT ==> trie.GetValue(cp) == property(cp)
    ensures forall v :: trie.Stores(v) <==> v == defaultValue || Assigned(property, MAX_CODE_POINT + 1, v)
    ensures Distinct(trie.bmpData) && Distinct(trie.suppLookup2) && Distinct(trie.suppData)
    ensures t.Some? <==> FewBlocks(trie, 0x1_0000) && OneByteValue(toNumericValue(defaultValue))
                         && forall cp :: 0 <= cp <= MAX_CODE_POINT ==> OneByteValue(toNumericValue(property(cp)))
    ensures t.Some? ==> HoldsTrie(t.value, trie, toNumericValue)
    ensures t.Some? && FewBlocks(trie, 0x100) ==>
              forall cp :: 0 <= cp <= MAX_CODE_POINT ==>
                var n := toNumericValue(property(cp)); n >= 0 && Lookup(trie, t.value, cp) == Some(n)
  {
    trie := new UnicodeTrieGenerator(bmpFirst, suppFirst, suppSecond);
    trie.FillFromUnicodeProperty(property, defaultValue);
    filled := trie.Verify(property);
    trie.Freeze();
    frozen := trie.Verify(property);
    t := Serialize(trie, toNumericValue);
    hide Serializable, HoldsTrie, Lookup, OneByteValue;
    SerializableExactly(trie, toNumericValue);
    StoredOrAssigned(trie, property, defaultValue, toNumericValue);
    if t.Some? && FewBlocks(trie, 0x100) {
      forall cp | 0 <= cp <= MAX_CODE_POINT
        ensures var n := toNumericValue(property(cp)); n >= 0 && Lookup(trie, t.value, cp) == Some(n)
      {
        LookupIsGetValue(trie, t.value, toNumericValue, cp);
      }
    }
  }

  lemma StoredOrAssigned(trie: UnicodeTrieGenerator, property: nat -> Value, defaultValue: Value, toNumericValue: Value -> int)
    requires forall v :: trie.Stores(v) <==> v == defaultValue || Assigned(property, MAX_CODE_POINT + 1, v)
    ensures (forall v :: trie.Stores(v) ==> OneByteValue(toNumericValue(v)))
            <==> OneByteValue(toNumericValue(defaultValue))
                 && forall cp :: 0 <= cp <= MAX_CODE_POINT ==> OneByteValue(toNumericValue(property(cp)))
  {
    if forall v :: trie.Stores(v) ==> OneByteValue(toNumericValue(v)) {
      assert trie.Stores(defaultValue);
      forall cp | 0 <= cp <= MAX_CODE_POINT ensures OneByteValue(toNumericValue(property(cp))) {
        assert Assigned(property, MAX_CODE_POINT + 1, property(cp));
      }
    }
  }

  // ---- a property for which compression leaves one block of each kind

  lemma ConstantBlocks(blocks: seq<seq<Value>>, size: nat, value: Value)
    requires Distinct(blocks) && forall b :: 0 <= b < |blocks| ==> |blocks[b]| == size
    requires forall v :: InSome(blocks, v) ==> v == value
    ensures |blocks| <= 1
  {
    var two := |blocks| > 1 ==> blocks[0] != blocks[1];
    forall b | 0 <= b < |blocks| ensures blocks[b] == seq(size, _ => value) {
      forall k | 0 <= k < size ensures blocks[b][k] == value {
        assert blocks[b][k] in blocks[b] && InSome(blocks, blocks[b][k]);
      }
    }
  }

  lemma ConstantTable(tables: seq<seq<nat>>, size: nat)
    requires Distinct(tables) && forall t :: 0 <= t < |tables| ==> |tables[t]| == size && AllBelow(tables[t], 1)
    ensures |tables| <= 1
  {
    var two := |tables| > 1 ==> tables[0] != tables[1];
    forall t | 0 <= t < |tables| ensures tables[t] == seq(size, _ => 0) {
    }
  }

  lemma ConstantTrieIsSmall(trie: UnicodeTrieGenerator, value: Value)
    requires trie.Valid() && Distinct(trie.bmpData) && Distinct(trie.suppLookup2) && Distinct(trie.suppData)
    requires forall v :: trie.Stores(v) ==> v == value
    ensures |trie.bmpData| == 1 && |trie.suppLookup2| == 1 && |trie.suppData| == 1
  {
    forall v | InSome(trie.bmpData, v) || InSome(trie.suppData, v) ensures v == value {
      assert trie.Stores(v);
    }
    ConstantBlocks(trie.bmpData, Pow2(trie.bmpDataOffsetBits), value);
    ConstantBlocks(trie.suppData, Pow2(trie.suppDataOffsetBits), value);
    ConstantTable(trie.suppLookup2, Pow2(trie.suppSecondLevelIndexBits));
    assert trie.bmpLookup[0] < |trie.bmpData|;
    assert trie.suppLookup1[0] < |trie.suppLookup2|;
    assert trie.suppLookup2[0][0] < |trie.suppData|;
  }

  /** The default parameters and one value for all code points: five tables of 256, 256, 17, 256 and 256 bytes. */
  method GenerateConstantTrie(value: Value, number: int) returns (trie: UnicodeTrieGenerator, t: TrieBytes)
    requires 0 <= number < 256
    ensures trie.Valid() && HoldsTrie(t, trie, _ => number)
    ensures |trie.bmpData| == 1 && |trie.suppLookup2| == 1 && |trie.suppData| == 1
    ensures t.bmpDataOffset == 256 && t.suppLookup1Offset == 512 && t.suppLookup2Offset == 529
    ensures t.suppDataOffset == 785 && |t.bytes| == 1041
    ensures forall cp :: 0 <= cp <= 0x10ffff ==> Lookup(trie, t, cp) == Some(number)
  {
    hide HoldsTrie, Lookup, Pow2, Quotient, Remainder;
    var property := (cp: nat) => value;
    var filled, frozen, serialized;
    trie, filled, frozen, serialized := TestTrieGeneration(8, 5, 8, property, value, _ => number);
    ConstantTrieIsSmall(trie, value);
    t := serialized.value;
    TableSizes(trie, t, _ => number);
    ConstantTrieSizes(trie);
  }

  lemma ConstantTrieSizes(trie: UnicodeTrieGenerator)
    requires trie.ParametersFit() && trie.suppFirstLevelIndexBits == 5 && trie.suppSecondLevelIndexBits == 8
    ensures Pow2(8) == 256 && trie.suppDataOffsetBits == 8 && trie.suppFirstLevelIndexMax == 16
  {
    assert Pow2(4) == 16;
    Pow2Sum(4, 4);
    Pow2Of16And21();
    QuotientUnique(MAX_CODE_POINT, 0x1_0000, 16);
  }

  // ---- a property for which compression leaves too many blocks

  /** Marks each of 512 blocks of 128 code points by its number, in the first two places. */
  function BlockMarks(cp: nat): Value {
    if cp > MAX_BMP then Mark(0)
    else if cp % 128 == 0 then Mark(cp / 128 % 256)
    else if cp % 128 == 1 then Mark(cp / 128 / 256)
    else Mark(0)
  }

  function Mark(n: nat): Value {
    Property(seq(n, _ => 'x'))
  }

  function MarkNumber(value: Value): int {
    if value.Property? then |value.name| else 0
  }

  lemma MarksDiffer(i: nat, j: nat)
    requires i < 512 && j < 512 && i != j
    ensures BlockMarks(128 * i) != BlockMarks(128 * j) || BlockMarks(128 * i + 1) != BlockMarks(128 * j + 1)
  {
    MarksOfBlock(i);
    MarksOfBlock(j);
    hide BlockMarks, MarkNumber;
  }

  lemma MarksOfBlock(i: nat)
    requires i < 512
    ensures MarkNumber(BlockMarks(128 * i)) == i % 256 && MarkNumber(BlockMarks(128 * i + 1)) == i / 256
  {
    assert 128 * i / 128 == i && 128 * i % 128 == 0;
    assert (128 * i + 1) / 128 == i && (128 * i + 1) % 128 == 1;
  }

  lemma {:induction false} NoMoreThan(lookup: seq<nat>, n: nat)
    requires Distinct(lookup) && AllBelow(lookup, n)
    ensures |lookup| <= n
    decreases n
  {
    if lookup != [] {
      var last := lookup[|lookup| - 1];
      var rest := lookup[..|lookup| - 1];
      var moved := seq(|rest|, k requires 0 <= k < |rest| => if rest[k] == n - 1 then last else rest[k]);
      NoMoreThan(moved, n - 1);
    }
  }

  lemma MarkIndexes(trie: UnicodeTrieGenerator, i: nat, k: nat)
    requires trie.Valid() && trie.bmpFirstLevelIndexBits == 9 && i < 512 && k < 128
    ensures |trie.bmpLookup| == 512 && trie.bmpLookup[i] < |trie.bmpData|
    ensures |trie.bmpData[trie.bmpLookup[i]]| == 128
    ensures trie.GetValue(128 * i + k) == trie.bmpData[trie.bmpLookup[i]][k]
  {
    assert Pow2(7) == 128 && Pow2(9) == 512 by {
      assert Pow2(4) == 16;
      Pow2Sum(4, 3);
      Pow2Sum(4, 5);
    }
    hide Pow2;
    QuotientUnique(128 * i + k, 128, i);
  }

  ghost predicate Marked(trie: UnicodeTrieGenerator)
    reads trie
  {
    && trie.Valid() && trie.bmpFirstLevelIndexBits == 9
    && forall cp :: 0 <= cp <= MAX_CODE_POINT ==> trie.GetValue(cp) == BlockMarks(cp)
  }

  lemma MarkedBlock(trie: UnicodeTrieGenerator, i: nat)
    requires Marked(trie) && i < 512
    ensures |trie.bmpLookup| == 512 && trie.bmpLookup[i] < |trie.bmpData|
    ensures var block := trie.bmpData[trie.bmpLookup[i]];
            |block| == 128 && block[0] == BlockMarks(128 * i) && block[1] == BlockMarks(128 * i + 1)
  {
    hide BlockMarks, Pow2, Quotient, Remainder;
    MarkIndexes(trie, i, 0);
    MarkIndexes(trie, i, 1);
  }

  lemma MarkedBlocksDiffer(trie: UnicodeTrieGenerator, i: nat, j: nat)
    requires Marked(trie) && i < 512 && j < 512 && i != j
    ensures |trie.bmpLookup| == 512 && trie.bmpLookup[i] != trie.bmpLookup[j]
  {
    hide Marked, BlockMarks;
    MarkedBlock(trie, i);
    MarkedBlock(trie, j);
    MarksDiffer(i, j);
  }

  /** A trie that answers with these marks has 512 blocks, compressed or not, and its first lookup table does not
      come back right from the bytes. Each mark fits in a byte, so the trie can be serialized. */
  lemma MarkedTrieIsLost(trie: UnicodeTrieGenerator, t: TrieBytes)
    requires Marked(trie) && trie.AllNamed() && HoldsTrie(t, trie, MarkNumber)
    ensures |trie.bmpData| >= 512 && !TableLoads(t, 0, trie.bmpLookup, t.bmpLookupWidth)
  {
    hide BlockMarks, Pow2, Quotient, Remainder, Holds, TableLoads;
    MarkedBlock(trie, 0);
    forall i, j | 0 <= i < j < 512 ensures trie.bmpLookup[i] != trie.bmpLookup[j] {
      MarkedBlocksDiffer(trie, i, j);
    }
    NoMoreThan(trie.bmpLookup, |trie.bmpData|);
    TableLoadsUpTo256(t, 0, trie.bmpLookup, t.bmpLookupWidth, |trie.bmpData|);
  }

  lemma MarksAreBytes(cp: nat)
    ensures OneByteValue(MarkNumber(BlockMarks(cp)))
  {
    if cp <= MAX_BMP {
      assert cp / 128 / 256 < 2;
    }
  }

  /** With nine bits for the first level the whole sequence succeeds on the marks, and leaves a lookup table that
      does not come back. */
  method GenerateMarkedTrie() returns (trie: UnicodeTrieGenerator, t: TrieBytes)
    ensures Marked(trie) && HoldsTrie(t, trie, MarkNumber)
    ensures !TableLoads(t, 0, trie.bmpLookup, t.bmpLookupWidth)
  {
    hide BlockMarks, OneByteValue, HoldsTrie, Lookup, TableLoads;
    var filled, frozen, serialized;
    trie, filled, frozen, serialized := TestTrieGeneration(9, 5, 8, BlockMarks, Mark(0), MarkNumber);
    MarkedTrieIsSmall(trie);
    assert OneByteValue(MarkNumber(Mark(0))) by {
      MarksAreBytes(MAX_BMP + 1);
      MarkZero();
    }
    forall cp | 0 <= cp <= MAX_CODE_POINT ensures OneByteValue(MarkNumber(BlockMarks(cp))) {
      MarksAreBytes(cp);
    }
    t := serialized.value;
    MarkedTrieIsLost(trie, t);
  }

  lemma MarkZero()
    ensures BlockMarks(MAX_BMP + 1) == Mark(0)
  {
  }

  lemma MarkedTrieIsSmall(trie: UnicodeTrieGenerator)
    requires trie.Valid() && trie.suppFirstLevelIndexBits == 5 && trie.suppSecondLevelIndexBits == 8
    requires |trie.bmpData| <= Pow2(9) && |trie.suppLookup2| <= trie.suppFirstLevelIndexMax + 1
    requires |trie.suppData| <= (trie.suppFirstLevelIndexMax + 1) * Pow2(8)
    ensures FewBlocks(trie, 0x1_0000)
  {
    assert Pow2(8) == 256 && Pow2(9) == 512 by {
      assert Pow2(4) == 16;
      Pow2Sum(4, 4);
      Pow2Sum(4, 5);
    }
    Pow2Of16And21();
    hide Pow2;
    QuotientUnique(MAX_CODE_POINT, 0x1_0000, 16);
  }
}

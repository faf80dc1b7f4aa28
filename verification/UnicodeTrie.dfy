/** The trie generator of utils/GYBUnicodeDataUtils.py: lookup tables over data blocks,
    and their compression by bottom-up removal of duplicates. */
module UnicodeTrie {
  import opened Powers

  const MAX_BMP := 0xffff
  const MAX_CODE_POINT := 0x10ffff

  /** What a data block stores for a code point. */
  datatype Value = Unset | Property(name: string)

  // ---- powers of two; for a code point, `>> b` and `& ((1 << b) - 1)` are `/` and `%` by `Pow2(b)`

  lemma Pow2Of16And21()
    ensures Pow2(16) == 0x10000 && Pow2(21) == 0x200000
  {
    assert Pow2(4) == 16;
    Pow2Sum(4, 4);
    Pow2Sum(8, 8);
    Pow2Sum(16, 4);
  }

  /** `x >> b`, with `d` being `Pow2(b)`. */
  function Quotient(x: nat, d: nat): (q: nat)
    requires d > 0
    ensures q * d <= x < q * d + d
  {
    x / d
  }

  /** `x & ((1 << b) - 1)`, with `d` being `Pow2(b)`. */
  function Remainder(x: nat, d: nat): (r: nat)
    requires d > 0
    ensures r < d && x == Quotient(x, d) * d + r
  {
    x % d
  }

  lemma Monotone(a: nat, b: nat, c: nat)
    requires a <= b
    ensures a * c <= b * c
  {
  }

  lemma QuotientBelow(x: nat, a: nat, d: nat)
    requires d > 0 && x < a * d
    ensures Quotient(x, d) < a
  {
    if Quotient(x, d) >= a {
      Monotone(a, Quotient(x, d), d);
      assert false;
    }
  }

  lemma QuotientMonotone(x: nat, y: nat, d: nat)
    requires d > 0 && x <= y
    ensures Quotient(x, d) <= Quotient(y, d)
  {
    if Quotient(x, d) > Quotient(y, d) {
      Monotone(Quotient(y, d) + 1, Quotient(x, d), d);
      assert false;
    }
  }

  lemma QuotientUnique(x: nat, d: nat, q: nat)
    requires d > 0 && q * d <= x < q * d + d
    ensures Quotient(x, d) == q
  {
    var p := Quotient(x, d);
    if p < q {
      Monotone(p + 1, q, d);
    } else if p > q {
      Monotone(q + 1, p, d);
    }
  }

  /** Splitting off the low bits, then the middle bits. */
  lemma QuotientTwice(x: nat, a: nat, b: nat)
    requires a > 0 && b > 0
    ensures a * b > 0 && Quotient(x, a * b) == Quotient(Quotient(x, b), a)
  {
    var p := Quotient(x, b);
    var q := Quotient(p, a);
    Product(a, b);
    assert q * (a * b) <= x by {
      Monotone(q * a, p, b);
      Reassociate(q, a, b);
    }
    assert x < q * (a * b) + a * b by {
      Monotone(p + 1, q * a + a, b);
      Distribute(p, 1, b);
      Distribute(q * a, a, b);
      Reassociate(q, a, b);
    }
    QuotientUnique(x, a * b, q);
  }

  lemma Reassociate(a: nat, b: nat, c: nat)
    ensures a * b * c == a * (b * c)
  {
  }

  lemma Distribute(a: nat, b: nat, c: nat)
    ensures (a + b) * c == a * c + b * c
  {
  }

  lemma Product(a: nat, b: nat)
    requires a > 0 && b > 0
    ensures a * b > 0
  {
  }

  // ---- removing duplicates

  function RemoveAt<T>(s: seq<T>, j: nat): seq<T>
    requires j < |s|
  {
    s[..j] + s[j + 1..]
  }

  function MapIndex(idx: nat, oldIdx: nat, newIdx: nat): nat {
    if idx == oldIdx then newIdx else if idx > oldIdx then idx - 1 else idx
  }

  function RemapIndexes(indexes: seq<nat>, oldIdx: nat, newIdx: nat): seq<nat> {
    seq(|indexes|, p requires 0 <= p < |indexes| => MapIndex(indexes[p], oldIdx, newIdx))
  }

  /** The distinct elements of `s`, in the order of their first occurrence. */
  function FirstOccurrences<T(==)>(s: seq<T>): seq<T> {
    if s == [] then []
    else
      var init, last := s[..|s| - 1], s[|s| - 1];
      if last in init then FirstOccurrences(init) else FirstOccurrences(init) + [last]
  }

  ghost predicate Distinct<T>(s: seq<T>) {
    forall a, b :: 0 <= a < b < |s| ==> s[a] != s[b]
  }

  ghost predicate AllBelow(lookup: seq<nat>, n: nat) {
    forall p :: 0 <= p < |lookup| ==> lookup[p] < n
  }

  /** Entry by entry, `lookup` finds in `blocks` what `lookup0` finds in `blocks0`. */
  ghost predicate SameLookups<T>(lookup: seq<nat>, blocks: seq<T>, lookup0: seq<nat>, blocks0: seq<T>)
    requires AllBelow(lookup0, |blocks0|)
  {
    && |lookup| == |lookup0| && AllBelow(lookup, |blocks|)
    && forall p :: 0 <= p < |lookup| ==> blocks[lookup[p]] == blocks0[lookup0[p]]
  }

  /** Every one of `n` blocks has an entry. */
  ghost predicate Named(lookup: seq<nat>, n: nat) {
    forall b: nat :: b < n ==> b in lookup
  }

  ghost predicate InSome<T>(blocks: seq<seq<T>>, x: T) {
    exists b :: 0 <= b < |blocks| && x in blocks[b]
  }

  /** Blocks that were taken from `blocks0` and are all different still have an entry each. */
  lemma StillNamed<T>(lookup: seq<nat>, blocks: seq<T>, lookup0: seq<nat>, blocks0: seq<T>, b: nat)
    requires AllBelow(lookup0, |blocks0|) && SameLookups(lookup, blocks, lookup0, blocks0) && Distinct(blocks)
    requires b < |blocks| && exists b0 :: 0 <= b0 < |blocks0| && blocks0[b0] == blocks[b] && b0 in lookup0
    ensures b in lookup
  {
    var b0 :| 0 <= b0 < |blocks0| && blocks0[b0] == blocks[b] && b0 in lookup0;
    var p :| 0 <= p < |lookup0| && lookup0[p] == b0;
    assert blocks[lookup[p]] == blocks[b];
  }

  lemma SameBlocks(blocks: seq<seq<Value>>, blocks0: seq<seq<Value>>)
    requires forall block :: block in blocks <==> block in blocks0
    ensures forall v :: InSome(blocks, v) <==> InSome(blocks0, v)
  {
    forall v ensures InSome(blocks, v) <==> InSome(blocks0, v) {
      if b :| 0 <= b < |blocks| && v in blocks[b] {
        assert blocks[b] in blocks0;
      }
      if b :| 0 <= b < |blocks0| && v in blocks0[b] {
        assert blocks0[b] in blocks;
      }
    }
  }

  lemma OneValue(blocks: seq<seq<Value>>, value: Value)
    requires forall b :: 0 <= b < |blocks| ==> blocks[b] == seq(|blocks[b]|, _ => value)
    ensures forall v :: InSome(blocks, v) ==> v == value
  {
    forall v | InSome(blocks, v) ensures v == value {
      var b :| 0 <= b < |blocks| && v in blocks[b];
      assert blocks[b] == seq(|blocks[b]|, _ => value);
    }
  }

  lemma InChangedBlocks(blocks: seq<seq<Value>>, b: nat, k: nat, value: Value)
    requires b < |blocks| && k < |blocks[b]|
    ensures forall v :: InSome(blocks[b := blocks[b][k := value]], v) ==> InSome(blocks, v) || v == value
  {
    var changed := blocks[b := blocks[b][k := value]];
    forall v | InSome(changed, v) && v != value ensures InSome(blocks, v) {
      var c :| 0 <= c < |changed| && v in changed[c];
      assert v in blocks[c];
    }
  }

  /** Removing a duplicate of block `i` at `j` and redirecting its references to `i`. */
  lemma PopKeepsLookups<T>(lookup: seq<nat>, blocks: seq<T>, i: nat, j: nat)
    requires i < j < |blocks| && blocks[i] == blocks[j] && AllBelow(lookup, |blocks|)
    ensures SameLookups(RemapIndexes(lookup, j, i), RemoveAt(blocks, j), lookup, blocks)
  {
    forall p | 0 <= p < |lookup|
      ensures var q := RemapIndexes(lookup, j, i)[p];
              q < |blocks| - 1 && RemoveAt(blocks, j)[q] == blocks[lookup[p]]
    {
    }
  }

  lemma MemberAfterRemoval<T>(s: seq<T>, i: nat, j: nat, x: T)
    requires i < j < |s| && s[i] == s[j]
    ensures x in RemoveAt(s, j) <==> x in s
  {
    var r := RemoveAt(s, j);
    if x in s {
      var k :| 0 <= k < |s| && s[k] == x;
      assert r[if k == j then i else if k > j then k - 1 else k] == x;
    }
  }

  lemma {:induction false} PopKeepsFirstOccurrences<T>(s: seq<T>, i: nat, j: nat)
    requires i < j < |s| && s[i] == s[j]
    ensures FirstOccurrences(RemoveAt(s, j)) == FirstOccurrences(s)
  {
    var n := |s| - 1;
    var init := s[..n];
    if j == n {
      assert RemoveAt(s, j) == init && init[i] == s[n];
    } else {
      PopKeepsFirstOccurrences(init, i, j);
      var r := RemoveAt(s, j);
      assert r[..|r| - 1] == RemoveAt(init, j) && r[|r| - 1] == s[n];
      MemberAfterRemoval(init, i, j, s[n]);
    }
  }

  lemma {:induction false} DistinctIsFirstOccurrences<T>(s: seq<T>)
    requires Distinct(s)
    ensures FirstOccurrences(s) == s
  {
    if s != [] {
      DistinctIsFirstOccurrences(s[..|s| - 1]);
      assert s == s[..|s| - 1] + [s[|s| - 1]];
    }
  }

  lemma {:induction false} FirstOccurrencesMembers<T>(s: seq<T>)
    ensures forall x :: x in FirstOccurrences(s) <==> x in s
    ensures |FirstOccurrences(s)| <= |s|
  {
    if s != [] {
      FirstOccurrencesMembers(s[..|s| - 1]);
      assert s == s[..|s| - 1] + [s[|s| - 1]];
    }
  }

  /** Blocks before `i` differ from all later ones. */
  ghost predicate DistinctUpTo<T>(s: seq<T>, i: nat) {
    forall a, b :: 0 <= a < i && a < b < |s| ==> s[a] != s[b]
  }

  /** Block `i` differs from those after it and before `j`. */
  ghost predicate DiffersUpTo<T>(s: seq<T>, i: nat, j: nat) {
    i < |s| && forall b :: i < b < j && b < |s| ==> s[i] != s[b]
  }

  lemma PopKeepsDistinct<T>(s: seq<T>, i: nat, j: nat)
    requires i < j < |s| && DistinctUpTo(s, i) && DiffersUpTo(s, i, j)
    ensures DistinctUpTo(RemoveAt(s, j), i) && DiffersUpTo(RemoveAt(s, j), i, j)
  {
  }

  /** The initial second-level table `t`: `n` consecutive block numbers. */
  function NumberedTable(t: nat, n: nat): (table: seq<nat>)
    ensures |table| == n
  {
    seq(n, k requires k >= 0 => t * n + k)
  }

  lemma NumberedEntry(t: nat, n: nat, k: nat, count: nat)
    requires k < n && t < count
    ensures NumberedTable(t, n)[k] < count * n
    ensures Quotient(NumberedTable(t, n)[k], n) == t && Remainder(NumberedTable(t, n)[k], n) == k
  {
    Monotone(t + 1, count, n);
    assert (t + 1) * n == t * n + n;
    QuotientUnique(t * n + k, n, t);
  }

  lemma NumberedTablesApart(count: nat, n: nat)
    ensures forall t :: 0 <= t < count ==> AllBelow(NumberedTable(t, n), count * n)
    ensures forall t, k, t', k' ::
              0 <= t < count && 0 <= k < n && 0 <= t' < count && 0 <= k' < n && (t != t' || k != k') ==>
                NumberedTable(t, n)[k] != NumberedTable(t', n)[k']
  {
    forall t, k | 0 <= t < count && 0 <= k < n
      ensures NumberedTable(t, n)[k] < count * n
      ensures Quotient(NumberedTable(t, n)[k], n) == t && Remainder(NumberedTable(t, n)[k], n) == k
    {
      NumberedEntry(t, n, k, count);
    }
  }

  // ---- the generator

  /** `value` is the property of one of the first `n` code points. */
  ghost predicate Assigned(property: nat -> Value, n: nat, value: Value) {
    exists cp: nat :: cp < n && property(cp) == value
  }

  lemma NoneAssigned(property: nat -> Value)
    ensures forall v :: !Assigned(property, 0, v)
  {
  }

  lemma AssignedNext(property: nat -> Value, n: nat)
    ensures forall v :: Assigned(property, n + 1, v) <==> Assigned(property, n, v) || v == property(n)
  {
  }

  lemma NumberedTablesName(tables: seq<seq<nat>>, count: nat, n: nat)
    requires n > 0 && |tables| == count && forall t :: 0 <= t < count ==> tables[t] == NumberedTable(t, n)
    ensures forall b: nat :: b < count * n ==> InSome(tables, b)
  {
    forall b: nat | b < count * n ensures InSome(tables, b) {
      var t, k := Quotient(b, n), Remainder(b, n);
      QuotientBelow(b, count, n);
      assert tables[t][k] == b;
    }
  }

  class UnicodeTrieGenerator {
    const bmpFirstLevelIndexBits: nat
    const suppFirstLevelIndexBits: nat
    const suppSecondLevelIndexBits: nat
    const bmpDataOffsetBits: nat
    const suppDataOffsetBits: nat
    const suppFirstLevelIndexMax: nat

    var bmpLookup: seq<nat>
    var bmpData: seq<seq<Value>>
    var suppLookup1: seq<nat>
    var suppLookup2: seq<seq<nat>>
    var suppData: seq<seq<Value>>

    function BmpFirstLevelIndex(cp: nat): nat {
      Quotient(cp, Pow2(bmpDataOffsetBits))
    }

    function BmpDataOffset(cp: nat): nat {
      Remainder(cp, Pow2(bmpDataOffsetBits))
    }

    function SuppFirstLevelIndex(cp: nat): nat {
      Quotient(cp, Pow2(suppSecondLevelIndexBits + suppDataOffsetBits))
    }

    function SuppSecondLevelIndex(cp: nat): nat {
      Remainder(Quotient(cp, Pow2(suppDataOffsetBits)), Pow2(suppSecondLevelIndexBits))
    }

    function SuppDataOffset(cp: nat): nat {
      Remainder(cp, Pow2(suppDataOffsetBits))
    }

    ghost predicate ParametersFit() {
      && bmpFirstLevelIndexBits + bmpDataOffsetBits == 16
      && suppFirstLevelIndexBits + suppSecondLevelIndexBits + suppDataOffsetBits == 21
      && suppFirstLevelIndexMax == Quotient(MAX_CODE_POINT, Pow2(suppSecondLevelIndexBits + suppDataOffsetBits))
    }

    /** All tables have the size their indexes need, and all their entries are in range. */
    ghost predicate Valid()
      reads this
    {
      && ParametersFit()
      && |bmpLookup| == Pow2(bmpFirstLevelIndexBits) && AllBelow(bmpLookup, |bmpData|)
      && (forall b :: 0 <= b < |bmpData| ==> |bmpData[b]| == Pow2(bmpDataOffsetBits))
      && |suppLookup1| == suppFirstLevelIndexMax + 1 && AllBelow(suppLookup1, |suppLookup2|)
      && (forall t :: 0 <= t < |suppLookup2| ==>
            |suppLookup2[t]| == Pow2(suppSecondLevelIndexBits) && AllBelow(suppLookup2[t], |suppData|))
      && (forall b :: 0 <= b < |suppData| ==> |suppData[b]| == Pow2(suppDataOffsetBits))
    }

    /** No block and no second-level table is without use. */
    ghost predicate AllNamed()
      reads this
    {
      && Named(bmpLookup, |bmpData|) && Named(suppLookup1, |suppLookup2|)
      && forall b: nat :: b < |suppData| ==> InSome(suppLookup2, b)
    }

    lemma BmpIndexInRange(cp: nat)
      requires ParametersFit() && cp <= MAX_BMP
      ensures BmpFirstLevelIndex(cp) < Pow2(bmpFirstLevelIndexBits)
    {
      Pow2Of16And21();
      Pow2Sum(bmpFirstLevelIndexBits, bmpDataOffsetBits);
      QuotientBelow(cp, Pow2(bmpFirstLevelIndexBits), Pow2(bmpDataOffsetBits));
    }

    lemma SuppIndexInRange(cp: nat)
      requires ParametersFit() && cp <= MAX_CODE_POINT
      ensures SuppFirstLevelIndex(cp) <= suppFirstLevelIndexMax
    {
      QuotientMonotone(cp, MAX_CODE_POINT, Pow2(suppSecondLevelIndexBits + suppDataOffsetBits));
    }

    /** What the supplementary tables say of any code point, also of those the other tables are for. */
    function SuppValue(cp: nat): Value
      requires Valid() && cp <= MAX_CODE_POINT
      reads this
    {
      SuppIndexInRange(cp);
      suppData[suppLookup2[suppLookup1[SuppFirstLevelIndex(cp)]][SuppSecondLevelIndex(cp)]][SuppDataOffset(cp)]
    }

    function GetValue(cp: nat): Value
      requires Valid() && cp <= MAX_CODE_POINT
      reads this
    {
      if cp <= MAX_BMP then
        BmpIndexInRange(cp);
        bmpData[bmpLookup[BmpFirstLevelIndex(cp)]][BmpDataOffset(cp)]
      else
        SuppValue(cp)
    }

    /** How many data blocks of each kind and second-level tables there are. */
    ghost function BlockCounts(): (nat, nat, nat)
      reads this
    {
      (|bmpData|, |suppLookup2|, |suppData|)
    }

    /** Some data block has the value. */
    ghost predicate Stores(value: Value)
      reads this
    {
      InSome(bmpData, value) || InSome(suppData, value)
    }

    lemma ValuesAreStored(cp: nat)
      requires Valid() && cp <= MAX_CODE_POINT
      ensures Stores(GetValue(cp)) && Stores(SuppValue(cp))
    {
      SuppIndexInRange(cp);
      var b := suppLookup2[suppLookup1[SuppFirstLevelIndex(cp)]][SuppSecondLevelIndex(cp)];
      assert SuppValue(cp) == suppData[b][SuppDataOffset(cp)] && SuppValue(cp) in suppData[b];
      if cp <= MAX_BMP {
        BmpIndexInRange(cp);
        var c := bmpLookup[BmpFirstLevelIndex(cp)];
        assert GetValue(cp) == bmpData[c][BmpDataOffset(cp)] && GetValue(cp) in bmpData[c];
      }
    }

    // ---- creation and filling

    /** `create_tables` with the given parameters: one block for every table entry. */
    constructor (bmpFirst: nat, suppFirst: nat, suppSecond: nat)
      requires bmpFirst <= 16 && suppFirst + suppSecond <= 21
      ensures bmpFirstLevelIndexBits == bmpFirst
      ensures suppFirstLevelIndexBits == suppFirst && suppSecondLevelIndexBits == suppSecond
      ensures Valid() && Unshared() && AllNamed()
      ensures BlockCounts() == (Pow2(bmpFirst), suppFirstLevelIndexMax + 1, (suppFirstLevelIndexMax + 1) * Pow2(suppSecond))
      ensures forall cp :: 0 <= cp <= MAX_CODE_POINT ==> GetValue(cp) == Unset
    {
      hide NumberedTable, Quotient, Remainder, Pow2;
      bmpFirstLevelIndexBits, suppFirstLevelIndexBits, suppSecondLevelIndexBits := bmpFirst, suppFirst, suppSecond;
      bmpDataOffsetBits, suppDataOffsetBits := 16 - bmpFirst, 21 - suppFirst - suppSecond;
      var max := Quotient(MAX_CODE_POINT, Pow2(suppSecond + (21 - suppFirst - suppSecond)));
      suppFirstLevelIndexMax := max;
      bmpLookup := seq(Pow2(bmpFirst), i requires i >= 0 => i);
      bmpData := seq(Pow2(bmpFirst), _ => seq(Pow2(16 - bmpFirst), _ => Unset));
      suppLookup1 := seq(max + 1, i requires i >= 0 => i);
      suppLookup2 := seq(max + 1, t requires t >= 0 => NumberedTable(t, Pow2(suppSecond)));
      suppData := seq((max + 1) * Pow2(suppSecond), _ => seq(Pow2(21 - suppFirst - suppSecond), _ => Unset));
      new;
      NumberedTablesApart(max + 1, Pow2(suppSecond));
      assert forall t :: 0 <= t < |suppLookup2| ==> suppLookup2[t] == NumberedTable(t, Pow2(suppSecond));
      assert Unshared();
      NumberedTablesName(suppLookup2, max + 1, Pow2(suppSecond));
      forall b: nat | b < |bmpData| ensures b in bmpLookup { assert bmpLookup[b] == b; }
      forall b: nat | b < |suppLookup2| ensures b in suppLookup1 { assert suppLookup1[b] == b; }
      forall cp | 0 <= cp <= MAX_CODE_POINT
        ensures GetValue(cp) == Unset
      {
        if cp <= MAX_BMP {
          BmpIndexInRange(cp);
        } else {
          SuppIndexInRange(cp);
        }
      }
    }

    /** No two entries of the lookup tables share a block or a table. */
    ghost predicate Unshared()
      reads this
      requires Valid()
    {
      && Distinct(bmpLookup) && Distinct(suppLookup1)
      && forall t, k, t', k' ::
           0 <= t < |suppLookup2| && 0 <= k < |suppLookup2[t]| &&
           0 <= t' < |suppLookup2| && 0 <= k' < |suppLookup2[t']| && (t != t' || k != k') ==>
             suppLookup2[t][k] != suppLookup2[t'][k']
    }

    /** Its indexes into the tables determine a code point. */
    lemma IndexesDetermineCodePoint(c: nat, cp: nat)
      requires ParametersFit()
      requires || (BmpFirstLevelIndex(c) == BmpFirstLevelIndex(cp) && BmpDataOffset(c) == BmpDataOffset(cp))
               || (SuppFirstLevelIndex(c) == SuppFirstLevelIndex(cp) &&
                   SuppSecondLevelIndex(c) == SuppSecondLevelIndex(cp) && SuppDataOffset(c) == SuppDataOffset(cp))
      ensures c == cp
    {
      if SuppFirstLevelIndex(c) == SuppFirstLevelIndex(cp) && SuppSecondLevelIndex(c) == SuppSecondLevelIndex(cp) {
        var a, b := Pow2(suppSecondLevelIndexBits), Pow2(suppDataOffsetBits);
        Pow2Sum(suppSecondLevelIndexBits, suppDataOffsetBits);
        QuotientTwice(c, a, b);
        QuotientTwice(cp, a, b);
        assert Quotient(c, b) == Quotient(Quotient(c, b), a) * a + Remainder(Quotient(c, b), a);
        assert Quotient(cp, b) == Quotient(Quotient(cp, b), a) * a + Remainder(Quotient(cp, b), a);
      }
    }

    /** Which bits each index takes: code point `k` of BMP block `block` has these indexes, so the code points of a
        block differ in the offset only, which counts them. */
    lemma BmpIndexesInBlock(block: nat, k: nat)
      requires k < Pow2(bmpDataOffsetBits)
      ensures var cp := block * Pow2(bmpDataOffsetBits) + k;
              BmpFirstLevelIndex(cp) == block && BmpDataOffset(cp) == k
    {
      QuotientUnique(block * Pow2(bmpDataOffsetBits) + k, Pow2(bmpDataOffsetBits), block);
    }

    /** The same for the supplementary tables: blocks are counted by the second-level index, within the first. */
    lemma SuppIndexesInBlock(first: nat, second: nat, k: nat)
      requires second < Pow2(suppSecondLevelIndexBits) && k < Pow2(suppDataOffsetBits)
      ensures var cp := (first * Pow2(suppSecondLevelIndexBits) + second) * Pow2(suppDataOffsetBits) + k;
              SuppFirstLevelIndex(cp) == first && SuppSecondLevelIndex(cp) == second && SuppDataOffset(cp) == k
    {
      var a, b := Pow2(suppSecondLevelIndexBits), Pow2(suppDataOffsetBits);
      hide Pow2;
      var block := first * a + second;
      QuotientUnique(block * b + k, b, block);
      QuotientUnique(block, a, first);
      Pow2Sum(suppSecondLevelIndexBits, suppDataOffsetBits);
      QuotientTwice(block * b + k, a, b);
    }

    /** Neighbours in one block share the other indexes and are neighbours in it. */
    lemma NextInBlock(cp: nat)
      ensures SuppDataOffset(cp) + 1 < Pow2(suppDataOffsetBits) ==>
                && SuppFirstLevelIndex(cp + 1) == SuppFirstLevelIndex(cp)
                && SuppSecondLevelIndex(cp + 1) == SuppSecondLevelIndex(cp)
                && SuppDataOffset(cp + 1) == SuppDataOffset(cp) + 1
      ensures BmpDataOffset(cp) + 1 < Pow2(bmpDataOffsetBits) ==>
                BmpFirstLevelIndex(cp + 1) == BmpFirstLevelIndex(cp) && BmpDataOffset(cp + 1) == BmpDataOffset(cp) + 1
    {
      hide Pow2;
      if SuppDataOffset(cp) + 1 < Pow2(suppDataOffsetBits) {
        Pow2Sum(suppSecondLevelIndexBits, suppDataOffsetBits);
        var a, b := Pow2(suppSecondLevelIndexBits), Pow2(suppDataOffsetBits);
        QuotientUnique(cp + 1, b, Quotient(cp, b));
        QuotientTwice(cp, a, b);
        QuotientTwice(cp + 1, a, b);
      }
      if BmpDataOffset(cp) + 1 < Pow2(bmpDataOffsetBits) {
        QuotientUnique(cp + 1, Pow2(bmpDataOffsetBits), BmpFirstLevelIndex(cp));
      }
    }

    method SetValue(cp: nat, value: Value)
      requires Valid() && cp <= MAX_CODE_POINT
      modifies this`bmpData, this`suppData
      ensures Valid() && GetValue(cp) == value
      ensures BlockCounts() == old(BlockCounts())
      ensures (old(Unshared()) ==> Unshared()) && (old(AllNamed()) ==> AllNamed())
      ensures old(Unshared()) ==>
                forall c :: 0 <= c <= MAX_CODE_POINT && c != cp ==> GetValue(c) == old(GetValue(c))
      ensures old(Unshared()) ==>
                forall c :: 0 <= c <= MAX_CODE_POINT && (c != cp || cp <= MAX_BMP) ==> SuppValue(c) == old(SuppValue(c))
      ensures forall v :: Stores(v) ==> old(Stores(v)) || v == value
    {
      if cp <= MAX_BMP {
        SetBmpValue(cp, value);
      } else {
        SetSuppValue(cp, value);
      }
    }

    /** The case of `set_value` for the Basic Multilingual Plane. */
    method SetBmpValue(cp: nat, value: Value)
      requires Valid() && cp <= MAX_BMP
      modifies this`bmpData
      ensures Valid() && GetValue(cp) == value
      ensures (old(Unshared()) ==> Unshared()) && |bmpData| == old(|bmpData|)
      ensures old(Unshared()) ==>
                forall c :: 0 <= c <= MAX_CODE_POINT && c != cp ==> GetValue(c) == old(GetValue(c))
      ensures forall v :: InSome(bmpData, v) ==> old(InSome(bmpData, v)) || v == value
    {
      hide InSome;
      BmpIndexInRange(cp);
      var dataBlockIndex := bmpLookup[BmpFirstLevelIndex(cp)];
      InChangedBlocks(bmpData, dataBlockIndex, BmpDataOffset(cp), value);
      bmpData := bmpData[dataBlockIndex := bmpData[dataBlockIndex][BmpDataOffset(cp) := value]];
      if old(Unshared()) {
        forall c | 0 <= c <= MAX_CODE_POINT && c != cp
          ensures GetValue(c) == old(GetValue(c))
        {
          DifferentCells(c, cp);
        }
      }
    }

    /** The case of `set_value` for any other code point. */
    method SetSuppValue(cp: nat, value: Value)
      requires Valid() && MAX_BMP < cp <= MAX_CODE_POINT
      modifies this`suppData
      ensures Valid() && SuppValue(cp) == value
      ensures (old(Unshared()) ==> Unshared()) && |suppData| == old(|suppData|)
      ensures old(Unshared()) ==>
                forall c :: 0 <= c <= MAX_CODE_POINT && c != cp ==> SuppValue(c) == old(SuppValue(c))
      ensures forall v :: InSome(suppData, v) ==> old(InSome(suppData, v)) || v == value
    {
      hide InSome;
      SuppIndexInRange(cp);
      var secondLookupIndex := suppLookup1[SuppFirstLevelIndex(cp)];
      var dataBlockIndex := suppLookup2[secondLookupIndex][SuppSecondLevelIndex(cp)];
      InChangedBlocks(suppData, dataBlockIndex, SuppDataOffset(cp), value);
      suppData := suppData[dataBlockIndex := suppData[dataBlockIndex][SuppDataOffset(cp) := value]];
      if old(Unshared()) {
        forall c | 0 <= c <= MAX_CODE_POINT && c != cp
          ensures SuppValue(c) == old(SuppValue(c))
        {
          DifferentCells(c, cp);
        }
      }
    }

    /** In unshared tables different code points have different cells. */
    lemma DifferentCells(c: nat, cp: nat)
      requires Valid() && Unshared() && c <= MAX_CODE_POINT && cp <= MAX_CODE_POINT && c != cp
      ensures c <= MAX_BMP && cp <= MAX_BMP ==>
                && BmpFirstLevelIndex(c) < |bmpLookup| && BmpFirstLevelIndex(cp) < |bmpLookup|
                && (bmpLookup[BmpFirstLevelIndex(c)] != bmpLookup[BmpFirstLevelIndex(cp)]
                    || BmpDataOffset(c) != BmpDataOffset(cp))
      ensures SuppFirstLevelIndex(c) < |suppLookup1| && SuppFirstLevelIndex(cp) < |suppLookup1|
      ensures || suppLookup2[suppLookup1[SuppFirstLevelIndex(c)]][SuppSecondLevelIndex(c)]
                 != suppLookup2[suppLookup1[SuppFirstLevelIndex(cp)]][SuppSecondLevelIndex(cp)]
              || SuppDataOffset(c) != SuppDataOffset(cp)
    {
      if c <= MAX_BMP && cp <= MAX_BMP {
        BmpIndexInRange(c);
        BmpIndexInRange(cp);
        if BmpFirstLevelIndex(c) == BmpFirstLevelIndex(cp) && BmpDataOffset(c) == BmpDataOffset(cp) {
          IndexesDetermineCodePoint(c, cp);
        }
      }
      SuppIndexInRange(c);
      SuppIndexInRange(cp);
      if SuppFirstLevelIndex(c) == SuppFirstLevelIndex(cp) && SuppSecondLevelIndex(c) == SuppSecondLevelIndex(cp)
         && SuppDataOffset(c) == SuppDataOffset(cp) {
        IndexesDetermineCodePoint(c, cp);
      }
    }

    /** Stores `value` for every code point. */
    method Splat(value: Value)
      requires Valid()
      modifies this`bmpData, this`suppData
      ensures Valid() && (old(Unshared()) ==> Unshared()) && (old(AllNamed()) ==> AllNamed())
      ensures BlockCounts() == old(BlockCounts())
      ensures forall cp :: 0 <= cp <= MAX_CODE_POINT ==> GetValue(cp) == value && SuppValue(cp) == value
      ensures forall v :: Stores(v) ==> v == value
    {
      hide InSome, Quotient, Remainder, Pow2;
      bmpData := seq(|bmpData|, i requires 0 <= i < |bmpData| reads this => seq(|bmpData[i]|, _ => value));
      suppData := seq(|suppData|, i requires 0 <= i < |suppData| reads this => seq(|suppData[i]|, _ => value));
      OneValue(bmpData, value);
      OneValue(suppData, value);
      forall cp | 0 <= cp <= MAX_CODE_POINT
        ensures GetValue(cp) == value && SuppValue(cp) == value
      {
        if cp <= MAX_BMP {
          BmpIndexInRange(cp);
        }
        SuppIndexInRange(cp);
      }
    }

    /** Stores the property of every code point. */
    method FillFromUnicodeProperty(property: nat -> Value, defaultValue: Value)
      requires Valid() && Unshared()
      modifies this`bmpData, this`suppData
      ensures Valid() && Unshared() && (old(AllNamed()) ==> AllNamed())
      ensures BlockCounts() == old(BlockCounts())
      ensures forall cp :: 0 <= cp <= MAX_CODE_POINT ==> GetValue(cp) == property(cp)
      ensures forall v :: Stores(v) <==> v == defaultValue || Assigned(property, MAX_CODE_POINT + 1, v)
    {
      hide Assigned, Stores, GetValue, SuppValue, Unshared, AllNamed;
      NoneAssigned(property);
      Splat(defaultValue);
      for cp := 0 to MAX_CODE_POINT + 1
        invariant Valid() && Unshared() && (old(AllNamed()) ==> AllNamed())
        invariant BlockCounts() == old(BlockCounts())
        invariant forall c :: 0 <= c < cp ==> GetValue(c) == property(c)
        invariant SuppValue(0) == defaultValue
        invariant forall v :: Stores(v) ==> v == defaultValue || Assigned(property, cp, v)
      {
        SetValue(cp, property(cp));
        AssignedNext(property, cp);
      }
      StoresAllAssigned(property);
      ValuesAreStored(0);
    }

    lemma StoresAllAssigned(property: nat -> Value)
      requires Valid() && forall cp :: 0 <= cp <= MAX_CODE_POINT ==> GetValue(cp) == property(cp)
      ensures forall v :: Assigned(property, MAX_CODE_POINT + 1, v) ==> Stores(v)
    {
      hide Stores, GetValue;
      forall v | Assigned(property, MAX_CODE_POINT + 1, v) ensures Stores(v) {
        var cp: nat :| cp < MAX_CODE_POINT + 1 && property(cp) == v;
        ValuesAreStored(cp);
      }
    }

    method Verify(property: nat -> Value) returns (ok: bool)
      requires Valid()
      ensures ok <==> forall cp :: 0 <= cp <= MAX_CODE_POINT ==> GetValue(cp) == property(cp)
    {
      for cp := 0 to MAX_CODE_POINT + 1
        invariant forall c :: 0 <= c < cp ==> GetValue(c) == property(c)
      {
        if GetValue(cp) != property(cp) {
          return false;
        }
      }
      return true;
    }

    // ---- compression

    /** Compresses all tables, bottom-up. Every code point keeps its value. */
    method Freeze()
      requires Valid()
      modifies this
      ensures Valid()
      ensures forall cp :: 0 <= cp <= MAX_CODE_POINT ==> GetValue(cp) == old(GetValue(cp))
      ensures bmpData == FirstOccurrences(old(bmpData)) && suppData == FirstOccurrences(old(suppData))
      ensures Distinct(bmpData) && Distinct(suppData) && Distinct(suppLookup2)
      ensures old(AllNamed()) ==> AllNamed()
      ensures forall v :: Stores(v) <==> old(Stores(v))
      ensures |bmpData| <= old(|bmpData|) && |suppLookup2| <= old(|suppLookup2|) && |suppData| <= old(|suppData|)
    {
      DeduplicateBmpData();
      DeduplicateSuppData();
      ghost var tables := suppLookup2;
      DeduplicateSuppLookup2();
      if old(AllNamed()) {
        FrozenNamed(old(bmpLookup), old(bmpData), old(suppLookup1), old(suppLookup2), old(suppData), tables);
      }
      FirstOccurrencesMembers(old(bmpData));
      FirstOccurrencesMembers(old(suppData));
      FirstOccurrencesMembers(tables);
      SameBlocks(bmpData, old(bmpData));
      SameBlocks(suppData, old(suppData));
      forall b | 0 <= b < |bmpData|
        ensures |bmpData[b]| == Pow2(bmpDataOffsetBits)
      {
        assert bmpData[b] in old(bmpData);
      }
      forall b | 0 <= b < |suppData|
        ensures |suppData[b]| == Pow2(suppDataOffsetBits)
      {
        assert suppData[b] in old(suppData);
      }
      forall t | 0 <= t < |suppLookup2|
        ensures |suppLookup2[t]| == Pow2(suppSecondLevelIndexBits) && AllBelow(suppLookup2[t], |suppData|)
      {
        assert suppLookup2[t] in tables;
      }
      forall cp | 0 <= cp <= MAX_CODE_POINT
        ensures GetValue(cp) == old(GetValue(cp))
      {
        if cp <= MAX_BMP {
          BmpIndexInRange(cp);
        } else {
          SuppIndexInRange(cp);
        }
      }
    }

    lemma FrozenNamed(bmpLookup0: seq<nat>, bmpData0: seq<seq<Value>>, suppLookup10: seq<nat>, suppLookup20: seq<seq<nat>>,
                      suppData0: seq<seq<Value>>, tables: seq<seq<nat>>)
      requires AllBelow(bmpLookup0, |bmpData0|) && Named(bmpLookup0, |bmpData0|)
      requires SameLookups(bmpLookup, bmpData, bmpLookup0, bmpData0)
      requires Distinct(bmpData) && bmpData == FirstOccurrences(bmpData0)
      requires forall t :: 0 <= t < |suppLookup20| ==> AllBelow(suppLookup20[t], |suppData0|)
      requires forall b: nat :: b < |suppData0| ==> InSome(suppLookup20, b)
      requires SameTables(tables, suppData, suppLookup20, suppData0)
      requires Distinct(suppData) && suppData == FirstOccurrences(suppData0)
      requires AllBelow(suppLookup10, |tables|) && Named(suppLookup10, |tables|) && |tables| == |suppLookup20|
      requires SameLookups(suppLookup1, suppLookup2, suppLookup10, tables)
      requires Distinct(suppLookup2) && suppLookup2 == FirstOccurrences(tables)
      ensures AllNamed()
    {
      hide FirstOccurrences, SameLookups, Distinct, AllBelow;
      FirstOccurrencesMembers(bmpData0);
      FirstOccurrencesMembers(suppData0);
      FirstOccurrencesMembers(tables);
      forall b: nat | b < |bmpData| ensures b in bmpLookup {
        assert bmpData[b] in bmpData0;
        StillNamed(bmpLookup, bmpData, bmpLookup0, bmpData0, b);
      }
      forall b: nat | b < |suppLookup2| ensures b in suppLookup1 {
        assert suppLookup2[b] in tables;
        StillNamed(suppLookup1, suppLookup2, suppLookup10, tables, b);
      }
      forall b: nat | b < |suppData| ensures InSome(suppLookup2, b) {
        assert suppData[b] in suppData0;
        var b0: nat :| b0 < |suppData0| && suppData0[b0] == suppData[b];
        assert InSome(suppLookup20, b0);
        hide Named;
        var t :| 0 <= t < |suppLookup20| && b0 in suppLookup20[t];
        StillNamed(tables[t], suppData, suppLookup20[t], suppData0, b);
        assert tables[t] in suppLookup2;
      }
    }

    /** Compressed as far as sharing goes: two second-level tables of a frozen trie, however
        numbered, answer differently for some second-level index and some offset. */
    lemma FrozenTablesDiffer(a: nat, b: nat)
      requires Valid() && Distinct(suppData) && Distinct(suppLookup2)
      requires a < b < |suppLookup2|
      ensures exists k, offset ::
                0 <= k < Pow2(suppSecondLevelIndexBits) && 0 <= offset < Pow2(suppDataOffsetBits) &&
                suppData[suppLookup2[a][k]][offset] != suppData[suppLookup2[b][k]][offset]
    {
      assert suppLookup2[a] != suppLookup2[b];
      var k :| 0 <= k < |suppLookup2[a]| && suppLookup2[a][k] != suppLookup2[b][k];
      var x, y := suppData[suppLookup2[a][k]], suppData[suppLookup2[b][k]];
      assert x != y;
      var offset :| 0 <= offset < |x| && x[offset] != y[offset];
    }

    /** Keeps the first of each group of equal BMP data blocks. */
    method DeduplicateBmpData()
      requires AllBelow(bmpLookup, |bmpData|)
      modifies this`bmpLookup, this`bmpData
      ensures SameLookups(bmpLookup, bmpData, old(bmpLookup), old(bmpData))
      ensures Distinct(bmpData) && bmpData == FirstOccurrences(old(bmpData))
    {
      hide FirstOccurrences, RemapIndexes;
      var i := 0;
      while i < |bmpData|
        invariant SameLookups(bmpLookup, bmpData, old(bmpLookup), old(bmpData))
        invariant DistinctUpTo(bmpData, i)
        invariant FirstOccurrences(bmpData) == FirstOccurrences(old(bmpData))
        decreases |bmpData| - i
      {
        ghost var count := |bmpData|;
        var j := i + 1;
        while j < |bmpData|
          invariant i < j && |bmpData| <= count
          invariant SameLookups(bmpLookup, bmpData, old(bmpLookup), old(bmpData))
          invariant DistinctUpTo(bmpData, i) && DiffersUpTo(bmpData, i, j)
          invariant FirstOccurrences(bmpData) == FirstOccurrences(old(bmpData))
          decreases |bmpData| - j
        {
          if bmpData[i] == bmpData[j] {
            PopKeepsLookups(bmpLookup, bmpData, i, j);
            PopKeepsFirstOccurrences(bmpData, i, j);
            PopKeepsDistinct(bmpData, i, j);
            bmpData := RemoveAt(bmpData, j);
            bmpLookup := RemapIndexes(bmpLookup, j, i);
          } else {
            j := j + 1;
          }
        }
        i := i + 1;
      }
      DistinctIsFirstOccurrences(bmpData);
    }

    /** Entry by entry, the second-level tables find in `data` what `tables0` finds in `data0`. */
    static ghost predicate SameTables(tables: seq<seq<nat>>, data: seq<seq<Value>>,
                                      tables0: seq<seq<nat>>, data0: seq<seq<Value>>)
      requires forall t :: 0 <= t < |tables0| ==> AllBelow(tables0[t], |data0|)
    {
      |tables| == |tables0| &&
      forall t :: 0 <= t < |tables| ==> SameLookups(tables[t], data, tables0[t], data0)
    }

    /** Keeps the first of each group of equal supplementary data blocks. */
    method DeduplicateSuppData()
      requires forall t :: 0 <= t < |suppLookup2| ==> AllBelow(suppLookup2[t], |suppData|)
      modifies this`suppLookup2, this`suppData
      ensures SameTables(suppLookup2, suppData, old(suppLookup2), old(suppData))
      ensures Distinct(suppData) && suppData == FirstOccurrences(old(suppData))
    {
      hide FirstOccurrences, RemapIndexes;
      var i := 0;
      while i < |suppData|
        invariant SameTables(suppLookup2, suppData, old(suppLookup2), old(suppData))
        invariant DistinctUpTo(suppData, i)
        invariant FirstOccurrences(suppData) == FirstOccurrences(old(suppData))
        decreases |suppData| - i
      {
        ghost var count := |suppData|;
        var j := i + 1;
        while j < |suppData|
          invariant i < j && |suppData| <= count
          invariant SameTables(suppLookup2, suppData, old(suppLookup2), old(suppData))
          invariant DistinctUpTo(suppData, i) && DiffersUpTo(suppData, i, j)
          invariant FirstOccurrences(suppData) == FirstOccurrences(old(suppData))
          decreases |suppData| - j
        {
          if suppData[i] == suppData[j] {
            ghost var tables, data := suppLookup2, suppData;
            PopKeepsFirstOccurrences(suppData, i, j);
            PopKeepsDistinct(suppData, i, j);
            suppData := RemoveAt(suppData, j);
            for k := 0 to |suppLookup2|
              invariant suppData == RemoveAt(data, j) && |suppLookup2| == |tables|
              invariant forall t :: 0 <= t < k ==> SameLookups(suppLookup2[t], suppData, tables[t], data)
              invariant forall t :: k <= t < |tables| ==> suppLookup2[t] == tables[t]
            {
              PopKeepsLookups(tables[k], data, i, j);
              suppLookup2 := suppLookup2[k := RemapIndexes(suppLookup2[k], j, i)];
            }
            assert SameTables(suppLookup2, suppData, tables, data);
          } else {
            j := j + 1;
          }
        }
        i := i + 1;
      }
      DistinctIsFirstOccurrences(suppData);
    }

    /** Keeps the first of each group of equal second-level lookup tables. */
    method DeduplicateSuppLookup2()
      requires AllBelow(suppLookup1, |suppLookup2|)
      modifies this`suppLookup1, this`suppLookup2
      ensures SameLookups(suppLookup1, suppLookup2, old(suppLookup1), old(suppLookup2))
      ensures Distinct(suppLookup2) && suppLookup2 == FirstOccurrences(old(suppLookup2))
    {
      hide FirstOccurrences, RemapIndexes;
      var i := 0;
      while i < |suppLookup2|
        invariant SameLookups(suppLookup1, suppLookup2, old(suppLookup1), old(suppLookup2))
        invariant DistinctUpTo(suppLookup2, i)
        invariant FirstOccurrences(suppLookup2) == FirstOccurrences(old(suppLookup2))
        decreases |suppLookup2| - i
      {
        ghost var count := |suppLookup2|;
        var j := i + 1;
        while j < |suppLookup2|
          invariant i < j && |suppLookup2| <= count
          invariant SameLookups(suppLookup1, suppLookup2, old(suppLookup1), old(suppLookup2))
          invariant DistinctUpTo(suppLookup2, i) && DiffersUpTo(suppLookup2, i, j)
          invariant FirstOccurrences(suppLookup2) == FirstOccurrences(old(suppLookup2))
          decreases |suppLookup2| - j
        {
          if suppLookup2[i] == suppLookup2[j] {
            PopKeepsLookups(suppLookup1, suppLookup2, i, j);
            PopKeepsFirstOccurrences(suppLookup2, i, j);
            PopKeepsDistinct(suppLookup2, i, j);
            suppLookup2 := RemoveAt(suppLookup2, j);
            suppLookup1 := RemapIndexes(suppLookup1, j, i);
          } else {
            j := j + 1;
          }
        }
        i := i + 1;
      }
      DistinctIsFirstOccurrences(suppLookup2);
    }
  }
}

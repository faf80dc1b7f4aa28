/** The RC4 stream cipher of benchmark/single-source/RC4.swift. */
module Rc4Cipher {

  type Byte = x: int | 0 <= x < 256

  /** Addition that wraps around. */
  function Plus(a: Byte, b: Byte): Byte {
    if a + b < 256 then a + b else a + b - 256
  }

  function Minus(a: Byte, b: Byte): Byte {
    if a < b then a + 256 - b else a - b
  }

  lemma MinusUndoesPlus(a: Byte, b: Byte)
    ensures Minus(Plus(a, b), b) == a == Plus(Minus(a, b), b)
  {
  }

  /** Data bytes are only combined bit by bit. */
  type Bits = bv8

  function ToBits(a: Byte): Bits {
    a as Bits
  }

  // ---- permutations

  function Swapped(s: seq<Byte>, x: nat, y: nat): (r: seq<Byte>)
    requires x < |s| && y < |s|
    ensures |r| == |s|
  {
    s[x := s[y]][y := s[x]]
  }

  /** Every byte is at exactly one place. */
  ghost predicate Permutation(s: seq<Byte>) {
    |s| == 256 && multiset(s) == multiset(Identity(256))
  }

  function Identity(n: nat): (s: seq<Byte>)
    requires n <= 256
    ensures |s| == n
  {
    seq(n, i requires 0 <= i < n => i)
  }

  lemma SwapPermutes(s: seq<Byte>, x: nat, y: nat)
    requires x < |s| && y < |s|
    ensures multiset(Swapped(s, x, y)) == multiset(s)
  {
  }

  lemma {:induction false} CountIdentity(n: nat, b: Byte)
    requires n <= 256
    ensures multiset(Identity(n))[b] == if b < n then 1 else 0
  {
    if n > 0 {
      CountIdentity(n - 1, b);
      assert Identity(n) == Identity(n - 1) + [n - 1];
    }
  }

  lemma PermutationIsBijection(s: seq<Byte>)
    requires Permutation(s)
    ensures forall b: Byte :: b in s
    ensures forall i, j :: 0 <= i < j < 256 ==> s[i] != s[j]
  {
    forall b: Byte ensures b in s {
      CountIdentity(256, b);
      assert b in multiset(s);
    }
    forall i, j | 0 <= i < j < 256 ensures s[i] != s[j] {
      CountIdentity(256, s[i]);
      assert s == s[..i] + [s[i]] + s[i + 1..j] + [s[j]] + s[j + 1..];
    }
  }

  // ---- the generator

  /** The state of a cipher. The source's array always has 256 elements. */
  datatype Cipher = Cipher(s: seq<Byte>, i: Byte, j: Byte)

  predicate Sized(c: Cipher) {
    |c.s| == 256
  }

  function Step(c: Cipher): (r: Cipher)
    requires Sized(c)
    ensures Sized(r)
  {
    var i := Plus(c.i, 1);
    var j := Plus(c.j, c.s[i]);
    Cipher(Swapped(c.s, i, j), i, j)
  }

  /** The byte a state gives out, once it has been stepped to. */
  function Output(c: Cipher): Byte
    requires Sized(c)
  {
    c.s[Plus(c.s[c.i], c.s[c.j])]
  }

  /** The state before a step. */
  function StepBack(c: Cipher): (r: Cipher)
    requires Sized(c)
    ensures Sized(r)
  {
    Cipher(Swapped(c.s, c.i, c.j), Minus(c.i, 1), Minus(c.j, c.s[c.j]))
  }

  /** A step loses nothing, and every state is a step of just one: the step is a bijection on the states. */
  lemma StepIsBijection(c: Cipher)
    requires Sized(c)
    ensures StepBack(Step(c)) == c
    ensures Step(StepBack(c)) == c
  {
    hide Plus, Minus;
    var i := Plus(c.i, 1);
    MinusUndoesPlus(c.i, 1);
    MinusUndoesPlus(c.j, c.s[i]);
    MinusUndoesPlus(c.j, c.s[c.j]);
    assert StepBack(Step(c)).s == c.s;
    assert Step(StepBack(c)).s == c.s;
  }

  lemma StepIsInjective(c: Cipher, d: Cipher)
    requires Sized(c) && Sized(d) && Step(c) == Step(d)
    ensures c == d
  {
    StepIsBijection(c);
    StepIsBijection(d);
  }

  function After(c: Cipher, n: nat): (r: Cipher)
    requires Sized(c)
    ensures Sized(r)
    decreases n
  {
    if n == 0 then c else After(Step(c), n - 1)
  }

  /** The states with J one ahead of I and 1 at J, from which the generator cycles early. */
  predicate Finney(c: Cipher)
    requires Sized(c)
  {
    c.j == Plus(c.i, 1) && c.s[c.j] == 1
  }

  lemma FinneyOnlyFromFinney(c: Cipher)
    requires Sized(c)
    ensures Finney(Step(c)) <==> Finney(c)
  {
  }

  /** A state with both indexes zero, as in a new cipher, never leads to one of them, and stays a permutation. */
  lemma {:induction false} Reachable(c: Cipher, n: nat)
    requires Sized(c) && Permutation(c.s) && !Finney(c)
    ensures Permutation(After(c, n).s) && !Finney(After(c, n))
    decreases n
  {
    if n > 0 {
      FinneyOnlyFromFinney(c);
      SwapPermutes(c.s, Plus(c.i, 1), Plus(c.j, c.s[Plus(c.i, 1)]));
      Reachable(Step(c), n - 1);
    }
  }

  // ---- the key schedule

  /** The array and the index j after `n` rounds of the key schedule. */
  function Scheduled(key: seq<Byte>, n: nat): (r: (seq<Byte>, Byte))
    requires |key| > 0 && n <= 256
    ensures |r.0| == 256
  {
    if n == 0 then (Identity(256), 0)
    else
      var (s, j0) := Scheduled(key, n - 1);
      var j := Plus(Plus(j0, s[n - 1]), key[(n - 1) % |key|]);
      (Swapped(s, n - 1, j), j)
  }

  /** Whatever the key, the schedule ends in a permutation. */
  lemma {:induction false} ScheduledIsPermutation(key: seq<Byte>, n: nat)
    requires |key| > 0 && n <= 256
    ensures Permutation(Scheduled(key, n).0)
  {
    if n > 0 {
      ScheduledIsPermutation(key, n - 1);
      var (s, j0) := Scheduled(key, n - 1);
      SwapPermutes(s, n - 1, Plus(Plus(j0, s[n - 1]), key[(n - 1) % |key|]));
    }
  }

  // ---- what the schedule takes from the key

  lemma FirstRound(key: seq<Byte>)
    requires |key| > 0
    ensures Scheduled(key, 1) == (Swapped(Identity(256), 0, key[0]), key[0])
  {
    assert Scheduled(key, 0) == (Identity(256), 0);
  }

  lemma {:induction false} SameBeginning(key: seq<Byte>, other: seq<Byte>, n: nat)
    requires |key| > 0 && |other| > 0 && n <= 256
    requires forall k :: 0 <= k < n ==> key[k % |key|] == other[k % |other|]
    ensures Scheduled(key, n) == Scheduled(other, n)
  {
    if n > 0 {
      SameBeginning(key, other, n - 1);
    }
  }

  lemma RoundDiffers(key: seq<Byte>, other: seq<Byte>, i: nat)
    requires |key| > 0 && |other| > 0 && i < 256
    requires Scheduled(key, i) == Scheduled(other, i) && key[i % |key|] != other[i % |other|]
    ensures Scheduled(key, i + 1).1 != Scheduled(other, i + 1).1
  {
    hide Swapped;
    var (s, j) := Scheduled(key, i);
    DifferentSums(Plus(j, s[i]), key[i % |key|], other[i % |other|]);
  }

  lemma DifferentSums(a: Byte, b: Byte, c: Byte)
    ensures Plus(a, b) == Plus(a, c) ==> b == c
  {
  }

  /** The schedule comes apart in the very round that takes the first byte in which two keys differ, so its rounds
      tell the whole key. */
  lemma KeysDiffer(key: seq<Byte>, other: seq<Byte>, i: nat)
    requires |key| == |other| <= 256 && i < |key|
    requires key[..i] == other[..i] && key[i] != other[i]
    ensures forall n :: 0 <= n <= i ==> Scheduled(key, n) == Scheduled(other, n)
    ensures Scheduled(key, i + 1).1 != Scheduled(other, i + 1).1
  {
    hide Scheduled;
    forall k | 0 <= k <= i ensures k % |key| == k {
      SmallRemainder(k, |key|);
    }
    forall k | 0 <= k < i ensures key[k] == other[k] {
      assert key[k] == key[..i][k] && other[k] == other[..i][k];
    }
    forall n | 0 <= n <= i ensures Scheduled(key, n) == Scheduled(other, n) {
      SameBeginning(key, other, n);
    }
    RoundDiffers(key, other, i);
  }

  lemma SmallRemainder(k: nat, d: nat)
    requires k < d
    ensures k % d == k
  {
  }

  /** A key is repeated as often as it takes. */
  lemma KeyRepeats(key: seq<Byte>, n: nat)
    requires |key| > 0 && n <= 256
    ensures Scheduled(key + key, n) == Scheduled(key, n)
  {
    forall k | 0 <= k < n ensures (key + key)[k % |key + key|] == key[k % |key|] {
      TwiceAsLong(k, |key|, |key + key|);
      assert k % |key + key| == Remainder(k, |key + key|) && k % |key| == Remainder(k, |key|);
    }
    SameBeginning(key + key, key, n);
  }

  function Remainder(k: nat, d: nat): (r: nat)
    requires d > 0
    ensures r < d
  {
    k % d
  }

  lemma TwiceAsLong(k: nat, d: nat, e: nat)
    requires 0 < d && e == 2 * d
    ensures Remainder(k, e) == Remainder(k, d) || Remainder(k, e) == Remainder(k, d) + d
  {
    hide Remainder;
    var q := Quotient(k, d);
    var h := q / 2;
    if q == 2 * h {
      Regrouped(h, d, e);
      RemainderIs(k, e, h, Remainder(k, d));
    } else {
      Regrouped(h, d, e);
      RemainderIs(k, e, h, Remainder(k, d) + d);
    }
  }

  lemma Quotient(k: nat, d: nat) returns (q: nat)
    requires d > 0
    ensures k == q * d + Remainder(k, d)
  {
    q := k / d;
  }

  lemma Regrouped(h: nat, d: nat, e: nat)
    requires e == 2 * d
    ensures h * e == (2 * h) * d && (2 * h + 1) * d == h * e + d
  {
  }

  lemma RemainderIs(k: nat, d: nat, q: nat, r: nat)
    requires r < d && k == q * d + r
    ensures Remainder(k, d) == r
  {
    var m := k / d;
    assert m * d <= k < (m + 1) * d && q * d <= k < (q + 1) * d;
    MultiplesInOrder(m + 1, q, d);
    MultiplesInOrder(q + 1, m, d);
  }

  lemma MultiplesInOrder(a: nat, b: nat, d: nat)
    ensures a <= b ==> a * d <= b * d
  {
    if a <= b {
      assert b * d == a * d + (b - a) * d;
    }
  }

  /** The key that undoes every move of j: 0, 0, 255, 254 and so on down to 2. */
  function StillKey(): (key: seq<Byte>)
    ensures |key| == 256
  {
    seq(256, i requires 0 <= i < 256 => if i < 2 then 0 else 257 - i)
  }

  lemma {:induction false} StandingStill(n: nat)
    requires n <= 256
    ensures Scheduled(StillKey(), n) == (Identity(256), if n == 0 then 0 else n - 1)
  {
    if n > 0 {
      StandingStill(n - 1);
      Round(StillKey(), n);
      hide Scheduled;
      SmallRemainder(n - 1, 256);
      SwappedWithItself(Identity(256), n - 1);
    }
  }

  lemma SwappedWithItself(s: seq<Byte>, x: nat)
    requires x < |s|
    ensures Swapped(s, x, x) == s
  {
  }

  /** The first four rounds for the key "Key". */
  lemma RoundsOfKey()
    ensures var key := [75, 101, 121];
            && Scheduled(key, 1).1 == 75 && Scheduled(key, 2).1 == 177
            && Scheduled(key, 3).1 == 44 && Scheduled(key, 4).1 == 122
  {
    var key := [75, 101, 121];
    FirstRound(key);
    Round(key, 2);
    Round(key, 3);
    Round(key, 4);
    hide Scheduled;
    assert Scheduled(key, 1).0[1] == 1;
    assert Scheduled(key, 2).0[2] == 2;
    assert Scheduled(key, 3).0[3] == 3;
  }

  lemma Round(key: seq<Byte>, n: nat)
    requires |key| > 0 && 1 <= n <= 256
    ensures var (s, j) := Scheduled(key, n - 1);
            Scheduled(key, n).1 == Plus(Plus(j, s[n - 1]), key[(n - 1) % |key|])
    ensures Scheduled(key, n).0 == Swapped(Scheduled(key, n - 1).0, n - 1, Scheduled(key, n).1)
  {
    hide Swapped;
  }

  // ---- encryption

  function Keystream(c: Cipher, n: nat): (k: seq<Bits>)
    requires Sized(c)
    ensures |k| == n
    decreases n
  {
    if n == 0 then [] else [ToBits(Output(Step(c)))] + Keystream(Step(c), n - 1)
  }

  function Mixed(x: Bits, k: Bits): Bits {
    x ^ k
  }

  function Masked(data: seq<Bits>, mask: seq<Bits>): (r: seq<Bits>)
    requires |data| == |mask|
    ensures |r| == |data|
  {
    seq(|data|, i requires 0 <= i < |data| => Mixed(data[i], mask[i]))
  }

  function Encrypted(c: Cipher, data: seq<Bits>): (r: seq<Bits>)
    requires Sized(c)
    ensures |r| == |data|
  {
    Masked(data, Keystream(c, |data|))
  }

  /** What a cipher whose array is the identity gives out first. */
  lemma KeystreamOfIdentity()
    ensures var c := Cipher(Identity(256), 0, 0);
            Output(Step(c)) == 2 && Output(Step(Step(c))) == 5 && Output(Step(Step(Step(c)))) == 7
  {
    var c1 := Step(Cipher(Identity(256), 0, 0));
    assert c1 == Cipher(Identity(256), 1, 1);
    var c2 := Step(c1);
    assert c2 == Cipher(Swapped(Identity(256), 2, 3), 2, 3);
    var c3 := Step(c2);
    assert c3 == Cipher(Swapped(Swapped(Identity(256), 2, 3), 3, 5), 3, 5);
  }

  lemma MixedTwice(x: Bits, k: Bits)
    ensures Mixed(Mixed(x, k), k) == x
  {
  }

  /** A second cipher in the same state undoes the encryption. */
  lemma EncryptedTwice(c: Cipher, data: seq<Bits>)
    requires Sized(c)
    ensures Encrypted(c, Encrypted(c, data)) == data
  {
    var k := Keystream(c, |data|);
    hide Mixed;
    forall i | 0 <= i < |data| ensures Mixed(Mixed(data[i], k[i]), k[i]) == data[i] {
      MixedTwice(data[i], k[i]);
    }
  }

  lemma {:induction false} KeystreamAt(c: Cipher, n: nat, k: nat)
    requires Sized(c) && k < n
    ensures Keystream(c, n)[k] == ToBits(Output(After(c, k + 1)))
    decreases n
  {
    hide Step, Output, ToBits;
    if k > 0 {
      KeystreamAt(Step(c), n - 1, k - 1);
    } else {
      assert After(c, 1) == After(Step(c), 0) == Step(c);
    }
  }

  lemma {:induction false} AfterSum(c: Cipher, m: nat, n: nat)
    requires Sized(c)
    ensures After(After(c, m), n) == After(c, m + n)
    decreases m
  {
    hide Step;
    if m > 0 {
      AfterSum(Step(c), m - 1, n);
    }
  }

  lemma {:induction false} KeystreamInParts(c: Cipher, m: nat, n: nat, whole: nat)
    requires Sized(c) && whole == m + n
    ensures Keystream(c, whole) == Keystream(c, m) + Keystream(After(c, m), n)
    decreases m
  {
    hide Step, Output, ToBits;
    if m > 0 {
      KeystreamInParts(Step(c), m - 1, n, whole - 1);
    }
  }

  lemma MaskedInParts(a: seq<Bits>, b: seq<Bits>, k: seq<Bits>, l: seq<Bits>)
    requires |a| == |k| && |b| == |l|
    ensures Masked(a + b, k + l) == Masked(a, k) + Masked(b, l)
  {
  }

  /** Encrypting a message in two parts, one after the other, is encrypting it whole. */
  lemma EncryptedInParts(c: Cipher, a: seq<Bits>, b: seq<Bits>)
    requires Sized(c)
    ensures Encrypted(c, a + b) == Encrypted(c, a) + Encrypted(After(c, |a|), b)
  {
    hide Step, After, Keystream, Masked, Sized;
    var k, l := Keystream(c, |a|), Keystream(After(c, |a|), |b|);
    KeystreamInParts(c, |a|, |b|, |a + b|);
    MaskedInParts(a, b, k, l);
  }

  // ---- the cipher

  class RC4 {
    var state: array<Byte>
    var indexI: Byte
    var indexJ: Byte

    ghost predicate Valid()
      reads this
    {
      state.Length == 256
    }

    ghost function Value(): (c: Cipher)
      requires Valid()
      reads this, state
      ensures Sized(c)
    {
      Cipher(state[..], indexI, indexJ)
    }

    constructor ()
      ensures Valid() && fresh(state)
      ensures indexI == indexJ == 0 && forall k :: 0 <= k < 256 ==> state[k] == 0
    {
      state := new Byte[256](_ => 0);
      indexI, indexJ := 0, 0;
    }

    method SwapByIndex(x: nat, y: nat)
      requires Valid() && x < 256 && y < 256
      modifies state
      ensures state[..] == Swapped(old(state[..]), x, y)
    {
      var t1 := state[x];
      var t2 := state[y];
      state[x] := t2;
      state[y] := t1;
    }

    /** The indexes of the generator are left as they are, so a cipher that was used already goes on from them. */
    method Initialize(key: seq<Byte>)
      requires Valid() && |key| > 0
      modifies state
      ensures Valid() && state[..] == Scheduled(key, 256).0
      ensures Permutation(state[..])
    {
      for i := 0 to 256
        invariant forall k :: 0 <= k < i ==> state[k] == k
      {
        state[i] := i;
      }
      assert state[..] == Identity(256);
      var j: Byte := 0;
      for i := 0 to 256
        invariant (state[..], j) == Scheduled(key, i)
      {
        j := Plus(Plus(j, state[i]), key[i % |key|]);
        SwapByIndex(i, j);
      }
      ScheduledIsPermutation(key, 256);
    }

    method Next() returns (r: Byte)
      requires Valid()
      modifies this`indexI, this`indexJ, state
      ensures Valid()
      ensures Value() == Step(old(Value())) && r == Output(Value())
      ensures old(Permutation(state[..])) ==> Permutation(state[..])
    {
      indexI := Plus(indexI, 1);
      indexJ := Plus(indexJ, state[indexI]);
      SwapPermutes(state[..], indexI, indexJ);
      SwapByIndex(indexI, indexJ);
      r := state[Plus(state[indexI], state[indexJ])];
    }

    method Encrypt(data: array<Bits>)
      requires Valid() && data as object != state
      modifies this`indexI, this`indexJ, state, data
      ensures Valid()
      ensures data[..] == Encrypted(old(Value()), old(data[..]))
      ensures Value() == After(old(Value()), data.Length)
    {
      hide Step, Output, ToBits, Keystream, Mixed;
      ghost var c := Value();
      for i := 0 to data.Length
        invariant Valid() && Value() == After(c, i)
        invariant forall k :: 0 <= k < i ==> data[k] == Mixed(old(data[k]), Keystream(c, data.Length)[k])
        invariant forall k :: i <= k < data.Length ==> data[k] == old(data[k])
      {
        AfterSum(c, i, 1);
        KeystreamAt(c, data.Length, i);
        var k := Next();
        data[i] := Mixed(data[i], ToBits(k));
      }
    }
  }

  /** Two new ciphers with the same key: what one encrypts, the other decrypts. */
  method EncryptThenDecrypt(key: seq<Byte>, data: array<Bits>)
    requires |key| > 0
    modifies data
    ensures data[..] == old(data[..])
  {
    var sender := new RC4();
    sender.Initialize(key);
    sender.Encrypt(data);
    var receiver := new RC4();
    receiver.Initialize(key);
    EncryptedTwice(receiver.Value(), old(data[..]));
    receiver.Encrypt(data);
  }

  /** A new cipher with the key that leaves the identity gives 2, 5 and 7. */
  method FirstThree() returns (a: Byte, b: Byte, c: Byte)
    ensures a == 2 && b == 5 && c == 7
  {
    hide Step, Output, StillKey, Scheduled, Permutation;
    var cipher := new RC4();
    cipher.Initialize(StillKey());
    StandingStill(256);
    KeystreamOfIdentity();
    a := cipher.Next();
    b := cipher.Next();
    c := cipher.Next();
  }

  /** In every run of a cipher new and keyed, at every step. */
  lemma EveryKeyedRun(key: seq<Byte>, n: nat)
    requires |key| > 0
    ensures var c := After(Cipher(Scheduled(key, 256).0, 0, 0), n);
            Permutation(c.s) && !Finney(c)
  {
    ScheduledIsPermutation(key, 256);
    var c := Cipher(Scheduled(key, 256).0, 0, 0);
    Reachable(c, n);
  }
}

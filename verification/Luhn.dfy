/** The lazy Luhn checksum of benchmark/single-source/LuhnAlgoLazy.swift. */
module LuhnChecksum {
  import opened Options
  import opened Sequences

  // ---- the pieces of the pipeline

  /** The values a transform gives, in order, without the nils. */
  function MapSome<T, U>(s: seq<T>, transform: T -> Option<U>): seq<U> {
    if s == [] then []
    else
      match transform(s[0])
      case Some(u) => [u] + MapSome(s[1..], transform)
      case None => MapSome(s[1..], transform)
  }

  predicate IsMultipleOf(n: int, of: nat)
    requires of > 0
  {
    n % of == 0
  }

  /** One character read as a number: a sign alone is not one. */
  function CharToInt(c: char): (r: Option<int>)
    ensures r.Some? ==> 0 <= r.value < 10
  {
    if '0' <= c <= '9' then Some(c as int - '0' as int) else None
  }

  function Double(x: int): int {
    x * 2
  }

  function CombineDoubleDigits(x: int): int {
    if 10 <= x <= 18 then x - 9 else x
  }

  /** What a digit with `i` digits to its right adds to the sum. */
  function Contribution(i: nat, d: int): int {
    CombineDoubleDigits(if IsMultipleOf(i + 1, 2) then Double(d) else d)
  }

  /** The sum over digits taken from the right, the first of them with `i` to its right. */
  function Total(digits: seq<int>, i: nat := 0): int {
    if digits == [] then 0 else Contribution(i, digits[0]) + Total(digits[1..], i + 1)
  }

  function Digits(text: string): seq<int> {
    MapSome(Reversed(text), CharToInt)
  }

  predicate Accepted(text: string) {
    IsMultipleOf(Total(Digits(text)), 10)
  }

  /** The element at hand, if there is one, and those behind it. */
  function Ahead<T>(element: Option<T>, rest: seq<T>): seq<T> {
    match element
    case Some(x) => [x] + rest
    case None => rest
  }

  // ---- the lazy pipeline, which reads the text once

  /** The iterator behind a lazy `mapSome`. */
  class MapSomeIterator<T, U> {
    const base: seq<T>
    const transform: T -> Option<U>
    var position: nat

    ghost predicate Valid()
      reads this
    {
      position <= |base|
    }

    /** What it will still give. */
    ghost function Rest(): seq<U>
      requires Valid()
      reads this
    {
      MapSome(base[position..], transform)
    }

    constructor (base: seq<T>, transform: T -> Option<U>)
      ensures Valid() && Rest() == MapSome(base, transform)
    {
      this.base, this.transform, position := base, transform, 0;
    }

    method Next() returns (r: Option<U>)
      requires Valid()
      modifies this
      ensures Valid() && old(position) <= position
      ensures old(Rest()) == Ahead(r, Rest())
      ensures if r.None? then Rest() == [] else old(position) < position
    {
      while position < |base|
        invariant Valid() && old(position) <= position && Rest() == old(Rest())
      {
        var element := base[position];
        assert base[position..][1..] == base[position + 1..];
        position := position + 1;
        match transform(element)
        case Some(some) => return Some(some);
        case None =>
      }
      return None;
    }
  }

  lemma {:induction false} TotalExtended(digits: seq<int>, d: int, i: nat)
    ensures Total(digits + [d], i) == Total(digits, i) + Contribution(i + |digits|, d)
  {
    hide Contribution;
    if digits == [] {
      assert digits + [d] == [d];
    } else {
      assert (digits + [d])[1..] == digits[1..] + [d];
      TotalExtended(digits[1..], d, i + 1);
    }
  }

  /** `read` and what is ahead make up the digits. */
  ghost predicate Split(digits: seq<int>, read: seq<int>, ahead: seq<int>) {
    digits == read + ahead
  }

  lemma NothingRead(digits: seq<int>)
    ensures Split(digits, [], digits) && Total([]) == 0
  {
  }

  lemma ReadNext(digits: seq<int>, read: seq<int>, d: int, rest: seq<int>)
    requires Split(digits, read, Ahead(Some(d), rest))
    ensures Split(digits, read + [d], rest)
  {
  }

  lemma ReadAll(digits: seq<int>, read: seq<int>)
    requires Split(digits, read, Ahead(None, []))
    ensures digits == read
  {
  }

  /** The two transformations between the digits and the sum, every second digit doubled. */
  method Transformed(index: nat, digit: int) returns (x: int)
    ensures x == Contribution(index, digit)
  {
    x := digit;
    if IsMultipleOf(index + 1, 2) {
      x := Double(x);
    }
    x := CombineDoubleDigits(x);
  }

  /** `sum` at the end of the pipeline, which draws the digits through it one by one. */
  method SumDigits(digits: MapSomeIterator<char, int>) returns (sum: int)
    requires digits.Valid()
    modifies digits
    ensures sum == Total(old(digits.Rest()))
  {
    hide Total, MapSome, Contribution, Split, Ahead;
    ghost var all, read: seq<int> := digits.Rest(), [];
    NothingRead(all);
    var index := 0;
    sum := 0;
    var element := digits.Next();
    while element.Some?
      invariant digits.Valid()
      invariant Split(all, read, Ahead(element, digits.Rest()))
      invariant element.None? ==> digits.Rest() == []
      invariant index == |read| && sum == Total(read)
      decreases element.Some?, |digits.base| - digits.position
    {
      ReadNext(all, read, element.value, digits.Rest());
      TotalExtended(read, element.value, 0);
      read := read + [element.value];
      var x := Transformed(index, element.value);
      sum := sum + x;
      index := index + 1;
      element := digits.Next();
    }
    ReadAll(all, read);
  }

  method LazyChecksum(ccnum: string) returns (r: bool)
    ensures r == Accepted(ccnum)
  {
    var digits := new MapSomeIterator(Reversed(ccnum), CharToInt);
    var sum := SumDigits(digits);
    return IsMultipleOf(sum, 10);
  }

  /** The eager `mapSome`, which gives the same values. */
  method MapSomeEagerly<T, U>(source: seq<T>, transform: T -> Option<U>) returns (result: seq<U>)
    ensures result == MapSome(source, transform)
  {
    result := [];
    for i := 0 to |source|
      invariant MapSome(source, transform) == result + MapSome(source[i..], transform)
    {
      assert source[i..][1..] == source[i + 1..];
      match transform(source[i])
      case Some(y) => result := result + [y];
      case None =>
    }
  }

  // ---- the text as its parts

  lemma {:induction false} ReversedParts<T>(a: seq<T>, b: seq<T>)
    ensures Reversed(a + b) == Reversed(b) + Reversed(a)
  {
    if a == [] {
      assert a + b == b;
    } else {
      assert (a + b)[1..] == a[1..] + b;
      ReversedParts(a[1..], b);
    }
  }

  lemma {:induction false} MapSomeParts<T, U>(a: seq<T>, b: seq<T>, transform: T -> Option<U>)
    ensures MapSome(a + b, transform) == MapSome(a, transform) + MapSome(b, transform)
  {
    if a == [] {
      assert a + b == b;
    } else {
      assert (a + b)[1..] == a[1..] + b;
      MapSomeParts(a[1..], b, transform);
    }
  }

  lemma DigitsParts(a: string, b: string)
    ensures Digits(a + b) == Digits(b) + Digits(a)
  {
    ReversedParts(a, b);
    MapSomeParts(Reversed(b), Reversed(a), CharToInt);
  }

  lemma DigitsOfChar(c: char)
    ensures Digits([c]) == match CharToInt(c) { case Some(d) => [d] case None => [] }
  {
    assert Reversed([c]) == [c];
    assert MapSome([c][1..], CharToInt) == [];
  }

  /** Each of the ten digits stands for its number, every other character for none. */
  lemma DigitsAreNumbers()
    ensures forall k: nat :: k < 10 ==> Digits(["0123456789"[k]]) == [k]
    ensures forall c: char :: c !in "0123456789" ==> Digits([c]) == []
  {
    forall k: nat | k < 10 ensures Digits(["0123456789"[k]]) == [k] {
      DigitsOfChar("0123456789"[k]);
      DigitAt(k);
    }
    forall c: char | c !in "0123456789" ensures Digits([c]) == [] {
      DigitsOfChar(c);
      if CharToInt(c).Some? {
        DigitIsListed(c);
      }
    }
  }

  lemma DigitAt(k: nat)
    requires k < 10
    ensures "0123456789"[k] as int == '0' as int + k && CharToInt("0123456789"[k]) == Some(k)
  {
  }

  lemma DigitIsListed(c: char)
    requires CharToInt(c).Some?
    ensures c in "0123456789"
  {
    DigitAt(c as int - '0' as int);
  }

  lemma {:induction false} TotalParts(a: seq<int>, b: seq<int>, i: nat)
    ensures Total(a + b, i) == Total(a, i) + Total(b, i + |a|)
  {
    hide Contribution;
    if a == [] {
      assert a + b == b;
    } else {
      assert (a + b)[1..] == a[1..] + b;
      TotalParts(a[1..], b, i + 1);
    }
  }

  /** The sum with one digit set apart. `n` digits stand to its right. */
  lemma TotalAround(p: string, c: char, s: string)
    requires CharToInt(c).Some?
    ensures var n := |Digits(s)|;
            Total(Digits(p + [c] + s)) == Total(Digits(s)) + Contribution(n, CharToInt(c).value) + Total(Digits(p), n + 1)
  {
    hide Contribution;
    DigitsParts(p + [c], s);
    DigitsParts(p, [c]);
    DigitsOfChar(c);
    var d := CharToInt(c).value;
    assert Digits(p + [c] + s) == Digits(s) + ([d] + Digits(p));
    TotalParts(Digits(s), [d] + Digits(p), 0);
  }

  // ---- what the checksum detects

  /** The checksum of one digit is the digit. */
  lemma OneDigitText(c: char)
    requires c in "0123456789"
    ensures Accepted([c]) <==> c == '0'
  {
    DigitsAreNumbers();
    var k :| 0 <= k < 10 && "0123456789"[k] == c;
    hide Digits;
    assert Digits([c]) == [k];
    assert Total([k]) == k;
    DigitAt(k);
  }

  /** Zeros in front make no difference. */
  lemma LeadingZero(text: string)
    ensures Accepted("0" + text) == Accepted(text)
  {
    DigitsAreNumbers();
    DigitsParts("0", text);
    assert "0" == ["0123456789"[0]];
    hide Digits;
    TotalExtended(Digits(text), 0, 0);
  }

  /** The card number of the benchmark, which adds up to 90. */
  lemma CardNumber()
    ensures Total(Digits("4012 8888 8888 1881")) == 90 && Accepted("4012 8888 8888 1881")
  {
    hide Digits, Total;
    CardDigits();
    TotalOfFours([1, 8, 8, 1], [8, 8, 8, 8], [8, 8, 8, 8], [2, 1, 0, 4]);
    TotalOfFour([1, 8, 8, 1], 0);
    TotalOfFour([8, 8, 8, 8], 4);
    TotalOfFour([8, 8, 8, 8], 8);
    TotalOfFour([2, 1, 0, 4], 12);
  }

  lemma TotalOfFours(a: seq<int>, b: seq<int>, c: seq<int>, d: seq<int>)
    requires |a| == |b| == |c| == |d| == 4
    ensures Total(a + (b + (c + d))) == Total(a, 0) + Total(b, 4) + Total(c, 8) + Total(d, 12)
  {
    hide Total;
    TotalParts(c, d, 8);
    TotalParts(b, c + d, 4);
    TotalParts(a, b + (c + d), 0);
  }

  lemma CardDigits()
    ensures Digits("4012 8888 8888 1881") == [1, 8, 8, 1] + ([8, 8, 8, 8] + ([8, 8, 8, 8] + [2, 1, 0, 4]))
  {
    hide Digits;
    CardText();
    DigitsOfFour('4', 4, '0', 0, '1', 1, '2', 2);
    DigitsOfFour('8', 8, '8', 8, '8', 8, '8', 8);
    DigitsOfFour('1', 1, '8', 8, '8', 8, '1', 1);
    DigitsAfterSpace("4012", "8888");
    DigitsAfterSpace("4012" + " " + "8888", "8888");
    DigitsAfterSpace("4012" + " " + "8888" + " " + "8888", "1881");
  }

  lemma CardText()
    ensures "4012" + " " + "8888" + " " + "8888" + " " + "1881" == "4012 8888 8888 1881"
  {
  }

  lemma DigitsOfFour(a: char, i: int, b: char, j: int, c: char, k: int, d: char, l: int)
    requires CharToInt(a) == Some(i) && CharToInt(b) == Some(j) && CharToInt(c) == Some(k) && CharToInt(d) == Some(l)
    ensures Digits([a, b, c, d]) == [l, k, j, i]
  {
    DigitsOfChar(a);
    DigitsOfChar(b);
    DigitsOfChar(c);
    DigitsOfChar(d);
    hide Digits;
    DigitsParts([a], [b]);
    DigitsParts([a] + [b], [c]);
    DigitsParts([a] + [b] + [c], [d]);
    assert [a] + [b] + [c] + [d] == [a, b, c, d];
  }

  lemma DigitsAfterSpace(a: string, b: string)
    ensures Digits(a + " " + b) == Digits(b) + Digits(a)
  {
    DigitsAreNumbers();
    assert " " == [' '];
    hide Digits;
    DigitsParts(a + " ", b);
    DigitsParts(a, " ");
  }

  lemma TotalOfFour(digits: seq<int>, i: nat)
    requires |digits| == 4 && i % 2 == 0 && 0 <= digits[0] < 10 && 0 <= digits[2] < 10
    ensures Total(digits, i) == digits[0] + CombineDoubleDigits(2 * digits[1]) + digits[2] + CombineDoubleDigits(2 * digits[3])
  {
    assert Total(digits[3..], i + 3) == Contribution(i + 3, digits[3]) + Total(digits[3..][1..], i + 4);
    assert Total(digits[2..], i + 2) == Contribution(i + 2, digits[2]) + Total(digits[2..][1..], i + 3);
    assert Total(digits[1..], i + 1) == Contribution(i + 1, digits[1]) + Total(digits[1..][1..], i + 2);
    assert digits[3..][1..] == [] && digits[2..][1..] == digits[3..] && digits[1..][1..] == digits[2..];
  }

  /** Spaces and any other characters that are not digits make no difference. */
  lemma OthersIgnored(p: string, c: char, s: string)
    requires CharToInt(c).None?
    ensures Accepted(p + [c] + s) == Accepted(p + s)
  {
    DigitsParts(p + [c], s);
    DigitsParts(p, [c]);
    DigitsOfChar(c);
    DigitsParts(p, s);
    assert Digits(s) + ([] + Digits(p)) == Digits(s) + Digits(p);
  }

  /** The sum of a doubled digit's own digits is what is added for it. */
  lemma DoubledDigit(i: nat, d: int)
    requires 0 <= d < 10
    ensures Contribution(i, d) == if i % 2 == 1 then 2 * d / 10 + 2 * d % 10 else d
    ensures 0 <= Contribution(i, d) < 10
  {
  }

  lemma ContributionsDiffer(i: nat, d: int, e: int)
    requires 0 <= d < 10 && 0 <= e < 10 && d != e
    ensures (Contribution(i, d) - Contribution(i, e)) % 10 != 0
  {
    DoubledDigit(i, d);
    DoubledDigit(i, e);
  }

  /** Any one digit replaced by another is detected. */
  lemma OneDigitWrong(p: string, c: char, s: string, wrong: char)
    requires CharToInt(c).Some? && CharToInt(wrong).Some? && c != wrong
    requires Accepted(p + [c] + s)
    ensures !Accepted(p + [wrong] + s)
  {
    hide Contribution, Total, Digits;
    TotalAround(p, c, s);
    TotalAround(p, wrong, s);
    ContributionsDiffer(|Digits(s)|, CharToInt(c).value, CharToInt(wrong).value);
  }

  /** Two digits next to each other, or parted by other characters only, are detected in the wrong order
      exactly if they differ and are not 0 and 9. */
  lemma TwoDigitsSwapped(p: string, c: char, gap: string, e: char, s: string)
    requires CharToInt(c).Some? && CharToInt(e).Some? && Digits(gap) == []
    requires Accepted(p + [c] + gap + [e] + s)
    ensures Accepted(p + [e] + gap + [c] + s) <==> c == e || {c, e} == {'0', '9'}
  {
    hide Contribution, Total, Digits;
    TotalOfTwo(p, c, gap, e, s);
    TotalOfTwo(p, e, gap, c, s);
    SwappedContributions(|Digits(s)|, CharToInt(c).value, CharToInt(e).value);
    SameRemainder(Total(Digits(p + [c] + gap + [e] + s)), Total(Digits(p + [e] + gap + [c] + s)));
    ZeroAndNine(c, e);
  }

  lemma SameRemainder(t: int, u: int)
    requires t % 10 == 0
    ensures u % 10 == 0 <==> (t - u) % 10 == 0
  {
  }

  lemma ZeroAndNine(c: char, e: char)
    requires CharToInt(c).Some? && CharToInt(e).Some?
    ensures var (x, y) := (CharToInt(c).value, CharToInt(e).value);
            (x == y <==> c == e) && ({c, e} == {'0', '9'} <==> (x == 0 && y == 9) || (x == 9 && y == 0))
  {
    if {c, e} == {'0', '9'} {
      assert '0' in {c, e} && '9' in {c, e};
    }
  }

  lemma TotalOfTwo(p: string, c: char, gap: string, e: char, s: string)
    requires CharToInt(c).Some? && CharToInt(e).Some? && Digits(gap) == []
    ensures var n := |Digits(s)|;
            Total(Digits(p + [c] + gap + [e] + s))
            == Total(Digits(s)) + Contribution(n, CharToInt(e).value) + Contribution(n + 1, CharToInt(c).value)
               + Total(Digits(p), n + 2)
  {
    hide Contribution;
    var n := |Digits(s)|;
    var q := p + [c] + gap;
    TotalAround(q, e, s);
    DigitsParts(p + [c], gap);
    DigitsParts(p, [c]);
    DigitsOfChar(c);
    assert Digits(q) == [CharToInt(c).value] + Digits(p);
  }

  lemma SwappedContributions(n: nat, x: int, y: int)
    requires 0 <= x < 10 && 0 <= y < 10
    ensures (Contribution(n, y) + Contribution(n + 1, x) - Contribution(n, x) - Contribution(n + 1, y)) % 10 == 0
            <==> x == y || (x == 0 && y == 9) || (x == 9 && y == 0)
  {
  }

  /** Every text can be completed by one final digit, and by only one. */
  lemma OneCheckDigit(p: string) returns (c: char)
    ensures CharToInt(c).Some? && Accepted(p + [c])
    ensures forall e :: CharToInt(e).Some? && Accepted(p + [e]) ==> e == c
  {
    var d := -Total(Digits(p), 1) % 10;
    c := ('0' as int + d) as char;
    assert CharToInt(c) == Some(d);
    TotalAround(p, c, "");
    assert p + [c] + "" == p + [c];
    forall e | CharToInt(e).Some? && Accepted(p + [e]) ensures e == c {
      if e != c {
        assert p + [e] + "" == p + [e];
        OneDigitWrong(p, c, "", e);
      }
    }
  }
}

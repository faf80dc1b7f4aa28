/** Printing and parsing Roman numerals, benchmark/single-source/RomanNumbers.swift. */
module RomanNumbers {
  import opened Options

  datatype Entry = Entry(key: string, value: nat)

  function RomanTable(): (t: seq<Entry>)
    ensures |t| == 13 && t[12].value == 1
    ensures forall i :: 0 <= i < |t| ==> 0 < |t[i].key| <= 2 && t[i].value > 0
  {
    [
      Entry("M", 1000),
      Entry("CM", 900),
      Entry("D", 500),
      Entry("CD", 400),
      Entry("C", 100),
      Entry("XC", 90),
      Entry("L", 50),
      Entry("XL", 40),
      Entry("X", 10),
      Entry("IX", 9),
      Entry("V", 5),
      Entry("IV", 4),
      Entry("I", 1)
    ]
  }

  // ---- what is printed: a thousands run, then the three decimal digits

  function Repeated(c: char, n: nat): string {
    seq(n, _ => c)
  }

  /** A decimal digit in the letters for one, five and ten units of its place. */
  function Digit(d: nat, one: string, five: string, ten: string): string
    requires d < 10
  {
    match d
    case 0 => ""
    case 1 => one
    case 2 => one + one
    case 3 => one + one + one
    case 4 => one + five
    case 5 => five
    case 6 => five + one
    case 7 => five + one + one
    case 8 => five + one + one + one
    case 9 => one + ten
  }

  /** The numeral with `k` thousands and the digits `h`, `t` and `o`. */
  function Letters(k: nat, h: nat, t: nat, o: nat): string
    requires h < 10 && t < 10 && o < 10
  {
    Repeated('M', k) + (Digit(h, "C", "D", "M") + (Digit(t, "X", "L", "C") + Digit(o, "I", "V", "X")))
  }

  /** The numeral of a number, by its decimal digits. A number that is not positive has the empty numeral. */
  function Numeral(n: int): string {
    if n <= 0 then "" else Letters(n / 1000, n / 100 % 10, n / 10 % 10, n % 10)
  }

  /** Entry `i` is the one the printer takes for `n`: the first, so the largest, that does not exceed it. */
  predicate Takes(n: int, i: nat) {
    i < |RomanTable()| && RomanTable()[i].value <= n && (i > 0 ==> n < RomanTable()[i - 1].value)
  }

  /** The largest of nine, five, four and one units that a digit allows. */
  function Part(d: nat): nat
    requires 0 < d < 10
  {
    if d == 9 then 9 else if d >= 5 then 5 else if d == 4 then 4 else 1
  }

  lemma NoNumeral(n: int)
    requires n <= 0
    ensures Numeral(n) == ""
  {
  }

  lemma ThousandOff(k: nat, h: nat, t: nat, o: nat)
    requires k > 0 && h < 10 && t < 10 && o < 10
    ensures Letters(k, h, t, o) == "M" + Letters(k - 1, h, t, o)
  {
    hide Digit;
    assert Repeated('M', k) == "M" + Repeated('M', k - 1);
  }

  lemma DigitStep(d: nat, one: string, five: string, ten: string)
    requires 0 < d < 10
    ensures Digit(d, one, five, ten) == Digit(Part(d), one, five, ten) + Digit(d - Part(d), one, five, ten)
  {
  }

  lemma NoDigit(one: string, five: string, ten: string)
    ensures Digit(0, one, five, ten) == "" == Repeated('M', 0)
  {
  }

  lemma HundredsOff(h: nat, t: nat, o: nat)
    requires 0 < h < 10 && t < 10 && o < 10
    ensures Letters(0, h, t, o) == Digit(Part(h), "C", "D", "M") + Letters(0, h - Part(h), t, o)
  {
    hide Digit, Part;
    DigitStep(h, "C", "D", "M");
    NoDigit("C", "D", "M");
  }

  lemma TensOff(t: nat, o: nat)
    requires 0 < t < 10 && o < 10
    ensures Letters(0, 0, t, o) == Digit(Part(t), "X", "L", "C") + Letters(0, 0, t - Part(t), o)
  {
    hide Digit, Part;
    DigitStep(t, "X", "L", "C");
    NoDigit("C", "D", "M");
  }

  lemma OnesOff(o: nat)
    requires 0 < o < 10
    ensures Letters(0, 0, 0, o) == Digit(Part(o), "I", "V", "X") + Letters(0, 0, 0, o - Part(o))
  {
    hide Digit, Part;
    DigitStep(o, "I", "V", "X");
    NoDigit("C", "D", "M");
    NoDigit("X", "L", "C");
  }

  /** The greedy entry is the greedy part of the first digit that is not zero. */
  function GreedyEntry(n: int): Entry
    requires n > 0
  {
    if n >= 1000 then Entry("M", 1000)
    else if n >= 100 then Entry(Digit(Part(n / 100), "C", "D", "M"), 100 * Part(n / 100))
    else if n >= 10 then Entry(Digit(Part(n / 10), "X", "L", "C"), 10 * Part(n / 10))
    else Entry(Digit(Part(n), "I", "V", "X"), Part(n))
  }

  lemma TakesGreedyEntry(n: int, i: nat)
    requires Takes(n, i)
    ensures RomanTable()[i] == GreedyEntry(n)
  {
  }

  lemma DigitsOf(k: nat, h: nat, t: nat, o: nat, n: nat)
    requires h < 10 && t < 10 && o < 10 && n == 1000 * k + 100 * h + 10 * t + o
    ensures n / 1000 == k && n / 100 % 10 == h && n / 10 % 10 == t && n % 10 == o
  {
    assert n / 10 == 100 * k + 10 * h + t;
    assert n / 100 == 10 * k + h;
  }

  lemma Digits(n: nat) returns (k: nat, h: nat, t: nat, o: nat)
    ensures h < 10 && t < 10 && o < 10 && n == 1000 * k + 100 * h + 10 * t + o
  {
    o, t := n % 10, n / 10 % 10;
    h, k := n / 10 / 10 % 10, n / 10 / 10 / 10;
  }

  lemma ByDigits(k: nat, h: nat, t: nat, o: nat)
    requires h < 10 && t < 10 && o < 10
    ensures Numeral(1000 * k + 100 * h + 10 * t + o) == Letters(k, h, t, o)
  {
    hide Digit;
    DigitsOf(k, h, t, o, 1000 * k + 100 * h + 10 * t + o);
    NoDigit("C", "D", "M");
    NoDigit("X", "L", "C");
    NoDigit("I", "V", "X");
  }

  /** Taking off the greedy entry takes its letters off the front of the numeral. */
  lemma GreedyStep(n: int, i: nat)
    requires Takes(n, i)
    ensures Numeral(n) == RomanTable()[i].key + Numeral(n - RomanTable()[i].value)
  {
    hide RomanTable, Digit, Part, Numeral, Letters;
    TakesGreedyEntry(n, i);
    var k, h, t, o := Digits(n);
    DigitsOf(k, h, t, o, n);
    ByDigits(k, h, t, o);
    if k > 0 {
      ThousandOff(k, h, t, o);
      ByDigits(k - 1, h, t, o);
    } else if h > 0 {
      HundredsOff(h, t, o);
      ByDigits(0, h - Part(h), t, o);
    } else if t > 0 {
      TensOff(t, o);
      ByDigits(0, 0, t - Part(t), o);
    } else {
      OnesOff(o);
      ByDigits(0, 0, 0, o - Part(o));
    }
  }

  method RomanNumeral(self: int) returns (result: string)
    ensures result == Numeral(self)
  {
    hide RomanTable, Numeral;
    result := "";
    var value := self;
    label outer:
    while value > 0
      invariant value <= self && (self >= 0 ==> value >= 0)
      invariant result + Numeral(value) == Numeral(self)
    {
      for i := 0 to |RomanTable()|
        invariant forall k :: 0 <= k < i ==> value < RomanTable()[k].value
      {
        var v := RomanTable()[i].value;
        if value >= v {
          GreedyStep(value, i);
          assert result + (RomanTable()[i].key + Numeral(value - v)) == result + RomanTable()[i].key + Numeral(value - v);
          result := result + RomanTable()[i].key;
          value := value - v;
          continue outer;
        }
      }
      assert false;  // fatalError("Unreachable")
    }
    NoNumeral(value);
  }

  // ---- what is parsed

  /** The entry the parser takes: the first whose letters come next. */
  function FirstMatch(input: string, i: nat := 0): (r: nat)
    requires i <= |RomanTable()|
    ensures i <= r <= |RomanTable()|
    ensures r < |RomanTable()| ==> RomanTable()[r].key <= input
    ensures forall k :: i <= k < r ==> !(RomanTable()[k].key <= input)
    decreases |RomanTable()| - i
  {
    if i == |RomanTable()| || RomanTable()[i].key <= input then i else FirstMatch(input, i + 1)
  }

  /** The number a text parses to, taken greedily from the front. */
  function Parsed(input: string): Option<nat> {
    if input == "" then Some(0)
    else
      var i := FirstMatch(input);
      if i == |RomanTable()| then None
      else
        match Parsed(input[|RomanTable()[i].key|..])
        case None => None
        case Some(n) => Some(RomanTable()[i].value + n)
  }

  method ParseRomanNumeral(romanNumeral: string) returns (r: Option<nat>)
    ensures r == Parsed(romanNumeral)
  {
    hide RomanTable;
    var self: nat := 0;
    var input := romanNumeral;
    label outer:
    while input != ""
      invariant Parsed(romanNumeral) == match Parsed(input) { case None => None case Some(n) => Some(self + n) }
      decreases |input|
    {
      for i := 0 to |RomanTable()|
        invariant forall k :: 0 <= k < i ==> !(RomanTable()[k].key <= input)
      {
        if RomanTable()[i].key <= input {
          assert FirstMatch(input) == i;
          self := self + RomanTable()[i].value;
          input := input[|RomanTable()[i].key|..];
          continue outer;
        }
      }
      assert FirstMatch(input) == |RomanTable()|;
      return None;
    }
    return Some(self);
  }

  // ---- the round trip

  /** The letter a numeral below a bound can begin with. */
  lemma FirstLetter(n: int)
    requires 0 < n < 300
    ensures Numeral(n) != ""
    ensures Numeral(n)[0] !in "MD"
    ensures n < 30 ==> Numeral(n)[0] !in "CL"
    ensures n < 3 ==> Numeral(n)[0] == 'I'
  {
    assert Repeated('M', 0) == "";
  }

  lemma PrefixLetters(key: string, s: string)
    requires 0 < |key| <= 2
    ensures key <= s ==> key[0] == s[0] && (|key| == 2 ==> key[1] == s[1])
  {
  }

  /** Nothing earlier in the table fits the letters of an entry, with what may follow them. */
  lemma EarlierKeysDiffer(i: nat, rest: string)
    requires i < |RomanTable()|
    requires i == 4 && rest != "" ==> rest[0] !in "MD"
    requires i == 8 && rest != "" ==> rest[0] !in "CL"
    requires i == 12 && rest != "" ==> rest[0] !in "XV"
    ensures forall k :: 0 <= k < i ==> !(RomanTable()[k].key <= RomanTable()[i].key + rest)
  {
    var s := RomanTable()[i].key + rest;
    forall k | 0 <= k < i ensures !(RomanTable()[k].key <= s) {
      PrefixLetters(RomanTable()[k].key, s);
    }
  }

  lemma RestIsSmall(n: int, i: nat)
    requires Takes(n, i)
    ensures var m := n - RomanTable()[i].value; (i == 4 ==> m < 300) && (i == 8 ==> m < 30) && (i == 12 ==> m < 3)
  {
  }

  /** The parser picks the very entry the printer picked. */
  lemma SameEntry(n: int, i: nat)
    requires Takes(n, i)
    ensures FirstMatch(Numeral(n)) == i
  {
    hide RomanTable, Numeral, FirstMatch;
    var m := n - RomanTable()[i].value;
    RestIsSmall(n, i);
    NoNumeral(0);
    GreedyStep(n, i);
    if 0 < m < 300 {
      FirstLetter(m);
    }
    EarlierKeysDiffer(i, Numeral(m));
  }

  function Greedy(n: int, i: nat := 0): (r: nat)
    requires n > 0 && i < |RomanTable()|
    requires i > 0 ==> n < RomanTable()[i - 1].value
    ensures Takes(n, r)
    decreases |RomanTable()| - i
  {
    if RomanTable()[i].value <= n then i else Greedy(n, i + 1)
  }

  lemma ParsedEmpty()
    ensures Parsed("") == Some(0)
  {
  }

  lemma ParsedFirst(e: Entry, rest: string)
    requires var i := FirstMatch(e.key + rest); i < |RomanTable()| && RomanTable()[i] == e
    ensures Parsed(e.key + rest) == match Parsed(rest) { case None => None case Some(n) => Some(e.value + n) }
  {
    hide RomanTable, FirstMatch;
    assert (e.key + rest)[|e.key|..] == rest;
  }

  /** Parsing the numeral printed for `n` gives back `n`. */
  lemma {:induction false} RoundTrip(n: nat)
    ensures Parsed(Numeral(n)) == Some(n)
  {
    hide RomanTable, Numeral, FirstMatch, Parsed, Greedy;
    NoNumeral(0);
    ParsedEmpty();
    if n > 0 {
      var i := Greedy(n);
      var e := RomanTable()[i];
      RoundTrip(n - e.value);
      GreedyStep(n, i);
      SameEntry(n, i);
      ParsedFirst(e, Numeral(n - e.value));
    }
  }

  /** No two numbers print alike. */
  lemma NumeralsDiffer(m: nat, n: nat)
    requires Numeral(m) == Numeral(n)
    ensures m == n
  {
    RoundTrip(m);
    RoundTrip(n);
  }

  predicate RomanLetter(c: char) {
    c in "MDCLXVI"
  }

  lemma LetterHasEntry(c: char) returns (k: nat)
    requires RomanLetter(c)
    ensures k < |RomanTable()| && RomanTable()[k].key == [c]
  {
    k := if c == 'M' then 0 else if c == 'D' then 2 else if c == 'C' then 4 else if c == 'L' then 6
         else if c == 'X' then 8 else if c == 'V' then 10 else 12;
  }

  lemma KeysAreLetters(i: nat)
    requires i < |RomanTable()|
    ensures var key := RomanTable()[i].key; RomanLetter(key[0]) && (|key| == 2 ==> RomanLetter(key[1]))
  {
  }

  lemma LettersMatch(input: string)
    requires input != ""
    ensures var i := FirstMatch(input);
            if i == |RomanTable()| then !RomanLetter(input[0])
            else forall c :: c in RomanTable()[i].key ==> RomanLetter(c)
  {
    hide RomanTable, RomanLetter, FirstMatch;
    if RomanLetter(input[0]) {
      var k := LetterHasEntry(input[0]);
      assert RomanTable()[k].key <= input;
    }
    var i := FirstMatch(input);
    if i < |RomanTable()| {
      KeysAreLetters(i);
      var key := RomanTable()[i].key;
      assert key == [key[0]] || key == [key[0], key[1]];
    }
  }

  /** The parser fails exactly on a text with a letter that is none of the seven: it is no check of good form. */
  lemma {:induction false} FailsOnOtherLetters(input: string)
    ensures Parsed(input).None? <==> exists c :: c in input && !RomanLetter(c)
  {
    hide RomanTable, RomanLetter, FirstMatch;
    if input != "" {
      LettersMatch(input);
      var i := FirstMatch(input);
      if i < |RomanTable()| {
        var key := RomanTable()[i].key;
        FailsOnOtherLetters(input[|key|..]);
        assert input == key + input[|key|..];
      } else {
        assert input[0] in input;
      }
    }
  }
}

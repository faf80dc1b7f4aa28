/** The edits that utils/apply-fixit-edits.py makes to one file. */
module FixitEdits {
  import opened Sequences

  /** Remove `length` characters at `offset` and put `text` there. */
  datatype Edit = Edit(offset: int, length: int, text: string)

  // ---- the order of Python's tuples

  predicate TextUpTo(s: string, t: string) {
    s == "" || (t != "" && (s[0] < t[0] || (s[0] == t[0] && TextUpTo(s[1..], t[1..]))))
  }

  predicate UpTo(a: Edit, b: Edit) {
    a.offset < b.offset
    || (a.offset == b.offset && (a.length < b.length || (a.length == b.length && TextUpTo(a.text, b.text))))
  }

  lemma {:induction false} TextsInOrder(s: string, t: string, u: string)
    ensures TextUpTo(s, t) || TextUpTo(t, s)
    ensures TextUpTo(s, t) && TextUpTo(t, s) ==> s == t
    ensures TextUpTo(s, t) && TextUpTo(t, u) ==> TextUpTo(s, u)
  {
    if s != "" && t != "" {
      TextsInOrder(s[1..], t[1..], if u == "" then u else u[1..]);
      assert s == [s[0]] + s[1..] && t == [t[0]] + t[1..];
    }
  }

  lemma EditsInOrder(a: Edit, b: Edit, c: Edit)
    ensures UpTo(a, b) || UpTo(b, a)
    ensures UpTo(a, b) && UpTo(b, a) ==> a == b
    ensures UpTo(a, b) && UpTo(b, c) ==> UpTo(a, c)
  {
    TextsInOrder(a.text, b.text, c.text);
  }

  /** `s` and `t` agree before place `k`, where `s` has the smaller character. */
  predicate SmallerAt(s: string, t: string, k: nat) {
    k < |s| && k < |t| && s[..k] == t[..k] && s[k] < t[k]
  }

  /** What the recursion on texts decides: `s` begins `t`, or the first character in which they differ is smaller. */
  ghost predicate TextBefore(s: string, t: string) {
    s <= t || exists k: nat :: SmallerAt(s, t, k)
  }

  lemma {:induction false} TextUpToExactly(s: string, t: string)
    ensures TextUpTo(s, t) <==> TextBefore(s, t)
  {
    if s != "" && t != "" {
      assert s == [s[0]] + s[1..] && t == [t[0]] + t[1..];
      TextUpToExactly(s[1..], t[1..]);
      hide TextBefore;
      if s[0] == t[0] {
        SameFirst(s[0], s[1..], t[1..]);
      } else {
        OtherFirst(s, t);
      }
    }
  }

  lemma OtherFirst(s: string, t: string)
    requires s != "" && t != "" && s[0] != t[0]
    ensures TextBefore(s, t) <==> s[0] < t[0]
  {
    assert SmallerAt(s, t, 0) <==> s[0] < t[0];
    if k: nat :| SmallerAt(s, t, k) {
      assert k > 0 ==> s[..k][0] == t[..k][0];
    }
  }

  lemma SameFirst(c: char, s: string, t: string)
    ensures TextBefore([c] + s, [c] + t) <==> TextBefore(s, t)
  {
    assert ([c] + s)[1..] == s && ([c] + t)[1..] == t;
    forall k: nat
      ensures SmallerAt([c] + s, [c] + t, k + 1) <==> SmallerAt(s, t, k)
    {
      Shifted(c, s, t, k);
    }
    assert !SmallerAt([c] + s, [c] + t, 0);
    hide SmallerAt;
    if k: nat :| SmallerAt([c] + s, [c] + t, k) {
      assert SmallerAt(s, t, k - 1);
    }
  }

  lemma Shifted(c: char, s: string, t: string, k: nat)
    ensures SmallerAt([c] + s, [c] + t, k + 1) <==> SmallerAt(s, t, k)
  {
    if k < |s| && k < |t| {
      assert ([c] + s)[..k + 1] == [c] + s[..k] && ([c] + t)[..k + 1] == [c] + t[..k];
      assert ([c] + s[..k])[1..] == s[..k] && ([c] + t[..k])[1..] == t[..k];
    }
  }

  ghost predicate Descending(edits: seq<Edit>) {
    forall i, j :: 0 <= i < j < |edits| ==> UpTo(edits[j], edits[i])
  }

  // ---- one edit

  /** Python's `s[:i]`: an index counts from the end if it is negative, and is cut off at both ends. */
  function UpToIndex(s: string, i: int): string {
    if i < -|s| then "" else if i < 0 then s[..|s| + i] else if i <= |s| then s[..i] else s
  }

  /** Python's `s[i:]`. */
  function FromIndex(s: string, i: int): string {
    if i < -|s| then s else if i < 0 then s[|s| + i..] else if i <= |s| then s[i..] else ""
  }

  /** A cut at any index, negative or beyond the end, loses nothing and repeats nothing. */
  lemma CutInTwo(s: string, i: int)
    ensures UpToIndex(s, i) + FromIndex(s, i) == s
    ensures 0 <= i <= |s| ==> |UpToIndex(s, i)| == i
    ensures 0 < -i <= |s| ==> |FromIndex(s, i)| == -i
    ensures (i >= |s| ==> FromIndex(s, i) == "") && (i <= -|s| && i != 0 ==> UpToIndex(s, i) == "")
  {
  }

  function Spliced(data: string, e: Edit): string {
    UpToIndex(data, e.offset) + e.text + FromIndex(data, e.offset + e.length)
  }

  /** The edits one after the other, the last of the list first. */
  function Applied(data: string, edits: seq<Edit>): string {
    if edits == [] then data else Spliced(Applied(data, edits[1..]), edits[0])
  }

  // ---- all edits at once

  /** The edits, from the left, start where the one before ends or later, and stay within the text. */
  predicate Apart(edits: seq<Edit>, start: nat, size: nat) {
    if edits == [] then start <= size
    else
      var e := edits[0];
      start <= e.offset && e.length >= 0 && e.offset + e.length <= size && Apart(edits[1..], e.offset + e.length, size)
  }

  /** The text from `start` on, read once from left to right with the edits substituted. */
  function Substituted(data: string, edits: seq<Edit>, start: nat): string
    requires Apart(edits, start, |data|)
    decreases edits
  {
    if edits == [] then data[start..]
    else
      var e := edits[0];
      data[start..e.offset] + e.text + Substituted(data, edits[1..], e.offset + e.length)
  }

  /** Splicing from the right leaves the offsets of the edits to the left valid. */
  lemma {:induction false} AppliedIsSubstituted(data: string, edits: seq<Edit>, start: nat)
    requires Apart(edits, start, |data|)
    ensures start <= |data| && Applied(data, edits) == data[..start] + Substituted(data, edits, start)
    decreases edits
  {
    if edits != [] {
      var e := edits[0];
      AppliedIsSubstituted(data, edits[1..], e.offset + e.length);
      hide Applied;
      SplicedAtEnd(data, e, Substituted(data, edits[1..], e.offset + e.length), start);
    }
  }

  lemma SplicedAtEnd(data: string, e: Edit, later: string, start: nat)
    requires start <= e.offset && e.length >= 0 && e.offset + e.length <= |data|
    ensures Spliced(data[..e.offset + e.length] + later, e) == data[..start] + (data[start..e.offset] + e.text + later)
  {
    var s := data[..e.offset + e.length] + later;
    assert s[..e.offset] == data[..e.offset] == data[..start] + data[start..e.offset];
    assert s[e.offset + e.length..] == later;
  }

  // ---- the program

  /** Python's sort with `reverse=True`, of which only the outcome matters. */
  method SortDescending(edits: seq<Edit>) returns (sorted: seq<Edit>)
    ensures Descending(sorted) && multiset(sorted) == multiset(edits)
    ensures forall i, j :: 0 <= i < j < |sorted| ==> sorted[j].offset <= sorted[i].offset
    ensures forall i, j :: 0 <= i < j < |sorted| && sorted[j].offset == sorted[i].offset ==>
              sorted[j].length <= sorted[i].length
    ensures forall i, j ::
              0 <= i < j < |sorted| && sorted[j].offset == sorted[i].offset && sorted[j].length == sorted[i].length ==>
                TextBefore(sorted[j].text, sorted[i].text)
  {
    hide UpTo, Descending, TextBefore;
    sorted := [];
    NothingToSort();
    for i := 0 to |edits|
      invariant Descending(sorted) && multiset(sorted) == multiset(edits[..i])
    {
      var k := 0;
      while k < |sorted| && UpTo(edits[i], sorted[k])
        invariant k <= |sorted|
        invariant forall j :: 0 <= j < k ==> UpTo(edits[i], sorted[j])
      {
        k := k + 1;
      }
      Placed(sorted, edits[i], k);
      assert edits[..i + 1] == edits[..i] + [edits[i]];
      sorted := sorted[..k] + [edits[i]] + sorted[k..];
    }
    assert edits[..|edits|] == edits;
    DescendingInNumbers(sorted);
  }

  lemma DescendingInNumbers(sorted: seq<Edit>)
    requires Descending(sorted)
    ensures forall i, j :: 0 <= i < j < |sorted| ==>
              var a, b := sorted[j], sorted[i];
              && a.offset <= b.offset
              && (a.offset == b.offset ==> a.length <= b.length)
              && (a.offset == b.offset && a.length == b.length ==> TextBefore(a.text, b.text))
  {
    hide TextBefore;
    forall i, j | 0 <= i < j < |sorted|
      ensures TextUpTo(sorted[j].text, sorted[i].text) <==> TextBefore(sorted[j].text, sorted[i].text)
    {
      TextUpToExactly(sorted[j].text, sorted[i].text);
    }
  }

  lemma NothingToSort()
    ensures Descending([])
  {
  }

  lemma Placed(sorted: seq<Edit>, e: Edit, k: nat)
    requires Descending(sorted) && k <= |sorted| && (k < |sorted| ==> !UpTo(e, sorted[k]))
    requires forall j :: 0 <= j < k ==> UpTo(e, sorted[j])
    ensures var placed := sorted[..k] + [e] + sorted[k..];
            Descending(placed) && multiset(placed) == multiset(sorted) + multiset{e}
  {
    hide UpTo;
    RestUpTo(sorted, e, k);
    assert sorted == sorted[..k] + sorted[k..];
  }

  lemma RestUpTo(sorted: seq<Edit>, e: Edit, k: nat)
    requires Descending(sorted) && k <= |sorted| && (k < |sorted| ==> !UpTo(e, sorted[k]))
    ensures forall j :: k <= j < |sorted| ==> UpTo(sorted[j], e)
  {
    forall j | k <= j < |sorted| ensures UpTo(sorted[j], e) {
      EditsInOrder(sorted[j], sorted[k], e);
      EditsInOrder(e, sorted[k], e);
    }
  }

  // ---- what the program promises

  /** The edits lie within the text, and of any two, equal ones that occur twice included, one ends where the other
      starts or earlier. Several insertions at one place do not overlap; a replacement given twice does. */
  ghost predicate Disjoint(edits: multiset<Edit>, size: nat) {
    && (forall e :: e in edits ==> 0 <= e.offset && 0 <= e.length && e.offset + e.length <= size)
    && (forall a, b :: a in edits && b in edits && (a == b ==> edits[a] > 1) ==>
          a.offset + a.length <= b.offset || b.offset + b.length <= a.offset)
  }

  lemma FirstEndsFirst(a: Edit, b: Edit)
    requires UpTo(a, b) && a.length >= 0 && b.length >= 0
    requires a.offset + a.length <= b.offset || b.offset + b.length <= a.offset
    ensures a.offset + a.length <= b.offset
  {
  }

  ghost predicate Ascending(edits: seq<Edit>) {
    forall i, j :: 0 <= i < j < |edits| ==> UpTo(edits[i], edits[j])
  }

  lemma {:induction false} DisjointIsApart(edits: seq<Edit>, start: nat, size: nat)
    requires Ascending(edits) && Disjoint(multiset(edits), size)
    requires start <= size && (edits != [] ==> start <= edits[0].offset)
    ensures Apart(edits, start, size)
  {
    if edits != [] {
      var e, rest := edits[0], edits[1..];
      assert edits == [e] + rest;
      DisjointWithout(e, rest, size);
      hide UpTo, Disjoint;
      DisjointIsApart(rest, e.offset + e.length, size);
    }
  }

  lemma DisjointWithout(e: Edit, rest: seq<Edit>, size: nat)
    requires Ascending([e] + rest) && Disjoint(multiset([e] + rest), size)
    ensures 0 <= e.offset && 0 <= e.length && e.offset + e.length <= size
    ensures rest != [] ==> e.offset + e.length <= rest[0].offset
    ensures Ascending(rest) && Disjoint(multiset(rest), size)
  {
    hide UpTo, Disjoint, Ascending;
    FirstTwo(e, rest, size);
    assert multiset([e] + rest) == multiset{e} + multiset(rest);
    FewerDisjoint(multiset([e] + rest), multiset(rest), size);
    AscendingRest(e, rest);
  }

  lemma AscendingRest(e: Edit, rest: seq<Edit>)
    requires Ascending([e] + rest)
    ensures Ascending(rest)
  {
    hide UpTo;
    var edits := [e] + rest;
    forall i, j | 0 <= i < j < |rest| ensures UpTo(rest[i], rest[j]) {
      assert edits[i + 1] == rest[i] && edits[j + 1] == rest[j];
    }
  }

  lemma FewerDisjoint(edits: multiset<Edit>, fewer: multiset<Edit>, size: nat)
    requires Disjoint(edits, size) && fewer <= edits
    ensures Disjoint(fewer, size)
  {
  }

  lemma FirstTwo(e: Edit, rest: seq<Edit>, size: nat)
    requires Ascending([e] + rest) && Disjoint(multiset([e] + rest), size)
    ensures 0 <= e.offset && 0 <= e.length && e.offset + e.length <= size
    ensures rest != [] ==> e.offset + e.length <= rest[0].offset
  {
    hide UpTo;
    var edits := [e] + rest;
    assert multiset(edits) == multiset{e} + multiset(rest);
    assert e in multiset(edits);
    if rest != [] {
      assert edits[1] == rest[0] && rest[0] in multiset(rest);
      FirstEndsFirst(edits[0], edits[1]);
    }
  }

  lemma {:induction false} ApartInTurn(edits: seq<Edit>, start: nat, size: nat)
    requires Apart(edits, start, size)
    ensures forall i :: 0 <= i < |edits| ==>
              start <= edits[i].offset && edits[i].length >= 0 && edits[i].offset + edits[i].length <= size
    ensures forall i, j :: 0 <= i < j < |edits| ==> edits[i].offset + edits[i].length <= edits[j].offset
    decreases edits
  {
    if edits != [] {
      var e, rest := edits[0], edits[1..];
      ApartInTurn(rest, e.offset + e.length, size);
      assert forall i :: 0 < i < |edits| ==> edits[i] == rest[i - 1];
    }
  }

  lemma TwoPlaces(edits: seq<Edit>, a: Edit, b: Edit) returns (i: nat, j: nat)
    requires a in edits && b in edits && (a == b ==> multiset(edits)[a] > 1)
    ensures i < |edits| && j < |edits| && i != j && edits[i] == a && edits[j] == b
  {
    i :| 0 <= i < |edits| && edits[i] == a;
    if a != b {
      j :| 0 <= j < |edits| && edits[j] == b;
    } else {
      var before, after := edits[..i], edits[i + 1..];
      assert edits == before + [a] + after;
      assert a in multiset(before) + multiset(after);
      if a in before {
        j :| 0 <= j < i && before[j] == a;
      } else {
        var k :| 0 <= k < |after| && after[k] == a;
        j := i + 1 + k;
      }
    }
  }

  /** In sorted order, not overlapping pairwise and following one another within the text are the same. */
  lemma DisjointExactlyApart(edits: seq<Edit>, size: nat)
    requires Ascending(edits)
    ensures Disjoint(multiset(edits), size) <==> Apart(edits, 0, size)
  {
    hide UpTo, Ascending;
    if Disjoint(multiset(edits), size) {
      assert edits != [] ==> edits[0] in multiset(edits);
      DisjointIsApart(edits, 0, size);
    }
    if Apart(edits, 0, size) {
      ApartInTurn(edits, 0, size);
      hide Apart;
      forall a, b | a in multiset(edits) && b in multiset(edits) && (a == b ==> multiset(edits)[a] > 1)
        ensures a.offset + a.length <= b.offset || b.offset + b.length <= a.offset
      {
        var i, j := TwoPlaces(edits, a, b);
      }
    }
  }

  lemma {:induction false} SortedOneWay(xs: seq<Edit>, ys: seq<Edit>)
    requires Descending(xs) && Descending(ys) && multiset(xs) == multiset(ys)
    ensures xs == ys
  {
    assert |multiset(xs)| == |xs| && |multiset(ys)| == |ys|;
    if xs != [] {
      SameGreatest(xs, ys);
      hide UpTo;
      assert xs == [xs[0]] + xs[1..] && ys == [xs[0]] + ys[1..];
      SameTails(xs[0], xs[1..], ys[1..]);
      SortedOneWay(xs[1..], ys[1..]);
    }
  }

  lemma SameTails(e: Edit, xs: seq<Edit>, ys: seq<Edit>)
    requires multiset([e] + xs) == multiset([e] + ys)
    ensures multiset(xs) == multiset(ys)
  {
    assert multiset(xs) == multiset([e] + xs) - multiset{e};
    assert multiset(ys) == multiset([e] + ys) - multiset{e};
  }

  lemma SameGreatest(xs: seq<Edit>, ys: seq<Edit>)
    requires Descending(xs) && Descending(ys) && multiset(xs) == multiset(ys) && xs != [] && ys != []
    ensures xs[0] == ys[0]
  {
    hide UpTo;
    assert xs[0] in multiset(ys) && ys[0] in multiset(xs);
    var i :| 0 <= i < |ys| && ys[i] == xs[0];
    var j :| 0 <= j < |xs| && xs[j] == ys[0];
    EditsInOrder(xs[0], ys[0], xs[0]);
  }

  /** There is only one descending order of the edits, so the text does not depend on how they arrive. */
  method ApplyEdits(fileData: string, edits: seq<Edit>) returns (data: string)
    ensures forall sorted :: Descending(sorted) && multiset(sorted) == multiset(edits) ==>
              data == Applied(fileData, Reversed(sorted))
  {
    hide UpTo, Descending, TextBefore, UpToIndex, FromIndex;
    var order := SortDescending(edits);
    data := fileData;
    for i := 0 to |order|
      invariant data == Applied(fileData, Reversed(order[..i]))
    {
      var Edit(offset, length, text) := order[i];
      assert Reversed(order[..i + 1])[1..] == Reversed(order[..i]);
      data := UpToIndex(data, offset) + text + FromIndex(data, offset + length);
    }
    assert order[..|order|] == order;
    forall sorted | Descending(sorted) && multiset(sorted) == multiset(edits)
      ensures sorted == order
    {
      SortedOneWay(sorted, order);
    }
  }

  /** A replacement at the front does not move what a removal behind it removes. */
  method FrontAndBack() returns (data: string)
    ensures data == "XYbcef"
  {
    var front, back := Edit(0, 1, "XY"), Edit(3, 1, "");
    data := ApplyEdits("abcdef", [front, back]);
    FrontAndBackApplied(front, back);
  }

  lemma FrontAndBackApplied(front: Edit, back: Edit)
    requires front == Edit(0, 1, "XY") && back == Edit(3, 1, "")
    ensures Descending([back, front]) && multiset([back, front]) == multiset([front, back])
    ensures Applied("abcdef", Reversed([back, front])) == "XYbcef"
  {
    assert Descending([back, front]);
    hide Descending, UpTo;
    assert Reversed([back]) == [back] && [back, front][1..] == [front] && Reversed([front]) == [front];
    assert Reversed([back, front]) == [front, back];
    SplicedTexts();
    hide Spliced, Reversed;
    AppliedLast("abcdef", back, []);
    AppliedLast("abcdef", front, [back]);
    assert [front] + [back] == [front, back] && [back] + [] == [back];
  }

  lemma AppliedLast(data: string, e: Edit, later: seq<Edit>)
    ensures Applied(data, []) == data && Applied(data, [e] + later) == Spliced(Applied(data, later), e)
  {
    assert ([e] + later)[1..] == later;
  }

  lemma SplicedTexts()
    ensures Spliced("abcdef", Edit(3, 1, "")) == "abcef" && Spliced("abcef", Edit(0, 1, "XY")) == "XYbcef"
  {
  }

  /** In whatever order the edits arrive, the text is the one in which all of them are substituted at once. */
  method ApplyDisjointEdits(fileData: string, edits: seq<Edit>, ghost ascending: seq<Edit>) returns (data: string)
    requires Disjoint(multiset(edits), |fileData|)
    requires Ascending(ascending) && multiset(ascending) == multiset(edits)
    ensures Apart(ascending, 0, |fileData|) && data == Substituted(fileData, ascending, 0)
  {
    hide UpTo, Ascending, Descending, Disjoint, Applied;
    AscendingReversed(ascending);
    DisjointSubstituted(fileData, ascending);
    data := ApplyEdits(fileData, edits);
  }

  lemma AscendingReversed(edits: seq<Edit>)
    requires Ascending(edits)
    ensures Descending(Reversed(edits)) && multiset(Reversed(edits)) == multiset(edits) && Reversed(Reversed(edits)) == edits
  {
    hide UpTo;
    ReversedKeeps(edits);
  }

  lemma DisjointSubstituted(data: string, edits: seq<Edit>)
    requires Ascending(edits) && Disjoint(multiset(edits), |data|)
    ensures Apart(edits, 0, |data|) && Applied(data, edits) == Substituted(data, edits, 0)
  {
    assert edits != [] ==> edits[0] in multiset(edits);
    DisjointIsApart(edits, 0, |data|);
    hide UpTo, Ascending, Disjoint, Applied, Substituted;
    AppliedIsSubstituted(data, edits, 0);
    assert data[..0] == "";
  }

  lemma {:induction false} ReversedKeeps(xs: seq<Edit>)
    ensures multiset(Reversed(xs)) == multiset(xs)
  {
    if xs != [] {
      var rest := xs[1..];
      ReversedKeeps(rest);
      assert xs == [xs[0]] + rest && Reversed(xs) == Reversed(rest) + [xs[0]];
    }
  }
}

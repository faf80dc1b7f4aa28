/** The regular expression matcher of benchmark/single-source/StringMatch.swift, and the language it decides. */
module StringMatch {

  // ---- the language of a pattern

  /** One character, or any number of characters. The character '.' stands for all. */
  datatype Atom = One(c: char) | Many(c: char)

  /** The atoms of a pattern, and whether a final '$' ties it to the end of the text. */
  datatype Pattern = Pattern(atoms: seq<Atom>, toEnd: bool)

  predicate Fits(c: char, x: char) {
    c == '.' || x == c
  }

  /** Any character followed by '*' is repeated, '^', '$', '.' and '*' included; a lone final '$' is the end of the text. */
  function Parse(regexp: string): Pattern {
    if regexp == "" then
      Pattern([], false)
    else if |regexp| >= 2 && regexp[1] == '*' then
      var rest := Parse(regexp[2..]);
      Pattern([Many(regexp[0])] + rest.atoms, rest.toEnd)
    else if regexp == "$" then
      Pattern([], true)
    else
      var rest := Parse(regexp[1..]);
      Pattern([One(regexp[0])] + rest.atoms, rest.toEnd)
  }

  ghost predicate AtomDenotes(a: Atom, s: string) {
    match a
    case One(c) => |s| == 1 && Fits(c, s[0])
    case Many(c) => forall i :: 0 <= i < |s| ==> Fits(c, s[i])
  }

  /** The language of a list of atoms is the concatenation of their languages. */
  ghost predicate Denotes(atoms: seq<Atom>, s: string) {
    if atoms == [] then s == ""
    else exists k :: 0 <= k <= |s| && AtomDenotes(atoms[0], s[..k]) && Denotes(atoms[1..], s[k..])
  }

  /** The part of `text` from `i` to `k` is an occurrence of the pattern. */
  ghost predicate OccursAt(p: Pattern, text: string, i: nat, k: nat) {
    i <= k <= |text| && Denotes(p.atoms, text[i..k]) && (p.toEnd ==> k == |text|)
  }

  ghost predicate Here(p: Pattern, text: string) {
    exists k: nat :: OccursAt(p, text, 0, k)
  }

  // ---- how occurrences at the beginning decompose

  lemma HereEmpty(text: string, toEnd: bool)
    ensures Here(Pattern([], toEnd), text) <==> !toEnd || text == ""
  {
    assert OccursAt(Pattern([], false), text, 0, 0);
    if text == "" {
      assert OccursAt(Pattern([], true), text, 0, 0);
    }
  }

  lemma HereOne(c: char, rest: Pattern, text: string)
    ensures Here(Pattern([One(c)] + rest.atoms, rest.toEnd), text)
            <==> text != "" && Fits(c, text[0]) && Here(rest, text[1..])
  {
    var p := Pattern([One(c)] + rest.atoms, rest.toEnd);
    assert p.atoms[1..] == rest.atoms;
    if k: nat :| OccursAt(p, text, 0, k) {
      var s := text[0..k];
      var j :| 0 <= j <= |s| && AtomDenotes(p.atoms[0], s[..j]) && Denotes(p.atoms[1..], s[j..]);
      assert s[1..] == text[1..][0..k - 1];
      assert OccursAt(rest, text[1..], 0, k - 1);
    }
    if text != "" && Fits(c, text[0]) && Here(rest, text[1..]) {
      var k: nat :| OccursAt(rest, text[1..], 0, k);
      var s := text[0..k + 1];
      assert s[1..] == text[1..][0..k] && s[..1] == [text[0]];
      assert AtomDenotes(p.atoms[0], s[..1]) && Denotes(p.atoms[1..], s[1..]);
      assert OccursAt(p, text, 0, k + 1);
    }
  }

  /** The first `idx` characters of `text` all fit `c`. */
  ghost predicate AllFit(c: char, text: string, idx: nat) {
    idx <= |text| && forall i :: 0 <= i < idx ==> Fits(c, text[i])
  }

  lemma HereMany(c: char, rest: Pattern, text: string)
    ensures Here(Pattern([Many(c)] + rest.atoms, rest.toEnd), text)
            <==> exists idx: nat :: AllFit(c, text, idx) && Here(rest, text[idx..])
  {
    var p := Pattern([Many(c)] + rest.atoms, rest.toEnd);
    assert p.atoms[1..] == rest.atoms;
    if k: nat :| OccursAt(p, text, 0, k) {
      var s := text[0..k];
      var j :| 0 <= j <= |s| && AtomDenotes(p.atoms[0], s[..j]) && Denotes(p.atoms[1..], s[j..]);
      assert s[j..] == text[j..][0..k - j];
      assert forall i :: 0 <= i < j ==> s[..j][i] == text[i];
      assert OccursAt(rest, text[j..], 0, k - j);
      assert AllFit(c, text, j) && Here(rest, text[j..]);
    }
    if idx: nat :| AllFit(c, text, idx) && Here(rest, text[idx..]) {
      var k: nat :| OccursAt(rest, text[idx..], 0, k);
      var s := text[0..idx + k];
      assert s[idx..] == text[idx..][0..k];
      assert AtomDenotes(p.atoms[0], s[..idx]) && Denotes(p.atoms[1..], s[idx..]);
      assert OccursAt(p, text, 0, idx + k);
    }
  }

  // ---- the matcher

  /** Whether the pattern occurs at the beginning of the text. */
  method MatchHere(regexp: string, text: string) returns (found: bool)
    ensures found <==> Here(Parse(regexp), text)
    decreases |regexp|, 0
  {
    HereEmpty(text, false);
    HereEmpty(text, true);
    if regexp == "" {
      return true;
    }
    if |regexp| >= 2 && regexp[1] == '*' {
      HereMany(regexp[0], Parse(regexp[2..]), text);
      found := MatchStar(regexp[0], regexp[2..], text);
      return;
    }
    if regexp[0] == '$' && regexp[1..] == "" {
      return text == "";
    }
    HereOne(regexp[0], Parse(regexp[1..]), text);
    if text != "" && (regexp[0] == '.' || text[0] == regexp[0]) {
      found := MatchHere(regexp[1..], text[1..]);
      return;
    }
    return false;
  }

  /** Whether any number of `c` followed by the pattern occurs at the beginning of the text. */
  method MatchStar(c: char, regexp: string, text: string) returns (found: bool)
    ensures found <==> exists idx: nat :: AllFit(c, text, idx) && Here(Parse(regexp), text[idx..])
    decreases |regexp|, 1
  {
    var idx := 0;
    while true
      invariant AllFit(c, text, idx)
      invariant forall i: nat :: i < idx ==> !Here(Parse(regexp), text[i..])
      decreases |text| - idx
    {
      found := MatchHere(regexp, text[idx..]);
      if found {
        return true;
      }
      if idx == |text| || (text[idx] != c && c != '.') {
        return false;
      }
      idx := idx + 1;
    }
  }

  /** Whether the pattern occurs anywhere in the text, or at its beginning if it starts with '^'. */
  method Match(regexp: string, text: string) returns (found: bool)
    ensures regexp != "" && regexp[0] == '^' ==>
              (found <==> exists k: nat :: OccursAt(Parse(regexp[1..]), text, 0, k))
    ensures regexp == "" || regexp[0] != '^' ==>
              (found <==> exists i: nat, k: nat :: OccursAt(Parse(regexp), text, i, k))
  {
    if regexp != "" && regexp[0] == '^' {
      found := MatchHere(regexp[1..], text);
      return;
    }
    var p := Parse(regexp);
    var idx := 0;
    while true
      invariant idx <= |text|
      invariant forall i: nat, k: nat :: i < idx ==> !OccursAt(p, text, i, k)
      decreases |text| - idx
    {
      HereInSuffix(p, text, idx);
      found := MatchHere(regexp, text[idx..]);
      if found {
        return true;
      }
      if idx == |text| {
        break;
      }
      idx := idx + 1;
    }
    return false;
  }

  lemma HereInSuffix(p: Pattern, text: string, i: nat)
    requires i <= |text|
    ensures Here(p, text[i..]) <==> exists k: nat :: OccursAt(p, text, i, k)
  {
    if k: nat :| OccursAt(p, text[i..], 0, k) {
      assert text[i..][0..k] == text[i..i + k];
      assert OccursAt(p, text, i, i + k);
    }
    if k: nat :| OccursAt(p, text, i, k) {
      assert text[i..][0..k - i] == text[i..k];
      assert OccursAt(p, text[i..], 0, k - i);
    }
  }

  // ---- what the special characters mean

  lemma AllFitExactly(c: char, text: string)
    ensures AllFit(c, text, |text|) <==> c == '.' || forall i :: 0 <= i < |text| ==> text[i] == c
  {
    if c != '.' && AllFit(c, text, |text|) {
      forall i | 0 <= i < |text| ensures text[i] == c {
        assert Fits(c, text[i]);
      }
    }
  }

  /** Anchored at both ends, a character and '*' match the runs of the character, and with '.' every text. */
  lemma StarMatchesRuns(c: char, text: string)
    ensures (exists k: nat :: OccursAt(Parse([c, '*', '$']), text, 0, k))
            <==> c == '.' || forall i :: 0 <= i < |text| ==> text[i] == c
  {
    var end := Pattern([], true);
    assert [c, '*', '$'][2..] == "$" && Parse("$") == end;
    assert Parse([c, '*', '$']) == Pattern([Many(c)] + end.atoms, end.toEnd);
    HereMany(c, end, text);
    forall idx: nat | idx <= |text| ensures Here(end, text[idx..]) <==> idx == |text| {
      HereEmpty(text[idx..], true);
    }
    AllFitExactly(c, text);
    hide Parse, Here, AllFit;
    assert Here(Parse([c, '*', '$']), text) <==> AllFit(c, text, |text|);
    HereIsOccursAt(Parse([c, '*', '$']), text);
  }

  lemma HereIsOccursAt(p: Pattern, text: string)
    ensures Here(p, text) <==> exists k: nat :: OccursAt(p, text, 0, k)
  {
  }

  /** A character other than '$' occurs where it stands, and '.' everywhere before the end. */
  lemma CharacterOccurs(c: char, text: string, i: nat)
    requires c != '$' && i <= |text|
    ensures (exists k: nat :: OccursAt(Parse([c]), text, i, k)) <==> i < |text| && (c == '.' || text[i] == c)
  {
    var rest := Pattern([], false);
    assert [c][1..] == "" && Parse("") == rest;
    assert Parse([c]) == Pattern([One(c)] + rest.atoms, rest.toEnd);
    HereInSuffix(Parse([c]), text, i);
    HereOne(c, rest, text[i..]);
    if i < |text| {
      HereEmpty(text[i..][1..], false);
    }
  }

  /** The pattern "." matches the texts that are not empty, and "$" every text. */
  lemma DotAndEnd(text: string)
    ensures (exists i: nat, k: nat :: OccursAt(Parse("."), text, i, k)) <==> text != ""
    ensures OccursAt(Parse("$"), text, |text|, |text|)
    ensures forall i: nat, k: nat :: OccursAt(Parse("$"), text, i, k) ==> i == k == |text|
  {
    if text != "" {
      CharacterOccurs('.', text, 0);
      assert ['.'] == ".";
    }
    if i: nat, k: nat :| OccursAt(Parse("."), text, i, k) {
      CharacterOccurs('.', text, i);
      assert ['.'] == ".";
    }
    forall i: nat, k: nat | OccursAt(Parse("$"), text, i, k) ensures i == k == |text| {
    }
  }

  /** Run of the matcher on such a pattern. */
  method MatchRuns(c: char, text: string) returns (found: bool)
    ensures found <==> c == '.' || forall i :: 0 <= i < |text| ==> text[i] == c
  {
    StarMatchesRuns(c, text);
    var regexp := ['^', c, '*', '$'];
    assert regexp[1..] == [c, '*', '$'];
    found := Match(regexp, text);
  }
}

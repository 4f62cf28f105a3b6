/**
 The regular-expression matcher of grep: literals, `.`, `c*`, a leading `^` and
 a trailing `$`.

 The specification is the language the pattern denotes, as a concatenation of
 word sets. The matcher is proved to decide, for every pattern and every text,
 whether some substring that respects the anchors is in that language.
 */
module Regexp {

  // A C string: the terminator is not part of it.
  type CString = s: string | '\0' !in s

  // ----- The language a pattern denotes -----

  datatype Atom = One(c: char) | Star(c: char)

  datatype Regex = Regex(atoms: seq<Atom>, atEnd: bool)

  // The abstract syntax of a pattern once a leading `^` is removed. A `*` in first
  // position, a `^` that is not leading and a `$` that is not last are literals.
  ghost function Parse(re: string): Regex {
    if re == "" then Regex([], false)
    else if |re| >= 2 && re[1] == '*' then
      var r := Parse(re[2..]);
      Regex([Star(re[0])] + r.atoms, r.atEnd)
    else if re == "$" then Regex([], true)
    else
      var r := Parse(re[1..]);
      Regex([One(re[0])] + r.atoms, r.atEnd)
  }

  // Does pattern character c stand for text character x?
  predicate Stands(c: char, x: char) {
    c == '.' || c == x
  }

  ghost predicate AllStand(c: char, w: string) {
    forall i :: 0 <= i < |w| ==> Stands(c, w[i])
  }

  ghost predicate InAtom(a: Atom, w: string) {
    match a
    case One(c) => |w| == 1 && Stands(c, w[0])
    case Star(c) => AllStand(c, w)
  }

  // The language of a sequence of atoms: concatenations of one word per atom.
  ghost predicate InLanguage(atoms: seq<Atom>, w: string) {
    if atoms == [] then w == ""
    else exists k :: 0 <= k <= |w| && InAtom(atoms[0], w[..k]) && InLanguage(atoms[1..], w[k..])
  }

  // The substring text[i..j] is a match of r.
  ghost predicate MatchesAt(r: Regex, text: string, i: int, j: int) {
    0 <= i <= j <= |text| && (r.atEnd ==> j == |text|) && InLanguage(r.atoms, text[i..j])
  }

  ghost predicate MatchesPrefix(r: Regex, text: string) {
    exists j :: MatchesAt(r, text, 0, j)
  }

  // What grep promises: a `^` pins the match to the start of the text.
  ghost predicate Matches(re: string, text: string) {
    if re != "" && re[0] == '^' then MatchesPrefix(Parse(re[1..]), text)
    else exists i, j :: MatchesAt(Parse(re), text, i, j)
  }

  // ----- How the language unfolds one atom at a time -----

  lemma {:induction false} PrefixOfOne(c: char, r: Regex, text: string)
    ensures MatchesPrefix(Regex([One(c)] + r.atoms, r.atEnd), text)
            <==> text != "" && Stands(c, text[0]) && MatchesPrefix(r, text[1..])
  {
    var q := Regex([One(c)] + r.atoms, r.atEnd);
    assert q.atoms[1..] == r.atoms;
    if MatchesPrefix(q, text) {
      var j :| MatchesAt(q, text, 0, j);
      var w := text[0..j];
      var k :| 0 <= k <= |w| && InAtom(One(c), w[..k]) && InLanguage(r.atoms, w[k..]);
      assert w[1..] == text[1..][0..j-1];
      assert MatchesAt(r, text[1..], 0, j - 1);
    }
    if text != "" && Stands(c, text[0]) && MatchesPrefix(r, text[1..]) {
      var j :| MatchesAt(r, text[1..], 0, j);
      var w := text[0..j+1];
      assert w[1..] == text[1..][0..j];
      assert InAtom(One(c), w[..1]);
      assert MatchesAt(q, text, 0, j + 1);
    }
  }

  // c* takes k characters off the front, for some k.
  ghost predicate TakesOff(c: char, r: Regex, text: string, k: int) {
    0 <= k <= |text| && AllStand(c, text[..k]) && MatchesPrefix(r, text[k..])
  }

  ghost predicate StarMatches(c: char, r: Regex, text: string) {
    exists k :: TakesOff(c, r, text, k)
  }

  lemma {:induction false} PrefixOfStar(c: char, r: Regex, text: string)
    ensures MatchesPrefix(Regex([Star(c)] + r.atoms, r.atEnd), text) <==> StarMatches(c, r, text)
  {
    var q := Regex([Star(c)] + r.atoms, r.atEnd);
    assert q.atoms[1..] == r.atoms;
    if MatchesPrefix(q, text) {
      var j :| MatchesAt(q, text, 0, j);
      var w := text[0..j];
      var k :| 0 <= k <= |w| && InAtom(Star(c), w[..k]) && InLanguage(r.atoms, w[k..]);
      assert w[..k] == text[..k] && w[k..] == text[k..][0..j-k];
      assert MatchesAt(r, text[k..], 0, j - k);
      assert TakesOff(c, r, text, k);
    }
    if k :| TakesOff(c, r, text, k) {
      var j :| MatchesAt(r, text[k..], 0, j);
      var w := text[0..k+j];
      assert w[..k] == text[..k] && w[k..] == text[k..][0..j];
      assert InAtom(Star(c), w[..k]);
      assert MatchesAt(q, text, 0, k + j);
    }
  }

  // ----- The matcher -----

  method MatchHere(re: CString, text: CString) returns (found: bool)
    ensures found <==> MatchesPrefix(Parse(re), text)
    decreases |re|, 0
  {
    if re == "" {
      assert MatchesAt(Parse(re), text, 0, 0);
      return true;
    }
    if |re| >= 2 && re[1] == '*' {
      PrefixOfStar(re[0], Parse(re[2..]), text);
      found := MatchStar(re[0], re[2..], text);
      return;
    }
    if re[0] == '$' && |re| == 1 {
      assert text == "" ==> MatchesAt(Parse(re), text, 0, 0);
      return text == "";
    }
    PrefixOfOne(re[0], Parse(re[1..]), text);
    if text != "" && (re[0] == '.' || re[0] == text[0]) {
      found := MatchHere(re[1..], text[1..]);
      return;
    }
    return false;
  }

  method MatchStar(c: char, re: CString, text: CString) returns (found: bool)
    ensures found <==> StarMatches(c, Parse(re), text)
    decreases |re|, 1
  {
    var k := 0;  // the text pointer
    while true
      invariant 0 <= k <= |text| && AllStand(c, text[..k])
      invariant forall i :: 0 <= i < k ==> !TakesOff(c, Parse(re), text, i)
      decreases |text| - k
    {
      var here := MatchHere(re, text[k..]);
      if here {
        assert TakesOff(c, Parse(re), text, k);
        return true;
      }
      if k == |text| || !(text[k] == c || c == '.') {
        forall i ensures !TakesOff(c, Parse(re), text, i) {
          if k < i <= |text| {
            assert text[..i][k] == text[k];
          }
        }
        return false;
      }
      k := k + 1;
    }
  }

  method Match(re: CString, text: CString) returns (found: bool)
    ensures found <==> Matches(re, text)
  {
    if re != "" && re[0] == '^' {
      found := MatchHere(re[1..], text);
      return;
    }
    var i := 0;  // the text pointer
    while true
      invariant 0 <= i <= |text|
      invariant forall k, j :: 0 <= k < i ==> !MatchesAt(Parse(re), text, k, j)
      decreases |text| - i
    {
      var here := MatchHere(re, text[i..]);
      MatchAtSuffix(Parse(re), text, i);
      if here {
        return true;
      }
      if i == |text| {
        return false;
      }
      i := i + 1;
    }
  }

  lemma MatchAtSuffix(r: Regex, text: string, i: int)
    requires 0 <= i <= |text|
    ensures MatchesPrefix(r, text[i..]) <==> exists j :: MatchesAt(r, text, i, j)
  {
    if j :| MatchesAt(r, text[i..], 0, j) {
      assert text[i..][0..j] == text[i..i+j];
      assert MatchesAt(r, text, i, i + j);
    }
    if j :| MatchesAt(r, text, i, j) {
      assert text[i..][0..j-i] == text[i..j];
      assert MatchesAt(r, text[i..], 0, j - i);
    }
  }
}

/** grep.c's matcher against the language its pattern denotes.

    A C string is the sequence of its characters before the terminating NUL, so the tests for
    '\0' are tests for the end of the sequence. */
module Grep {

  /** One position of a pattern: a single character or any number of them; '.' is any. */
  datatype Atom = One(c: char) | Star(c: char)

  datatype Pattern = Pattern(atoms: seq<Atom>, toEnd: bool)

  predicate Accepts(c: char, x: char) {
    c == '.' || c == x
  }

  /** How a pattern reads, after any leading '^': a character followed by '*' is starred, whatever
      it is; '$' means the end only as the last character; everything else stands for itself. */
  function Parse(re: string): (p: Pattern)
    decreases |re|
  {
    if re == "" then Pattern([], false)
    else if |re| >= 2 && re[1] == '*' then
      var p := Parse(re[2..]);
      Pattern([Star(re[0])] + p.atoms, p.toEnd)
    else if re == "$" then Pattern([], true)
    else
      var p := Parse(re[1..]);
      Pattern([One(re[0])] + p.atoms, p.toEnd)
  }

  function PrintAtom(a: Atom): (s: string) {
    match a
    case One(c) => [c]
    case Star(c) => [c, '*']
  }

  /** The text of a pattern. */
  function Print(p: Pattern): (s: string)
    decreases |p.atoms|
  {
    if p.atoms == [] then if p.toEnd then "$" else ""
    else PrintAtom(p.atoms[0]) + Print(Pattern(p.atoms[1..], p.toEnd))
  }

  /** No text is lost in reading it as a pattern: printing the pattern gives it back. */
  lemma {:induction false} PrintParse(re: string)
    ensures Print(Parse(re)) == re
    decreases |re|
  {
    if re != "" && re != "$" {
      var n := if |re| >= 2 && re[1] == '*' then 2 else 1;
      PrintParse(re[n..]);
      var p, rest := Parse(re), Parse(re[n..]);
      assert p.atoms[1..] == rest.atoms && p.toEnd == rest.toEnd;
      assert re == re[..n] + re[n..] && PrintAtom(p.atoms[0]) == re[..n];
    }
  }

  /** A character that a star would follow, or a final '$' that is meant literally, reads as something else. */
  predicate Readable(p: Pattern) {
    && (forall i :: 0 <= i < |p.atoms| - 1 && p.atoms[i].One? ==> p.atoms[i + 1].c != '*')
    && (p.atoms != [] && p.atoms[|p.atoms| - 1] == One('$') ==> p.toEnd)
  }

  lemma FirstOf(p: Pattern)
    requires p.atoms != []
    ensures Print(p) != "" && Print(p)[0] == p.atoms[0].c
  {}

  /** Every other pattern is what its text reads as. */
  lemma {:induction false} ParsePrint(p: Pattern)
    requires Readable(p)
    ensures Parse(Print(p)) == p
    decreases |p.atoms|
  {
    if p.atoms != [] {
      var a, rest := p.atoms[0], Pattern(p.atoms[1..], p.toEnd);
      assert Readable(rest) by {
        assert forall i :: 0 <= i < |rest.atoms| ==> rest.atoms[i] == p.atoms[i + 1];
      }
      ParsePrint(rest);
      var re := Print(p);
      assert re == PrintAtom(a) + Print(rest);
      assert re[|PrintAtom(a)|..] == Print(rest);
      if a.One? && rest.atoms != [] {
        FirstOf(rest);
      }
      assert p.atoms == [a] + rest.atoms;
    }
  }

  /** No character of it is special. */
  predicate Literal(re: string) {
    forall i :: 0 <= i < |re| ==> re[i] != '.' && re[i] != '*' && re[i] != '^' && re[i] != '$'
  }

  /** Literal text matches where it stands, '.' being any one character. */
  lemma {:induction false} LiteralHere(re: string, text: string)
    requires forall i :: 0 <= i < |re| ==> re[i] != '*' && re[i] != '$'
    ensures MatchesHere(Parse(re), text)
            <==> |re| <= |text| && forall i :: 0 <= i < |re| ==> re[i] == '.' || re[i] == text[i]
    decreases |re|
  {
    if re == "" {
      HereEmpty(false, text);
    } else {
      var p := Parse(re[1..]);
      HereOne(re[0], p, text);
      assert Parse(re) == Pattern([One(re[0])] + p.atoms, p.toEnd);
      if text != "" {
        LiteralHere(re[1..], text[1..]);
        var rest, more := re[1..], text[1..];
        assert forall i :: 0 < i < |re| ==> re[i] == rest[i - 1] && (i < |text| ==> text[i] == more[i - 1]);
      }
    }
  }

  /** A pattern without special characters is found exactly where it occurs. */
  lemma LiteralMatch(re: string, text: string)
    requires Literal(re)
    ensures Matches(re, text) <==> exists i :: 0 <= i <= |text| && re <= text[i..]
  {
    forall i | 0 <= i <= |text| ensures MatchesHere(Parse(re), text[i..]) <==> re <= text[i..] {
      LiteralHere(re, text[i..]);
      var rest := text[i..];
      if |re| <= |rest| && forall k :: 0 <= k < |re| ==> re[k] == rest[k] {
        assert rest[..|re|] == re;
      }
    }
  }

  /** The words one atom stands for. */
  ghost predicate InAtom(a: Atom, w: string) {
    match a
    case One(c) => |w| == 1 && Accepts(c, w[0])
    case Star(c) => forall i :: 0 <= i < |w| ==> Accepts(c, w[i])
  }

  /** The words a list of atoms stands for: concatenations of words of each. */
  ghost predicate InLanguage(atoms: seq<Atom>, w: string)
    decreases |atoms|
  {
    if atoms == [] then w == ""
    else exists k :: 0 <= k <= |w| && InAtom(atoms[0], w[..k]) && InLanguage(atoms[1..], w[k..])
  }

  /** Some prefix of text is in the pattern's language; all of text, if it ends in '$'. */
  ghost predicate MatchesHere(p: Pattern, text: string) {
    exists j :: 0 <= j <= |text| && (p.toEnd ==> j == |text|) && InLanguage(p.atoms, text[..j])
  }

  /** What match() promises: a substring in the language, at the start if the pattern begins
      with '^', reaching the end if it ends with '$'. */
  ghost predicate Matches(re: string, text: string) {
    if re != "" && re[0] == '^' then MatchesHere(Parse(re[1..]), text)
    else exists i :: 0 <= i <= |text| && MatchesHere(Parse(re), text[i..])
  }

  lemma HereEmpty(toEnd: bool, text: string)
    ensures MatchesHere(Pattern([], toEnd), text) <==> (toEnd ==> text == "")
  {
    if toEnd ==> text == "" {
      assert InLanguage([], text[..0]);
    }
  }

  lemma HereOne(c: char, p: Pattern, text: string)
    ensures MatchesHere(Pattern([One(c)] + p.atoms, p.toEnd), text)
       <==> text != "" && Accepts(c, text[0]) && MatchesHere(p, text[1..])
  {
    var atoms := [One(c)] + p.atoms;
    assert atoms[1..] == p.atoms;
    if MatchesHere(Pattern(atoms, p.toEnd), text) {
      var j :| 0 <= j <= |text| && (p.toEnd ==> j == |text|) && InLanguage(atoms, text[..j]);
      var w := text[..j];
      var k :| 0 <= k <= |w| && InAtom(One(c), w[..k]) && InLanguage(p.atoms, w[k..]);
      assert k == 1;
      assert w[1..] == text[1..j];
      assert text[1..][..j - 1] == text[1..j];
    }
    if text != "" && Accepts(c, text[0]) && MatchesHere(p, text[1..]) {
      var j :| 0 <= j <= |text| - 1 && (p.toEnd ==> j == |text| - 1) && InLanguage(p.atoms, text[1..][..j]);
      var w := text[..j + 1];
      assert w[1..] == text[1..][..j] && InAtom(One(c), w[..1]);
      assert InLanguage(atoms, w);
    }
  }

  /** Literal text with a final '$' is all that is left. */
  lemma {:induction false} LiteralToEnd(re: string, text: string)
    requires Literal(re)
    ensures MatchesHere(Parse(re + "$"), text) <==> text == re
    decreases |re|
  {
    if re == "" {
      HereEmpty(true, text);
      assert re + "$" == "$";
    } else {
      var rest := re[1..] + "$";
      assert (re + "$")[1..] == rest && re == [re[0]] + re[1..];
      var p := Parse(rest);
      HereOne(re[0], p, text);
      assert Parse(re + "$") == Pattern([One(re[0])] + p.atoms, p.toEnd);
      if text != "" {
        LiteralToEnd(re[1..], text[1..]);
        assert text == [text[0]] + text[1..];
      }
    }
  }

  /** '^' ties literal text to the start, '$' to the end. */
  lemma LiteralAnchored(re: string, text: string)
    requires Literal(re)
    ensures Matches("^" + re, text) <==> re <= text
    ensures Matches(re + "$", text) <==> |re| <= |text| && text[|text| - |re|..] == re
  {
    assert ("^" + re)[1..] == re;
    LiteralHere(re, text);
    if |re| <= |text| && forall i :: 0 <= i < |re| ==> re[i] == text[i] {
      assert text[..|re|] == re;
    }
    assert (re + "$")[0] != '^';
    forall i | 0 <= i <= |text| ensures MatchesHere(Parse(re + "$"), text[i..]) <==> text[i..] == re {
      LiteralToEnd(re, text[i..]);
    }
    if |re| <= |text| && text[|text| - |re|..] == re {
      assert MatchesHere(Parse(re + "$"), text[|text| - |re|..]);
    }
  }

  /** The first k characters of text are all accepted by c, and the rest matches. */
  ghost predicate StarAt(c: char, p: Pattern, text: string, k: nat) {
    && k <= |text|
    && (forall i :: 0 <= i < k ==> Accepts(c, text[i]))
    && MatchesHere(p, text[k..])
  }

  ghost predicate StarMatches(c: char, p: Pattern, text: string) {
    exists k: nat :: StarAt(c, p, text, k)
  }

  lemma HereStar(c: char, p: Pattern, text: string)
    ensures MatchesHere(Pattern([Star(c)] + p.atoms, p.toEnd), text) <==> StarMatches(c, p, text)
  {
    var atoms := [Star(c)] + p.atoms;
    assert atoms[1..] == p.atoms;
    if MatchesHere(Pattern(atoms, p.toEnd), text) {
      var j :| 0 <= j <= |text| && (p.toEnd ==> j == |text|) && InLanguage(atoms, text[..j]);
      var w := text[..j];
      var k :| 0 <= k <= |w| && InAtom(Star(c), w[..k]) && InLanguage(p.atoms, w[k..]);
      assert text[k..][..j - k] == w[k..];
      forall i | 0 <= i < k
        ensures Accepts(c, text[i])
      {
        assert w[..k][i] == text[i];
      }
      assert StarAt(c, p, text, k);
    }
    if k: nat :| StarAt(c, p, text, k) {
      var rest := text[k..];
      var j :| 0 <= j <= |rest| && (p.toEnd ==> j == |rest|) && InLanguage(p.atoms, rest[..j]);
      var w := text[..k + j];
      assert w[k..] == rest[..j] && InAtom(Star(c), w[..k]);
      assert InLanguage(atoms, w);
    }
  }

  /** c* is any number of c, none of them too; '.' stands for any character. */
  lemma StarIsAny(c: char, re: string, text: string)
    ensures MatchesHere(Parse([c, '*'] + re), text)
            <==> exists k :: 0 <= k <= |text| && (forall i :: 0 <= i < k ==> c == '.' || text[i] == c)
                             && MatchesHere(Parse(re), text[k..])
  {
    var p := Parse(re);
    assert ([c, '*'] + re)[2..] == re;
    HereStar(c, p, text);
    if k: nat :| StarAt(c, p, text, k) {
      assert 0 <= k <= |text| && MatchesHere(p, text[k..]);
    }
    if k :| 0 <= k <= |text| && (forall i :: 0 <= i < k ==> c == '.' || text[i] == c) && MatchesHere(p, text[k..]) {
      assert StarAt(c, p, text, k);
    }
  }

  /** matchhere(): does re match at the beginning of text? */
  method MatchHere(re: string, text: string) returns (r: bool)
    ensures r <==> MatchesHere(Parse(re), text)
    decreases |re|, 0
  {
    if re == "" {
      HereEmpty(false, text);
      return true;
    }
    if |re| >= 2 && re[1] == '*' {
      ghost var p := Parse(re[2..]);
      HereStar(re[0], p, text);
      assert Parse(re) == Pattern([Star(re[0])] + p.atoms, p.toEnd);
      r := MatchStar(re[0], re[2..], text);
      return;
    }
    if re == "$" {
      HereEmpty(true, text);
      return text == "";
    }
    HereOne(re[0], Parse(re[1..]), text);
    if text != "" && (re[0] == '.' || re[0] == text[0]) {
      r := MatchHere(re[1..], text[1..]);
    } else {
      r := false;
    }
  }

  /** matchstar(): does c* followed by re match at the beginning of text? */
  method MatchStar(c: char, re: string, text: string) returns (r: bool)
    ensures r <==> StarMatches(c, Parse(re), text)
    decreases |re|, 1
  {
    var k := 0;
    while true
      invariant k <= |text|
      invariant forall i :: 0 <= i < k ==> Accepts(c, text[i])
      invariant forall i :: 0 <= i < k ==> !StarAt(c, Parse(re), text, i)
      decreases |text| - k
    {
      r := MatchHere(re, text[k..]);
      if r {
        assert StarAt(c, Parse(re), text, k);
        return;
      }
      if !(k < |text| && (text[k] == c || c == '.')) {
        return;
      }
      k := k + 1;
    }
  }

  /** match() */
  method Match(re: string, text: string) returns (r: bool)
    ensures r <==> Matches(re, text)
  {
    if re != "" && re[0] == '^' {
      r := MatchHere(re[1..], text);
      return;
    }
    var i := 0;
    while true
      invariant i <= |text|
      invariant forall m :: 0 <= m < i ==> !MatchesHere(Parse(re), text[m..])
      decreases |text| - i
    {
      r := MatchHere(re, text[i..]);
      if r || i == |text| {
        return;
      }
      i := i + 1;
    }
  }
}

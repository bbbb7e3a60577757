/** The matcher of grep (grep.c). A pattern and a text are strings without the final NUL; a text pointer is an index. */
module Grep {
  /** What a pattern is made of: a character ('.' is any), a starred character, and a final '$'. */
  datatype Piece = One(c: char) | Star(c: char) | End

  function Pieces(re: string): (ps: seq<Piece>) {
    if re == "" then []
    else if |re| >= 2 && re[1] == '*' then [Star(re[0])] + Pieces(re[2..])
    else if re == "$" then [End]
    else [One(re[0])] + Pieces(re[1..])
  }

  predicate Same(c: char, x: char) {
    c == '.' || c == x
  }

  /** text[a..b] is in the language of the piece. */
  predicate Fits(p: Piece, text: string, a: nat, b: nat)
    requires a <= b <= |text|
  {
    match p
    case One(c) => b == a + 1 && Same(c, text[a])
    case Star(c) => forall k :: a <= k < b ==> Same(c, text[k])
    case End => a == b == |text|
  }

  /** cuts divides part of the text among the pieces. */
  ghost predicate Divides(ps: seq<Piece>, text: string, cuts: seq<nat>) {
    && |cuts| == |ps| + 1 && (forall i :: 0 <= i < |cuts| ==> cuts[i] <= |text|)
    && forall i :: 0 <= i < |ps| ==> cuts[i] <= cuts[i + 1] && Fits(ps[i], text, cuts[i], cuts[i + 1])
  }

  /** Some part of the text that starts at a is in the language of the pieces. */
  ghost predicate Accepts(ps: seq<Piece>, text: string, a: nat) {
    exists cuts :: Divides(ps, text, cuts) && cuts[0] == a
  }

  /** What a pattern means: '^' ties the match to the start of the text. */
  ghost predicate Matches(re: string, text: string) {
    if re != "" && re[0] == '^' then Accepts(Pieces(re[1..]), text, 0)
    else exists a :: 0 <= a <= |text| && Accepts(Pieces(re), text, a)
  }

  lemma AcceptsNone(text: string, a: nat)
    requires a <= |text|
    ensures Accepts([], text, a)
  {
    assert Divides([], text, [a]);
  }

  lemma AcceptsCons(p: Piece, ps: seq<Piece>, text: string, a: nat, b: nat)
    requires a <= b <= |text| && Fits(p, text, a, b) && Accepts(ps, text, b)
    ensures Accepts([p] + ps, text, a)
  {
    var cuts :| Divides(ps, text, cuts) && cuts[0] == b;
    var longer := [a] + cuts;
    forall i | 0 <= i < |ps| + 1
      ensures longer[i] <= longer[i + 1] && Fits(([p] + ps)[i], text, longer[i], longer[i + 1])
    {
      if i > 0 {
        assert longer[i] == cuts[i - 1] && longer[i + 1] == cuts[i];
      }
    }
    assert Divides([p] + ps, text, longer);
  }

  lemma AcceptsUncons(p: Piece, ps: seq<Piece>, text: string, a: nat) returns (b: nat)
    requires Accepts([p] + ps, text, a)
    ensures a <= b <= |text| && Fits(p, text, a, b) && Accepts(ps, text, b)
  {
    var cuts :| Divides([p] + ps, text, cuts) && cuts[0] == a;
    b := cuts[1];
    var shorter := cuts[1..];
    assert ([p] + ps)[0] == p;
    forall i | 0 <= i < |ps|
      ensures shorter[i] <= shorter[i + 1] && Fits(ps[i], text, shorter[i], shorter[i + 1])
    {
      assert ([p] + ps)[i + 1] == ps[i];
    }
    assert Divides(ps, text, shorter);
  }

  /** A star may match nothing, or one more character. */
  lemma StarUnfold(c: char, ps: seq<Piece>, text: string, a: nat)
    requires a <= |text|
    ensures Accepts([Star(c)] + ps, text, a) <==>
            Accepts(ps, text, a) || (a < |text| && Same(c, text[a]) && Accepts([Star(c)] + ps, text, a + 1))
  {
    if Accepts([Star(c)] + ps, text, a) {
      var b := AcceptsUncons(Star(c), ps, text, a);
      if a < b {
        AcceptsCons(Star(c), ps, text, a + 1, b);
      }
    }
    if Accepts(ps, text, a) {
      AcceptsCons(Star(c), ps, text, a, a);
    }
    if a < |text| && Same(c, text[a]) && Accepts([Star(c)] + ps, text, a + 1) {
      var b := AcceptsUncons(Star(c), ps, text, a + 1);
      AcceptsCons(Star(c), ps, text, a, b);
    }
  }

  lemma OneUnfold(c: char, ps: seq<Piece>, text: string, a: nat)
    requires a <= |text|
    ensures Accepts([One(c)] + ps, text, a) <==> a < |text| && Same(c, text[a]) && Accepts(ps, text, a + 1)
  {
    if Accepts([One(c)] + ps, text, a) {
      var b := AcceptsUncons(One(c), ps, text, a);
    }
    if a < |text| && Same(c, text[a]) && Accepts(ps, text, a + 1) {
      AcceptsCons(One(c), ps, text, a, a + 1);
    }
  }

  lemma EndUnfold(text: string, a: nat)
    requires a <= |text|
    ensures Accepts([End], text, a) <==> a == |text|
  {
    assert [End] == [End] + [];
    if Accepts([End], text, a) {
      var b := AcceptsUncons(End, [], text, a);
    }
    if a == |text| {
      AcceptsNone(text, a);
      AcceptsCons(End, [], text, a, a);
    }
  }

  /** Search for re at position a of the text. */
  method Matchhere(re: string, text: string, a: nat) returns (r: bool)
    requires a <= |text|
    ensures r <==> Accepts(Pieces(re), text, a)
    decreases |re|, 0
  {
    if re == "" {
      AcceptsNone(text, a);
      return true;
    }
    if |re| >= 2 && re[1] == '*' {
      r := Matchstar(re[0], re[2..], text, a);
      return;
    }
    if re[0] == '$' && |re| == 1 {
      EndUnfold(text, a);
      return a == |text|;
    }
    OneUnfold(re[0], Pieces(re[1..]), text, a);
    if a < |text| && (re[0] == '.' || re[0] == text[a]) {
      r := Matchhere(re[1..], text, a + 1);
      return;
    }
    return false;
  }

  /** Search for c*re at position a of the text. */
  method Matchstar(c: char, re: string, text: string, a: nat) returns (r: bool)
    requires a <= |text|
    ensures r <==> Accepts([Star(c)] + Pieces(re), text, a)
    decreases |re|, 1
  {
    var at := a;
    while true
      invariant a <= at <= |text|
      invariant Accepts([Star(c)] + Pieces(re), text, a) <==> Accepts([Star(c)] + Pieces(re), text, at)
      decreases |text| - at
    {
      StarUnfold(c, Pieces(re), text, at);
      var here := Matchhere(re, text, at);
      if here {
        return true;
      }
      if at == |text| || !(text[at] == c || c == '.') {
        return false;
      }
      at := at + 1;
    }
  }

  /** match: sound and complete for the language of the pattern. */
  method Match(re: string, text: string) returns (r: bool)
    ensures r <==> Matches(re, text)
  {
    if re != "" && re[0] == '^' {
      r := Matchhere(re[1..], text, 0);
      return;
    }
    var at := 0;
    while true
      invariant 0 <= at <= |text|
      invariant forall a :: 0 <= a < at ==> !Accepts(Pieces(re), text, a)
      decreases |text| - at
    {
      var here := Matchhere(re, text, at);
      if here {
        return true;
      }
      if at == |text| {
        return false;
      }
      at := at + 1;
    }
  }

  // What patterns mean

  /** A pattern without '^', '$' and '*'. */
  predicate Plain(p: string) {
    forall k :: 0 <= k < |p| ==> p[k] != '^' && p[k] != '$' && p[k] != '*'
  }

  /** The text agrees with p from a on, where '.' agrees with everything. */
  predicate Agrees(p: string, text: string, a: nat) {
    a + |p| <= |text| && forall k :: 0 <= k < |p| ==> p[k] == '.' || p[k] == text[a + k]
  }

  function Ones(p: string): (ps: seq<Piece>) {
    if p == "" then [] else [One(p[0])] + Ones(p[1..])
  }

  lemma {:induction false} PlainPieces(p: string, rest: string)
    requires Plain(p) && (rest != "" ==> rest[0] != '*')
    ensures Pieces(p + rest) == Ones(p) + Pieces(rest)
  {
    if p == "" {
      assert p + rest == rest;
    } else {
      PlainPieces(p[1..], rest);
      var re := p + rest;
      assert re[1..] == p[1..] + rest && re[0] == p[0] != '$' && (|re| >= 2 ==> re[1] != '*');
      hide Plain;
      assert Pieces(re) == [One(re[0])] + Pieces(re[1..]);
    }
  }

  lemma {:induction false} OnesAccept(p: string, ps: seq<Piece>, text: string, a: nat)
    requires a <= |text|
    ensures Accepts(Ones(p) + ps, text, a) <==> Agrees(p, text, a) && Accepts(ps, text, a + |p|)
  {
    if p == "" {
      assert Ones(p) + ps == ps;
    } else {
      var rest := Ones(p[1..]) + ps;
      assert Ones(p) + ps == [One(p[0])] + rest;
      OneUnfold(p[0], rest, text, a);
      if a < |text| {
        OnesAccept(p[1..], ps, text, a + 1);
        assert Agrees(p, text, a) <==> Same(p[0], text[a]) && Agrees(p[1..], text, a + 1) by {
          AgreesFirst(p, text, a);
        }
      }
    }
  }

  lemma AgreesFirst(p: string, text: string, a: nat)
    requires p != "" && a < |text|
    ensures Agrees(p, text, a) <==> (p[0] == '.' || p[0] == text[a]) && Agrees(p[1..], text, a + 1)
  {
    if (p[0] == '.' || p[0] == text[a]) && Agrees(p[1..], text, a + 1) {
      forall k | 0 <= k < |p|
        ensures p[k] == '.' || p[k] == text[a + k]
      {
        assert k > 0 ==> p[k] == p[1..][k - 1];
      }
    }
  }

  /** A plain pattern matches exactly the texts that somewhere agree with it. */
  lemma PlainMatch(p: string, text: string)
    requires Plain(p)
    ensures Matches(p, text) <==> exists a :: 0 <= a <= |text| && Agrees(p, text, a)
  {
    PlainPieces(p, "");
    assert p + "" == p && Ones(p) + [] == Ones(p);
    forall a | 0 <= a <= |text|
      ensures Accepts(Pieces(p), text, a) <==> Agrees(p, text, a)
    {
      OnesAccept(p, [], text, a);
      if a + |p| <= |text| {
        AcceptsNone(text, a + |p|);
      }
    }
  }

  /** Between '^' and '$' it matches exactly the texts that agree with it from end to end. */
  lemma WholeMatch(p: string, text: string)
    requires Plain(p)
    ensures Matches("^" + p + "$", text) <==> |text| == |p| && Agrees(p, text, 0)
  {
    assert ("^" + p + "$")[1..] == p + "$";
    PlainPieces(p, "$");
    OnesAccept(p, [End], text, 0);
    if |p| <= |text| {
      EndUnfold(text, |p|);
    }
  }

  /** The text from a on is any number of characters that agree with c, and then q to its end. */
  ghost predicate StarThenEnd(c: char, q: string, text: string, a: nat) {
    && a + |q| <= |text| && Agrees(q, text, |text| - |q|)
    && forall k :: a <= k < |text| - |q| ==> c == '.' || c == text[k]
  }

  lemma {:induction false} StarAccept(c: char, q: string, text: string, a: nat)
    requires a <= |text|
    ensures Accepts([Star(c)] + (Ones(q) + [End]), text, a) <==> StarThenEnd(c, q, text, a)
    decreases |text| - a
  {
    var ps := Ones(q) + [End];
    StarUnfold(c, ps, text, a);
    OnesAccept(q, [End], text, a);
    if a + |q| <= |text| {
      EndUnfold(text, a + |q|);
    }
    if a < |text| {
      StarAccept(c, q, text, a + 1);
    }
  }

  /** With a starred character between two plain parts: the ends agree with them, and all between with the character. */
  lemma StarMatch(p: string, c: char, q: string, text: string)
    requires Plain(p) && Plain(q) && c != '*'
    ensures Matches("^" + (p + ([c, '*'] + (q + "$"))), text) <==>
      && |p| + |q| <= |text| && Agrees(p, text, 0) && Agrees(q, text, |text| - |q|)
      && forall k :: |p| <= k < |text| - |q| ==> c == '.' || c == text[k]
  {
    var rest := [c, '*'] + (q + "$");
    assert ("^" + (p + rest))[1..] == p + rest;
    PlainPieces(p, rest);
    assert rest[2..] == q + "$";
    PlainPieces(q, "$");
    assert Pieces(rest) == [Star(c)] + (Ones(q) + [End]);
    OnesAccept(p, Pieces(rest), text, 0);
    if |p| <= |text| {
      StarAccept(c, q, text, |p|);
    }
  }

  /** Pieces as a pattern. */
  function Show(ps: seq<Piece>): (re: string) {
    if ps == [] then ""
    else
      match ps[0]
      case One(c) => [c] + Show(ps[1..])
      case Star(c) => [c, '*'] + Show(ps[1..])
      case End => "$" + Show(ps[1..])
  }

  /** Pieces a pattern can have: an end only at the end, no '$' for itself there, and no '*' behind a character. */
  predicate Good(ps: seq<Piece>) {
    ps != [] ==>
      && Good(ps[1..]) && (ps[0].End? ==> |ps| == 1) && (ps[0] == One('$') ==> |ps| > 1)
      && (ps[0].One? && |ps| > 1 && !ps[1].End? ==> ps[1].c != '*')
  }

  lemma {:induction false} ReadShown(ps: seq<Piece>)
    requires Good(ps)
    ensures Pieces(Show(ps)) == ps
  {
    if ps != [] {
      ReadShown(ps[1..]);
      var re, rest := Show(ps), Show(ps[1..]);
      if ps[0].Star? {
        assert re[2..] == rest;
      } else {
        assert re[1..] == rest;
      }
    }
  }

  lemma {:induction false} ShowRead(re: string)
    ensures Show(Pieces(re)) == re && Good(Pieces(re))
  {
    if re == "" {
    } else if |re| >= 2 && re[1] == '*' {
      ShowRead(re[2..]);
      assert Pieces(re)[1..] == Pieces(re[2..]);
      assert re == [re[0], '*'] + re[2..];
    } else if re != "$" {
      ShowRead(re[1..]);
      assert Pieces(re)[1..] == Pieces(re[1..]);
      assert re == [re[0]] + re[1..];
    }
  }

  /** A pattern reads as the only pieces that it can be written from. */
  lemma PiecesExact(re: string, ps: seq<Piece>)
    ensures Pieces(re) == ps <==> Good(ps) && Show(ps) == re
  {
    ShowRead(re);
    if Good(ps) {
      ReadShown(ps);
    }
  }
}

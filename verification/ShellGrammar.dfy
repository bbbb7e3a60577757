/**
 The grammar of the shell's command lines, and the theorem that the parser of sh.c accepts exactly its sentences, with
 their trees:

   line  =  pipe '&'* [';' line]          unit  =  redir* (word redir*)*  |  '(' line ')' redir*
   pipe  =  unit ['|' pipe]               redir =  ('<' | '>' | '>>') word
 */
module ShellGrammar {
  import opened Shell

  /** A token: a word, or an operator, '+' standing for >>. */
  datatype Tok = Word(text: string) | Op(op: char)

  // Concrete syntax

  datatype Red = Red(op: char, file: string)

  datatype Arg = Arg(word: string, reds: seq<Red>)

  datatype Unit = Simple(reds: seq<Red>, args: seq<Arg>) | Group(line: Line, reds: seq<Red>)

  datatype Pipeline = One(unit: Unit) | Into(unit: Unit, rest: Pipeline)

  datatype Line = Last(pipe: Pipeline, backs: nat) | Then(pipe: Pipeline, backs: nat, rest: Line)

  // The tokens of a sentence

  function FlatReds(rs: seq<Red>): (ts: seq<Tok>) {
    if rs == [] then [] else [Op(rs[0].op), Word(rs[0].file)] + FlatReds(rs[1..])
  }

  function FlatArgs(xs: seq<Arg>): (ts: seq<Tok>) {
    if xs == [] then [] else [Word(xs[0].word)] + FlatReds(xs[0].reds) + FlatArgs(xs[1..])
  }

  function FlatUnit(u: Unit): (ts: seq<Tok>) {
    match u
    case Simple(rs, xs) => FlatReds(rs) + FlatArgs(xs)
    case Group(l, rs) => [Op('(')] + Flat(l) + [Op(')')] + FlatReds(rs)
  }

  function FlatPipe(p: Pipeline): (ts: seq<Tok>) {
    match p
    case One(u) => FlatUnit(u)
    case Into(u, rest) => FlatUnit(u) + [Op('|')] + FlatPipe(rest)
  }

  function Amps(n: nat): (ts: seq<Tok>) {
    seq(n, _ => Op('&'))
  }

  function Flat(l: Line): (ts: seq<Tok>) {
    match l
    case Last(p, n) => FlatPipe(p) + Amps(n)
    case Then(p, n, rest) => FlatPipe(p) + Amps(n) + [Op(';')] + Flat(rest)
  }

  // The tree of a sentence

  /** The redirections around a command, the first innermost. */
  function Around(c: Cmd<string>, rs: seq<Red>): (r: Cmd<string>)
    decreases |rs|
  {
    if rs == [] then c else Around(Redir(c, rs[0].file, rs[0].op == '<'), rs[1..])
  }

  function Words(xs: seq<Arg>): (ws: seq<string>)
    ensures |ws| == |xs|
  {
    if xs == [] then [] else [xs[0].word] + Words(xs[1..])
  }

  function Reds(xs: seq<Arg>): (rs: seq<Red>) {
    if xs == [] then [] else xs[0].reds + Reds(xs[1..])
  }

  function TreeUnit(u: Unit): (c: Cmd<string>) {
    match u
    case Simple(rs, xs) => Around(Exec(Words(xs)), rs + Reds(xs))
    case Group(l, rs) => Around(Tree(l), rs)
  }

  function TreePipe(p: Pipeline): (c: Cmd<string>) {
    match p
    case One(u) => TreeUnit(u)
    case Into(u, rest) => Pipe(TreeUnit(u), TreePipe(rest))
  }

  function Backs(c: Cmd<string>, n: nat): (r: Cmd<string>)
    decreases n
  {
    if n == 0 then c else Backs(Back(c), n - 1)
  }

  function Tree(l: Line): (c: Cmd<string>) {
    match l
    case Last(p, n) => Backs(TreePipe(p), n)
    case Then(p, n, rest) => List(Backs(TreePipe(p), n), Tree(rest))
  }

  // Sentences the parser has room for: at most 9 words to a command.

  ghost predicate FitsReds(rs: seq<Red>) {
    forall k :: 0 <= k < |rs| ==> rs[k].op == '<' || rs[k].op == '>' || rs[k].op == '+'
  }

  ghost predicate FitsArgs(xs: seq<Arg>) {
    forall k :: 0 <= k < |xs| ==> FitsReds(xs[k].reds)
  }

  ghost predicate FitsUnit(u: Unit) {
    match u
    case Simple(rs, xs) => FitsReds(rs) && FitsArgs(xs) && |xs| <= 9
    case Group(l, rs) => Fits(l) && FitsReds(rs)
  }

  ghost predicate FitsPipe(p: Pipeline) {
    match p
    case One(u) => FitsUnit(u)
    case Into(u, rest) => FitsUnit(u) && FitsPipe(rest)
  }

  ghost predicate Fits(l: Line) {
    match l
    case Last(p, _) => FitsPipe(p)
    case Then(p, _, rest) => FitsPipe(p) && Fits(rest)
  }

  // The tokens of an input

  function AsTok(s: string, t: Token): (k: Tok)
    requires t.q <= t.eq <= |s|
  {
    if t.ret == 'a' then Word(s[t.q..t.eq]) else Op(t.ret)
  }

  function Toks(s: string, p: nat): (ts: seq<Tok>)
    requires p <= |s|
    decreases |s| - p
  {
    var t := GetToken(s, p);
    if t.ret == '\0' then [] else [AsTok(s, t)] + Toks(s, t.next)
  }

  lemma TokenSkip(s: string, p: nat)
    requires p <= |s|
    ensures GetToken(s, Skip(s, p)) == GetToken(s, p) && Skip(s, Skip(s, p)) == Skip(s, p)
  {
    assert Skip(s, Skip(s, p)) == Skip(s, p);
  }

  lemma {:induction false} ToksSkip(s: string, p: nat)
    requires p <= |s|
    ensures Toks(s, Skip(s, p)) == Toks(s, p) && GetToken(s, Skip(s, p)) == GetToken(s, p)
    ensures Skip(s, Skip(s, p)) == Skip(s, p)
  {
    hide GetToken, Skip;
    TokenSkip(s, p);
  }

  /** The first token is one of these operators. */
  ghost predicate Begins(ts: seq<Tok>, ops: set<char>) {
    ts != [] && ts[0].Op? && ts[0].op in ops
  }

  /** What peek sees is the first token. */
  lemma PeekToks(s: string, p: nat, ops: set<char>)
    requires p <= |s| && ops <= {'|', '&', ';', '(', ')'}
    ensures Peek(s, p, ops) <==> Begins(Toks(s, p), ops)
  {
    var q := Skip(s, p);
    var t := GetToken(s, p);
    if Peek(s, p, ops) {
      assert s[q] == t.ret;
    }
  }

  lemma PeekReds(s: string, p: nat)
    requires p <= |s|
    ensures Peek(s, p, {'<', '>'}) <==> Begins(Toks(s, p), {'<', '>', '+'})
  {
  }

  /** gettoken takes the first token off. */
  lemma Take(s: string, p: nat)
    requires p <= |s| && Toks(s, p) != []
    ensures var t := GetToken(s, p); t.ret != '\0' && AsTok(s, t) == Toks(s, p)[0] && Toks(s, t.next) == Toks(s, p)[1..]
    ensures (GetToken(s, p).ret == 'a') == Toks(s, p)[0].Word?
  {
  }

  // Redirections

  /** The redirections found are these. */
  ghost predicate Same(s: string, rs: seq<Redirect<Span>>, reds: seq<Red>) {
    && |rs| == |reds|
    && forall k :: 0 <= k < |rs| ==> Slice(s, rs[k].file) == reds[k].file && rs[k].input == (reds[k].op == '<')
  }

  lemma {:induction false} AroundLast(c: Cmd<string>, rs: seq<Red>, r: Red)
    ensures Around(c, rs + [r]) == Redir(Around(c, rs), r.file, r.op == '<')
    decreases |rs|
  {
    if rs != [] {
      assert (rs + [r])[1..] == rs[1..] + [r];
      AroundLast(Redir(c, rs[0].file, rs[0].op == '<'), rs[1..], r);
    } else {
      assert [r][1..] == [] && rs + [r] == [r];
    }
  }

  /** The parser's nesting of redirections is that of the grammar. */
  lemma {:induction false} TextWrap(s: string, c: Cmd<Span>, rs: seq<Redirect<Span>>, reds: seq<Red>)
    requires Same(s, rs, reds)
    ensures Text(s, Wrap(c, rs)) == Around(Text(s, c), reds)
    decreases |rs|
  {
    if rs != [] {
      var n := |rs| - 1;
      TextWrap(s, c, rs[..n], reds[..n]);
      AroundLast(Text(s, c), reds[..n], reds[n]);
      assert reds[..n] + [reds[n]] == reds;
    }
  }

  /** One redirection off the input. */
  lemma OneRedir(s: string, p: nat, rs: seq<Redirect<Span>>, reds: seq<Red>)
    returns (q: nat, rs': seq<Redirect<Span>>, r: Red)
    requires p <= |s| && Same(s, rs, reds) && Begins(Toks(s, p), {'<', '>', '+'})
    requires |Toks(s, p)| >= 2 && Toks(s, p)[1].Word?
    ensures p < q <= |s| && Toks(s, p) == [Op(r.op), Word(r.file)] + Toks(s, q) && FitsReds([r])
    ensures Same(s, rs', reds + [r]) && ParseRedirs(s, p, rs) == ParseRedirs(s, q, rs')
  {
    ToksSkip(s, p);
    PeekReds(s, p);
    Take(s, p);
    var tok := GetToken(s, p);
    Take(s, tok.next);
    var file := GetToken(s, tok.next);
    q, rs', r := file.next, rs + [Redirect(Span(file.q, file.eq), tok.ret == '<')], Red(tok.ret, s[file.q..file.eq]);
  }

  lemma NoRedir(s: string, p: nat, rs: seq<Redirect<Span>>)
    requires p <= |s| && !Begins(Toks(s, p), {'<', '>', '+'})
    ensures var r := ParseRedirs(s, p, rs); r.Ok? && r.value == rs && Toks(s, r.pos) == Toks(s, p)
  {
    PeekReds(s, p);
    ToksSkip(s, p);
  }

  lemma RedirHasFile(s: string, p: nat, rs: seq<Redirect<Span>>)
    requires p <= |s| && Begins(Toks(s, p), {'<', '>', '+'}) && ParseRedirs(s, p, rs).Ok?
    ensures |Toks(s, p)| >= 2 && Toks(s, p)[1].Word?
  {
    PeekReds(s, p);
    ToksSkip(s, p);
    Take(s, p);
    assert GetToken(s, GetToken(s, p).next).ret == 'a';
  }

  lemma FirstTwo(a: Tok, b: Tok, ts: seq<Tok>, rest: seq<Tok>)
    ensures var us := [a, b] + ts + rest; us[0] == a && us[1] == b && us[2..] == ts + rest
  {
  }

  lemma {:induction false} FlatRedsFirst(rs: seq<Red>, rest: seq<Tok>)
    requires rs != []
    ensures var ts := FlatReds(rs) + rest; |ts| >= 2 && ts[0] == Op(rs[0].op) && ts[1] == Word(rs[0].file)
    ensures (FlatReds(rs) + rest)[2..] == FlatReds(rs[1..]) + rest
  {
    FirstTwo(Op(rs[0].op), Word(rs[0].file), FlatReds(rs[1..]), rest);
  }

  lemma {:induction false} RedsComplete(s: string, p: nat, rs: seq<Redirect<Span>>, reds0: seq<Red>, reds: seq<Red>,
                                        rest: seq<Tok>)
    requires p <= |s| && Same(s, rs, reds0) && FitsReds(reds) && Toks(s, p) == FlatReds(reds) + rest
    requires !Begins(rest, {'<', '>', '+'})
    ensures var r := ParseRedirs(s, p, rs); r.Ok? && Toks(s, r.pos) == rest && Same(s, r.value, reds0 + reds)
    decreases |reds|
  {
    hide ParseRedirs, Toks, Same;
    if reds == [] {
      assert FlatReds(reds) + rest == rest && reds0 + reds == reds0;
      NoRedir(s, p, rs);
    } else {
      FlatRedsFirst(reds, rest);
      hide FlatReds;
      var q, rs', r := OneRedir(s, p, rs, reds0);
      assert r == reds[0] && Toks(s, q) == Toks(s, p)[2..];
      RedsComplete(s, q, rs', reds0 + [r], reds[1..], rest);
      assert reds0 + [r] + reds[1..] == reds0 + reds;
    }
  }

  lemma {:induction false} RedsSound(s: string, p: nat, rs: seq<Redirect<Span>>, reds0: seq<Red>)
    returns (reds: seq<Red>)
    requires p <= |s| && Same(s, rs, reds0) && ParseRedirs(s, p, rs).Ok?
    ensures var r := ParseRedirs(s, p, rs);
      FitsReds(reds) && Toks(s, p) == FlatReds(reds) + Toks(s, r.pos) && Same(s, r.value, reds0 + reds)
    decreases |s| - p
  {
    hide ParseRedirs, Toks, Same;
    if !Begins(Toks(s, p), {'<', '>', '+'}) {
      NoRedir(s, p, rs);
      reds := [];
      assert reds0 + reds == reds0;
    } else {
      RedirHasFile(s, p, rs);
      var q, rs', r := OneRedir(s, p, rs, reds0);
      var more := RedsSound(s, q, rs', reds0 + [r]);
      reds := [r] + more;
      assert reds[1..] == more && reds0 + [r] + more == reds0 + reds;
    }
  }

  // Simple commands

  /** What can follow a unit. */
  ghost predicate Follows(rest: seq<Tok>) {
    rest == [] || Begins(rest, {'|', ')', '&', ';'})
  }

  /** What has been read of a simple command, as spans and as text. */
  ghost predicate Got(s: string, argv: seq<Span>, rs: seq<Redirect<Span>>, ws: seq<string>, reds: seq<Red>) {
    Texts(s, argv) == ws && Same(s, rs, reds)
  }

  /** The result is tree c, and rest is still to be read. */
  ghost predicate Yields(s: string, r: Result<Cmd<Span>>, c: Cmd<string>, rest: seq<Tok>) {
    r.Ok? && r.pos <= |s| && Text(s, r.value) == c && Toks(s, r.pos) == rest
  }

  lemma ArgsStop(s: string, p: nat, argv: seq<Span>, rs: seq<Redirect<Span>>, ws: seq<string>, reds: seq<Red>)
    requires p <= |s| && Got(s, argv, rs, ws, reds) && Follows(Toks(s, p))
    ensures Yields(s, ParseArgs(s, p, argv, rs), Around(Exec(ws), reds), Toks(s, p)) == true
  {
    hide Wrap, Around, Same;
    PeekToks(s, p, {'|', ')', '&', ';'});
    ToksSkip(s, p);
    TextWrap(s, Exec(argv), rs, reds);
    if Toks(s, p) == [] {
      assert Toks(s, |s|) == [];
    }
  }

  /** One word and its redirections off the input. */
  lemma ArgsWord(s: string, p: nat, argv: seq<Span>, rs: seq<Redirect<Span>>)
    returns (w: Span, q: nat, more: Result<seq<Redirect<Span>>>)
    requires p <= |s| && Toks(s, p) != [] && Toks(s, p)[0].Word? && |argv| < 9
    ensures p < q <= |s| && Word(Slice(s, w)) == Toks(s, p)[0] && Toks(s, q) == Toks(s, p)[1..]
    ensures more == ParseRedirs(s, q, rs)
    ensures ParseArgs(s, p, argv, rs) == if more.Ok? then ParseArgs(s, more.pos, argv + [w], more.value) else Panic
  {
    PeekToks(s, p, {'|', ')', '&', ';'});
    ToksSkip(s, p);
    Take(s, p);
    var t := GetToken(s, p);
    w, q, more := Span(t.q, t.eq), t.next, ParseRedirs(s, t.next, rs);
  }

  lemma GotWord(s: string, argv: seq<Span>, w: Span, rs: seq<Redirect<Span>>, ws: seq<string>, reds: seq<Red>)
    requires Texts(s, argv) == ws && Same(s, rs, reds)
    ensures Got(s, argv + [w], rs, ws + [Slice(s, w)], reds)
  {
  }

  lemma FlatArgsFirst(xs: seq<Arg>, rest: seq<Tok>)
    requires xs != []
    ensures var ts := FlatArgs(xs) + rest; |ts| >= 1 && ts[0] == Word(xs[0].word)
    ensures (FlatArgs(xs) + rest)[1..] == FlatReds(xs[0].reds) + (FlatArgs(xs[1..]) + rest)
  {
    var r, m := FlatReds(xs[0].reds), FlatArgs(xs[1..]);
    assert FlatArgs(xs) + rest == [Word(xs[0].word)] + (r + (m + rest));
  }

  lemma ArgsNoReds(xs: seq<Arg>, rest: seq<Tok>)
    requires Follows(rest)
    ensures !Begins(FlatArgs(xs) + rest, {'<', '>', '+'})
  {
    if xs != [] {
      FlatArgsFirst(xs, rest);
    }
  }

  lemma {:induction false} ArgsComplete(s: string, p: nat, argv: seq<Span>, rs: seq<Redirect<Span>>, ws: seq<string>,
                                        reds: seq<Red>, xs: seq<Arg>, rest: seq<Tok>)
    requires p <= |s| && Got(s, argv, rs, ws, reds) && FitsArgs(xs) && |argv| + |xs| <= 9
    requires Toks(s, p) == FlatArgs(xs) + rest && Follows(rest)
    ensures Yields(s, ParseArgs(s, p, argv, rs), Around(Exec(ws + Words(xs)), reds + Reds(xs)), rest) == true
    decreases |xs|
  {
    hide ParseArgs, ParseRedirs, Toks, Same, Follows, Around, FlatReds, Yields;
    if xs == [] {
      assert FlatArgs(xs) + rest == rest && ws + Words(xs) == ws && reds + Reds(xs) == reds;
      ArgsStop(s, p, argv, rs, ws, reds);
    } else {
      FlatArgsFirst(xs, rest);
      ArgsNoReds(xs[1..], rest);
      hide FlatArgs;
      var w, q, more := ArgsWord(s, p, argv, rs);
      RedsComplete(s, q, rs, reds, xs[0].reds, FlatArgs(xs[1..]) + rest);
      GotWord(s, argv, w, more.value, ws, reds + xs[0].reds);
      ArgsComplete(s, more.pos, argv + [w], more.value, ws + [xs[0].word], reds + xs[0].reds, xs[1..], rest);
      assert ws + [xs[0].word] + Words(xs[1..]) == ws + Words(xs);
      assert reds + xs[0].reds + Reds(xs[1..]) == reds + Reds(xs);
    }
  }

  /** Why the loop of parseexec goes on: a word, and room for it. */
  lemma ArgsGoOn(s: string, p: nat, argv: seq<Span>, rs: seq<Redirect<Span>>)
    requires p <= |s| && ParseArgs(s, p, argv, rs).Ok? && !Follows(Toks(s, p))
    ensures Toks(s, p) != [] && Toks(s, p)[0].Word? && |argv| < 9
  {
    PeekToks(s, p, {'|', ')', '&', ';'});
    ToksSkip(s, p);
    Take(s, p);
  }

  lemma {:induction false} ArgsSound(s: string, p: nat, argv: seq<Span>, rs: seq<Redirect<Span>>, ws: seq<string>,
                                     reds: seq<Red>)
    returns (xs: seq<Arg>)
    requires p <= |s| && Got(s, argv, rs, ws, reds) && ParseArgs(s, p, argv, rs).Ok? && |argv| <= 9
    ensures FitsArgs(xs) && |argv| + |xs| <= 9
    ensures Toks(s, p) == FlatArgs(xs) + Toks(s, ParseArgs(s, p, argv, rs).pos)
    ensures Text(s, ParseArgs(s, p, argv, rs).value) == Around(Exec(ws + Words(xs)), reds + Reds(xs))
    decreases |s| - p
  {
    hide ParseArgs, ParseRedirs, Toks, Same, Follows, Around, FlatReds, Text;
    if Follows(Toks(s, p)) {
      ArgsStop(s, p, argv, rs, ws, reds);
      xs := [];
      assert ws + Words(xs) == ws && reds + Reds(xs) == reds;
    } else {
      ArgsGoOn(s, p, argv, rs);
      var w, q, more := ArgsWord(s, p, argv, rs);
      var rs1 := RedsSound(s, q, rs, reds);
      GotWord(s, argv, w, more.value, ws, reds + rs1);
      var tail := ArgsSound(s, more.pos, argv + [w], more.value, ws + [Slice(s, w)], reds + rs1);
      xs := [Arg(Slice(s, w), rs1)] + tail;
      assert xs[1..] == tail;
      assert ws + [Slice(s, w)] + Words(tail) == ws + Words(xs);
      assert reds + rs1 + Reds(tail) == reds + Reds(xs);
      FlatArgsFirst(xs, Toks(s, ParseArgs(s, p, argv, rs).pos));
    }
  }

  /** A command that does not open with '(' is what parseredirs and then the loop of parseexec make of it. */
  lemma SimpleExec(s: string, p: nat) returns (rs: Result<seq<Redirect<Span>>>)
    requires p <= |s| && !Begins(Toks(s, p), {'('})
    ensures rs == ParseRedirs(s, p, [])
    ensures ParseExec(s, p) == if rs.Ok? then ParseArgs(s, rs.pos, [], rs.value) else Panic
  {
    hide ParseArgs, ParseClose, ParsePipe, ParseLine;
    PeekToks(s, p, {'('});
    ToksSkip(s, p);
    rs := ParseRedirs(s, p, []);
  }

  lemma NothingGot(s: string)
    ensures Got(s, [], [], [], [])
  {
  }

  lemma SimpleStart(reds: seq<Red>, xs: seq<Arg>, rest: seq<Tok>)
    requires FitsReds(reds) && Follows(rest)
    ensures !Begins(FlatReds(reds) + FlatArgs(xs) + rest, {'('})
  {
    var ts := FlatArgs(xs) + rest;
    assert FlatReds(reds) + FlatArgs(xs) + rest == FlatReds(reds) + ts;
    if reds != [] {
      FlatRedsFirst(reds, ts);
    } else if xs != [] {
      FlatArgsFirst(xs, rest);
    }
  }

  lemma SimpleComplete(s: string, p: nat, reds: seq<Red>, xs: seq<Arg>, rest: seq<Tok>)
    requires p <= |s| && FitsUnit(Simple(reds, xs)) && Follows(rest)
    requires Toks(s, p) == FlatReds(reds) + FlatArgs(xs) + rest
    ensures Yields(s, ParseExec(s, p), TreeUnit(Simple(reds, xs)), rest) == true
  {
    hide ParseExec, ParseArgs, ParseRedirs, Toks, Same, Around, Yields, FlatReds, FlatArgs;
    SimpleStart(reds, xs, rest);
    assert FlatReds(reds) + FlatArgs(xs) + rest == FlatReds(reds) + (FlatArgs(xs) + rest);
    ArgsNoReds(xs, rest);
    var rs := SimpleExec(s, p);
    NothingGot(s);
    RedsComplete(s, p, [], [], reds, FlatArgs(xs) + rest);
    assert [] + reds == reds && [] + Words(xs) == Words(xs);
    ArgsComplete(s, rs.pos, [], rs.value, [], reds, xs, rest);
  }

  lemma SimpleSound(s: string, p: nat) returns (u: Unit)
    requires p <= |s| && !Begins(Toks(s, p), {'('}) && ParseExec(s, p).Ok?
    ensures FitsUnit(u) && Toks(s, p) == FlatUnit(u) + Toks(s, ParseExec(s, p).pos)
    ensures Text(s, ParseExec(s, p).value) == TreeUnit(u)
  {
    hide ParseExec, ParseArgs, ParseRedirs, Toks, Same, Around, Text;
    var rs := SimpleExec(s, p);
    NothingGot(s);
    var reds := RedsSound(s, p, [], []);
    assert [] + reds == reds;
    var xs := ArgsSound(s, rs.pos, [], rs.value, [], reds);
    assert [] + Words(xs) == Words(xs);
    u := Simple(reds, xs);
    var rest := Toks(s, ParseExec(s, p).pos);
    assert FlatReds(reds) + (FlatArgs(xs) + rest) == FlatUnit(u) + rest;
  }

  // Groups

  /** parseblock: the line behind the '(' first. */
  lemma GroupOpen(s: string, p: nat) returns (q: nat)
    requires p <= |s| && Begins(Toks(s, p), {'('})
    ensures p < q <= |s| && Toks(s, q) == Toks(s, p)[1..] && ParseExec(s, p) == ParseClose(s, ParseLine(s, q))
  {
    hide ParseArgs, ParseClose, ParsePipe, ParseLine, ParseRedirs;
    PeekToks(s, p, {'('});
    ToksSkip(s, p);
    Take(s, p);
    q := GetToken(s, p).next;
  }

  /** Then the ')' and the redirections. */
  lemma GroupClose(s: string, line: Result<Cmd<Span>>) returns (q: nat, rs: Result<seq<Redirect<Span>>>)
    requires line.Ok? && line.pos <= |s| && Begins(Toks(s, line.pos), {')'})
    ensures q <= |s| && Toks(s, q) == Toks(s, line.pos)[1..] && rs == ParseRedirs(s, q, [])
    ensures ParseClose(s, line) == if rs.Ok? then Ok(Wrap(line.value, rs.value), rs.pos) else Panic
  {
    hide ParseRedirs, Wrap;
    PeekToks(s, line.pos, {')'});
    ToksSkip(s, line.pos);
    Take(s, line.pos);
    q := GetToken(s, line.pos).next;
    rs := ParseRedirs(s, q, []);
  }

  lemma GroupComplete(s: string, line: Result<Cmd<Span>>, c: Cmd<string>, reds: seq<Red>, rest: seq<Tok>)
    requires Yields(s, line, c, [Op(')')] + FlatReds(reds) + rest) && FitsReds(reds) && Follows(rest)
    ensures Yields(s, ParseClose(s, line), Around(c, reds), rest) == true
  {
    hide ParseClose, ParseRedirs, Toks, Around, Wrap, Text;
    var q, rs := GroupClose(s, line);
    assert ([Op(')')] + FlatReds(reds) + rest)[1..] == FlatReds(reds) + rest;
    NothingGot(s);
    RedsComplete(s, q, [], [], reds, rest);
    assert [] + reds == reds;
    TextWrap(s, line.value, rs.value, reds);
  }

  lemma GroupCloses(s: string, line: Result<Cmd<Span>>)
    requires line.Ok? && line.pos <= |s| && ParseClose(s, line).Ok?
    ensures Begins(Toks(s, line.pos), {')'})
  {
    hide ParseRedirs, Wrap;
    PeekToks(s, line.pos, {')'});
  }

  lemma GroupSound(s: string, line: Result<Cmd<Span>>) returns (reds: seq<Red>)
    requires line.Ok? && line.pos <= |s| && ParseClose(s, line).Ok?
    ensures FitsReds(reds)
    ensures Toks(s, line.pos) == [Op(')')] + FlatReds(reds) + Toks(s, ParseClose(s, line).pos)
    ensures Text(s, ParseClose(s, line).value) == Around(Text(s, line.value), reds)
  {
    hide ParseClose, ParseRedirs, Toks, Around, Wrap, Text, FlatReds, Same;
    GroupCloses(s, line);
    var q, rs := GroupClose(s, line);
    NothingGot(s);
    reds := RedsSound(s, q, [], []);
    assert [] + reds == reds;
    TextWrap(s, line.value, rs.value, reds);
    assert Toks(s, line.pos) == [Op(')')] + Toks(s, q);
    assert [Op(')')] + (FlatReds(reds) + Toks(s, rs.pos)) == [Op(')')] + FlatReds(reds) + Toks(s, rs.pos);
  }

  // Background commands

  lemma AmpsFirst(n: nat, rest: seq<Tok>)
    requires n > 0
    ensures var ts := Amps(n) + rest; ts != [] && ts[0] == Op('&') && ts[1..] == Amps(n - 1) + rest
  {
    assert Amps(n) == [Op('&')] + Amps(n - 1);
  }

  lemma OneAmp(s: string, c: Cmd<Span>, p: nat) returns (q: nat)
    requires p <= |s| && Begins(Toks(s, p), {'&'})
    ensures p < q <= |s| && Toks(s, q) == Toks(s, p)[1..] && ParseBacks(s, c, p) == ParseBacks(s, Back(c), q)
  {
    PeekToks(s, p, {'&'});
    ToksSkip(s, p);
    Take(s, p);
    q := GetToken(s, p).next;
  }

  lemma NoAmp(s: string, c: Cmd<Span>, p: nat)
    requires p <= |s| && !Begins(Toks(s, p), {'&'})
    ensures Yields(s, ParseBacks(s, c, p), Text(s, c), Toks(s, p)) == true && ParseBacks(s, c, p).value == c
  {
    PeekToks(s, p, {'&'});
    ToksSkip(s, p);
  }

  lemma {:induction false} BacksComplete(s: string, c: Cmd<Span>, p: nat, n: nat, rest: seq<Tok>)
    requires p <= |s| && Toks(s, p) == Amps(n) + rest && !Begins(rest, {'&'})
    ensures Yields(s, ParseBacks(s, c, p), Backs(Text(s, c), n), rest) == true
    decreases n
  {
    hide ParseBacks, Toks, Yields;
    if n == 0 {
      assert Amps(n) + rest == rest;
      NoAmp(s, c, p);
    } else {
      AmpsFirst(n, rest);
      hide Amps;
      var q := OneAmp(s, c, p);
      BacksComplete(s, Back(c), q, n - 1, rest);
    }
  }

  lemma {:induction false} BacksSound(s: string, c: Cmd<Span>, p: nat) returns (n: nat)
    requires p <= |s|
    ensures Toks(s, p) == Amps(n) + Toks(s, ParseBacks(s, c, p).pos)
    ensures Text(s, ParseBacks(s, c, p).value) == Backs(Text(s, c), n)
    decreases |s| - p
  {
    hide ParseBacks, Toks;
    if !Begins(Toks(s, p), {'&'}) {
      NoAmp(s, c, p);
      n := 0;
    } else {
      var q := OneAmp(s, c, p);
      var m := BacksSound(s, Back(c), q);
      n := m + 1;
      AmpsFirst(n, Toks(s, ParseBacks(s, c, p).pos));
      hide Amps;
      assert Toks(s, p) == [Op('&')] + Toks(s, q);
    }
  }

  // Pipelines and lines

  lemma PipeComplete1(s: string, p: nat, left: Result<Cmd<Span>>, c: Cmd<string>, rest: seq<Tok>)
    requires p <= |s| && left == ParseExec(s, p) && Yields(s, left, c, rest) && !Begins(rest, {'|'})
    ensures Yields(s, ParsePipe(s, p), c, rest) == true
  {
    hide ParseExec, ParseLine, ParseArgs, ParseRedirs, ParseClose;
    PeekToks(s, left.pos, {'|'});
    ToksSkip(s, left.pos);
  }

  lemma PipeOn(s: string, p: nat, left: Result<Cmd<Span>>) returns (q: nat)
    requires p <= |s| && left == ParseExec(s, p) && left.Ok? && Begins(Toks(s, left.pos), {'|'})
    ensures p < q <= |s| && Toks(s, q) == Toks(s, left.pos)[1..]
    ensures var right := ParsePipe(s, q);
      ParsePipe(s, p) == if right.Ok? then Ok(Pipe(left.value, right.value), right.pos) else Panic
  {
    hide ParseExec, ParseLine, ParseArgs, ParseRedirs, ParseClose;
    PeekToks(s, left.pos, {'|'});
    ToksSkip(s, left.pos);
    Take(s, left.pos);
    q := GetToken(s, left.pos).next;
  }

  lemma LineStop(s: string, p: nat, first: Result<Cmd<Span>>, left: Result<Cmd<Span>>)
    requires p <= |s| && first == ParsePipe(s, p) && first.Ok? && left == ParseBacks(s, first.value, first.pos)
    requires !Begins(Toks(s, left.pos), {';'})
    ensures var r := ParseLine(s, p); r.Ok? && r.value == left.value && Toks(s, r.pos) == Toks(s, left.pos)
  {
    hide ParseExec, ParsePipe, ParseArgs, ParseRedirs, ParseClose, ParseBacks;
    PeekToks(s, left.pos, {';'});
    ToksSkip(s, left.pos);
  }

  lemma LineOn(s: string, p: nat, first: Result<Cmd<Span>>, left: Result<Cmd<Span>>) returns (q: nat)
    requires p <= |s| && first == ParsePipe(s, p) && first.Ok? && left == ParseBacks(s, first.value, first.pos)
    requires Begins(Toks(s, left.pos), {';'})
    ensures p < q <= |s| && Toks(s, q) == Toks(s, left.pos)[1..]
    ensures var rest := ParseLine(s, q);
      ParseLine(s, p) == if rest.Ok? then Ok(List(left.value, rest.value), rest.pos) else Panic
  {
    hide ParseExec, ParsePipe, ParseArgs, ParseRedirs, ParseClose, ParseBacks;
    PeekToks(s, left.pos, {';'});
    ToksSkip(s, left.pos);
    Take(s, left.pos);
    q := GetToken(s, left.pos).next;
  }

  lemma {:induction false} UnitComplete(s: string, p: nat, u: Unit, rest: seq<Tok>)
    requires p <= |s| && FitsUnit(u) && Toks(s, p) == FlatUnit(u) + rest && Follows(rest)
    ensures Yields(s, ParseExec(s, p), TreeUnit(u), rest) == true
    decreases u
  {
    hide ParseExec, ParsePipe, ParseLine, ParseArgs, ParseRedirs, ParseClose, Toks, Yields;
    match u
    case Simple(reds, xs) => SimpleComplete(s, p, reds, xs, rest);
    case Group(l, reds) =>
      var behind := [Op(')')] + FlatReds(reds) + rest;
      assert FlatUnit(u) + rest == [Op('(')] + (Flat(l) + behind);
      var q := GroupOpen(s, p);
      assert Toks(s, q) == Flat(l) + behind;
      LineComplete(s, q, l, behind);
      GroupComplete(s, ParseLine(s, q), Tree(l), reds, rest);
  }

  lemma {:induction false} PipeComplete(s: string, p: nat, l: Pipeline, rest: seq<Tok>)
    requires p <= |s| && FitsPipe(l) && Toks(s, p) == FlatPipe(l) + rest && Follows(rest) && !Begins(rest, {'|'})
    ensures Yields(s, ParsePipe(s, p), TreePipe(l), rest) == true
    decreases l
  {
    hide ParseExec, ParsePipe, ParseLine, ParseArgs, ParseRedirs, ParseClose, Toks;
    match l
    case One(u) =>
      UnitComplete(s, p, u, rest);
      PipeComplete1(s, p, ParseExec(s, p), TreeUnit(u), rest);
    case Into(u, more) =>
      var behind := [Op('|')] + (FlatPipe(more) + rest);
      assert FlatPipe(l) + rest == FlatUnit(u) + behind;
      UnitComplete(s, p, u, behind);
      var q := PipeOn(s, p, ParseExec(s, p));
      assert behind[1..] == FlatPipe(more) + rest;
      PipeComplete(s, q, more, rest);
  }

  lemma FlatLine(l: Line, rest: seq<Tok>)
    ensures Flat(l) + rest ==
      FlatPipe(l.pipe) + (Amps(l.backs) + if l.Last? then rest else [Op(';')] + (Flat(l.rest) + rest))
  {
  }

  lemma LineFirst(s: string, p: nat)
    requires p <= |s| && ParseLine(s, p).Ok?
    ensures ParsePipe(s, p).Ok?
  {
  }

  lemma {:induction false} LineComplete(s: string, p: nat, l: Line, rest: seq<Tok>)
    requires p <= |s| && Fits(l) && Toks(s, p) == Flat(l) + rest && (rest == [] || Begins(rest, {')'}))
    ensures Yields(s, ParseLine(s, p), Tree(l), rest) == true
    decreases l
  {
    hide ParseExec, ParsePipe, ParseLine, ParseArgs, ParseRedirs, ParseClose, ParseBacks, Toks;
    var end := if l.Last? then rest else [Op(';')] + (Flat(l.rest) + rest);
    FlatLine(l, rest);
    if l.backs > 0 {
      AmpsFirst(l.backs, end);
    } else {
      assert Amps(l.backs) + end == end;
    }
    PipeComplete(s, p, l.pipe, Amps(l.backs) + end);
    var first := ParsePipe(s, p);
    BacksComplete(s, first.value, first.pos, l.backs, end);
    var left := ParseBacks(s, first.value, first.pos);
    if l.Last? {
      LineStop(s, p, first, left);
    } else {
      var q := LineOn(s, p, first, left);
      assert end[1..] == Flat(l.rest) + rest;
      LineComplete(s, q, l.rest, rest);
    }
  }

  lemma {:induction false} UnitSound(s: string, p: nat) returns (u: Unit)
    requires p <= |s| && ParseExec(s, p).Ok?
    ensures FitsUnit(u) && Toks(s, p) == FlatUnit(u) + Toks(s, ParseExec(s, p).pos)
    ensures Text(s, ParseExec(s, p).value) == TreeUnit(u)
    decreases |s| - p, 0
  {
    hide ParseExec, ParsePipe, ParseLine, ParseArgs, ParseRedirs, ParseClose, Toks, Text;
    if !Begins(Toks(s, p), {'('}) {
      u := SimpleSound(s, p);
    } else {
      var q := GroupOpen(s, p);
      var l := LineSound(s, q);
      var reds := GroupSound(s, ParseLine(s, q));
      u := Group(l, reds);
      var rest := Toks(s, ParseExec(s, p).pos);
      assert Toks(s, p) == [Op('(')] + Toks(s, q);
      assert [Op('(')] + (Flat(l) + ([Op(')')] + FlatReds(reds) + rest)) == FlatUnit(u) + rest;
    }
  }

  lemma {:induction false} PipeSound(s: string, p: nat) returns (l: Pipeline)
    requires p <= |s| && ParsePipe(s, p).Ok?
    ensures FitsPipe(l) && Toks(s, p) == FlatPipe(l) + Toks(s, ParsePipe(s, p).pos)
    ensures Text(s, ParsePipe(s, p).value) == TreePipe(l)
    decreases |s| - p, 1
  {
    hide ParseExec, ParseLine, ParseArgs, ParseRedirs, ParseClose, Toks;
    var left := ParseExec(s, p);
    var u := UnitSound(s, p);
    if !Begins(Toks(s, left.pos), {'|'}) {
      PipeComplete1(s, p, left, Text(s, left.value), Toks(s, left.pos));
      l := One(u);
    } else {
      var q := PipeOn(s, p, left);
      var more := PipeSound(s, q);
      l := Into(u, more);
      var rest := Toks(s, ParsePipe(s, p).pos);
      assert Toks(s, left.pos) == [Op('|')] + Toks(s, q);
      assert FlatUnit(u) + ([Op('|')] + (FlatPipe(more) + rest)) == FlatPipe(l) + rest;
    }
  }

  lemma {:induction false} LineSound(s: string, p: nat) returns (l: Line)
    requires p <= |s| && ParseLine(s, p).Ok?
    ensures Fits(l) && Toks(s, p) == Flat(l) + Toks(s, ParseLine(s, p).pos)
    ensures Text(s, ParseLine(s, p).value) == Tree(l)
    decreases |s| - p, 2
  {
    hide ParseExec, ParsePipe, ParseLine, ParseArgs, ParseRedirs, ParseClose, ParseBacks, Toks, FlatPipe, Flat, Amps,
        TreePipe, Backs, FitsPipe;
    LineFirst(s, p);
    var first := ParsePipe(s, p);
    var pipe := PipeSound(s, p);
    var n := BacksSound(s, first.value, first.pos);
    var left := ParseBacks(s, first.value, first.pos);
    if !Begins(Toks(s, left.pos), {';'}) {
      LineStop(s, p, first, left);
      l := Last(pipe, n);
      FlatLine(l, Toks(s, ParseLine(s, p).pos));
    } else {
      var q := LineOn(s, p, first, left);
      var more := LineSound(s, q);
      l := Then(pipe, n, more);
      assert Toks(s, left.pos) == [Op(';')] + Toks(s, q);
      FlatLine(l, Toks(s, ParseLine(s, p).pos));
    }
  }

  /** The end of the input: no token is left. */
  lemma NoToks(s: string, p: nat)
    requires p <= |s|
    ensures Toks(s, p) == [] <==> Skip(s, p) == |s|
  {
  }

  ghost predicate IsSentence(l: Line, ts: seq<Tok>) {
    Fits(l) && Flat(l) == ts
  }

  /** l is a sentence with these tokens and this tree. */
  ghost predicate Derives(l: Line, ts: seq<Tok>, c: Cmd<string>) {
    Fits(l) && Flat(l) == ts && Tree(l) == c
  }

  lemma Accepts(s: string, l: Line)
    requires Fits(l) && Flat(l) == Toks(s, 0)
    ensures ParseCmd(s).Ok? && Text(s, ParseCmd(s).value) == Tree(l)
  {
    hide ParseLine, Toks;
    assert Flat(l) + [] == Flat(l);
    LineComplete(s, 0, l, []);
    NoToks(s, ParseLine(s, 0).pos);
  }

  lemma Accepted(s: string) returns (l: Line)
    requires ParseCmd(s).Ok?
    ensures Derives(l, Toks(s, 0), Text(s, ParseCmd(s).value))
  {
    hide ParseLine, Toks;
    l := LineSound(s, 0);
    NoToks(s, ParseLine(s, 0).pos);
    assert Flat(l) + [] == Flat(l);
  }

  /** For every input: the parser accepts it as c exactly when its tokens are a sentence of the grammar with tree c. */
  lemma ParsesExactly(s: string, c: Cmd<string>)
    ensures (ParseCmd(s).Ok? && Text(s, ParseCmd(s).value) == c) <==> exists l :: Derives(l, Toks(s, 0), c)
  {
    hide ParseCmd, Toks;
    if ParseCmd(s).Ok? {
      var l := Accepted(s);
    }
    if l :| Derives(l, Toks(s, 0), c) {
      Accepts(s, l);
    }
  }

  /** The parser panics exactly on the inputs that are no sentence. */
  lemma PanicsExactly(s: string)
    ensures ParseCmd(s).Panic? <==> !exists l :: IsSentence(l, Toks(s, 0))
  {
    hide ParseCmd, Toks, Flat, Fits;
    if ParseCmd(s).Ok? {
      var l := Accepted(s);
      assert IsSentence(l, Toks(s, 0));
    }
    if l :| IsSentence(l, Toks(s, 0)) {
      Accepts(s, l);
    }
  }

  // Sentences as text

  function SpellOne(t: Tok): (s: string) {
    match t
    case Word(w) => w
    case Op(c) => if c == '+' then ">>" else [c]
  }

  /** The tokens with a space behind each. */
  function Spell(ts: seq<Tok>): (s: string) {
    if ts == [] then "" else SpellOne(ts[0]) + " " + Spell(ts[1..])
  }

  ghost predicate GoodTok(t: Tok) {
    match t
    case Word(w) => GoodWord(w)
    case Op(c) => c == '<' || c == '>' || c == '+' || c == '|' || c == '&' || c == ';' || c == '(' || c == ')'
  }

  ghost predicate GoodToks(ts: seq<Tok>) {
    forall k :: 0 <= k < |ts| ==> GoodTok(ts[k])
  }

  /** White space in front of a token, or none. */
  lemma {:induction false} SkipSpace(s: string, p: nat)
    requires p < |s| && s[p] == ' '
    ensures Toks(s, p) == Toks(s, p + 1) && Skip(s, p) == Skip(s, p + 1)
  {
    assert Skip(s, p) == Skip(s, p + 1);
    assert GetToken(s, p) == GetToken(s, p + 1);
    hide GetToken, Skip;
  }

  /** A good token with a space behind it is one token. */
  lemma LexToken(s: string, p: nat, t: Tok, g: Token)
    requires GoodTok(t) && Has(s, p, SpellOne(t) + " ") && g == GetToken(s, p)
    ensures p < p + |SpellOne(t)| < |s| && s[p + |SpellOne(t)|] == ' '
    ensures g.ret != '\0' && g.next == Skip(s, p + |SpellOne(t)|) && AsTok(s, g) == t
  {
    var x := SpellOne(t);
    HasConcat(s, p, x, " ");
    HasAt(s, p + |x|, " ", 0);
    if t.Word? {
      hide GetToken, Skip;
      WordToken(s, p, x);
    } else {
      LexOp(s, p, t.op, g);
    }
  }

  lemma LexOp(s: string, p: nat, c: char, g: Token)
    requires GoodTok(Op(c)) && Has(s, p, SpellOne(Op(c))) && g == GetToken(s, p) && p + |SpellOne(Op(c))| < |s|
    requires s[p + |SpellOne(Op(c))|] == ' '
    ensures g == Token(c, p, p + |SpellOne(Op(c))|, Skip(s, p + |SpellOne(Op(c))|))
  {
    var x := SpellOne(Op(c));
    HasAt(s, p, x, 0);
    if c == '+' {
      HasAt(s, p, x, 1);
    }
    assert Skip(s, p) == p;
  }

  lemma {:induction false} LexOne(s: string, p: nat, t: Tok, n: nat)
    requires p <= |s| && GoodTok(t) && Has(s, p, SpellOne(t) + " ") && n == p + |SpellOne(t)|
    ensures p < n < |s| && Toks(s, p) == [t] + Toks(s, n + 1)
  {
    hide GetToken, Skip, Has, GoodTok, SpellOne, AsTok;
    LexToken(s, p, t, GetToken(s, p));
    ToksSkip(s, n);
    SkipSpace(s, n);
  }

  /** The lexer inverts Spell. */
  lemma {:induction false} Lexes(s: string, p: nat, ts: seq<Tok>)
    requires GoodToks(ts) && Has(s, p, Spell(ts)) && p + |Spell(ts)| == |s|
    ensures Toks(s, p) == ts
    decreases |ts|
  {
    hide Toks;
    if ts == [] {
      NoToks(s, p);
    } else {
      var x := SpellOne(ts[0]);
      HasConcat(s, p, x + " ", Spell(ts[1..]));
      LexOne(s, p, ts[0], p + |x|);
      Lexes(s, p + |x| + 1, ts[1..]);
    }
  }

  /** Every sentence, with or without parentheses, parses to its tree when it is written out. */
  lemma SentenceParses(l: Line)
    requires Fits(l) && GoodToks(Flat(l))
    ensures var s := Spell(Flat(l)); ParseCmd(s).Ok? && Text(s, ParseCmd(s).value) == Tree(l)
  {
    hide ParseCmd, Toks, Spell;
    var s := Spell(Flat(l));
    assert s[0..|s|] == s;
    Lexes(s, 0, Flat(l));
    Accepts(s, l);
  }

  /** No two sentences with the same tokens have different trees. */
  lemma Unambiguous(l: Line, m: Line)
    requires Fits(l) && Fits(m) && Flat(l) == Flat(m) && GoodToks(Flat(l))
    ensures Tree(l) == Tree(m)
  {
    hide ParseCmd, Spell;
    SentenceParses(l);
    SentenceParses(m);
  }

  /** Plain words and redirections in any order: all words are arguments, all redirections apply, in order. */
  lemma {:induction false} SimpleParses(reds: seq<Red>, xs: seq<Arg>)
    requires FitsReds(reds) && FitsArgs(xs) && |xs| <= 9 && GoodToks(FlatReds(reds) + FlatArgs(xs))
    ensures var s := Spell(FlatReds(reds) + FlatArgs(xs));
      ParseCmd(s).Ok? && Text(s, ParseCmd(s).value) == Around(Exec(Words(xs)), reds + Reds(xs))
  {
    hide ParseCmd, Spell, FlatReds, FlatArgs, Around, Words, Reds;
    var u := Simple(reds, xs);
    var l := Last(One(u), 0);
    assert FlatPipe(l.pipe) == FlatUnit(u) == FlatReds(reds) + FlatArgs(xs);
    assert Flat(l) == FlatPipe(l.pipe) + Amps(0) == FlatPipe(l.pipe);
    assert FitsPipe(l.pipe) && Tree(l) == TreePipe(l.pipe) == TreeUnit(u);
    SentenceParses(l);
  }
}

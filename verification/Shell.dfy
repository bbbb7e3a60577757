/**
 The shell's parser (sh.c). The input is a string without its final NUL; a pointer into it is an index, and the end
 of the string reads as NUL.
 */
module Shell {
  datatype Result<T> = Ok(value: T, pos: nat) | Panic

  /** A word of the input: from a up to b. */
  datatype Span = Span(a: nat, b: nat)

  /** A command; a redirection is for input ('<') or for output ('>' and '>>' alike). */
  datatype Cmd<W> = Exec(argv: seq<W>) | Redir(cmd: Cmd<W>, file: W, input: bool) | Pipe(left: Cmd<W>, right: Cmd<W>)
                  | List(left: Cmd<W>, right: Cmd<W>) | Back(cmd: Cmd<W>)

  /** The redirections that follow a command, in order. */
  datatype Redirect<W> = Redirect(file: W, input: bool)

  const MAXARGS := 10

  predicate IsSpace(c: char) {
    c == ' ' || c == '\t' || c == '\r' || c == '\n' || c == '\U{000B}'
  }

  predicate IsSymbol(c: char) {
    c == '<' || c == '|' || c == '>' || c == '&' || c == ';' || c == '(' || c == ')'
  }

  predicate IsWordChar(c: char) {
    !IsSpace(c) && !IsSymbol(c)
  }

  // Tokens

  function Skip(s: string, p: nat): (q: nat)
    requires p <= |s|
    ensures p <= q <= |s| && (q < |s| ==> !IsSpace(s[q]))
    decreases |s| - p
  {
    if p < |s| && IsSpace(s[p]) then Skip(s, p + 1) else p
  }

  function WordEnd(s: string, p: nat): (q: nat)
    requires p <= |s|
    ensures p <= q <= |s| && (q < |s| ==> !IsWordChar(s[q])) && forall k :: p <= k < q ==> IsWordChar(s[k])
    decreases |s| - p
  {
    if p < |s| && IsWordChar(s[p]) then WordEnd(s, p + 1) else p
  }

  /** gettoken: '\0' at the end, 'a' for a word, '+' for >>, else the symbol; its extent; and where to go on. */
  datatype Token = Token(ret: char, q: nat, eq: nat, next: nat)

  function GetToken(s: string, p: nat): (t: Token)
    requires p <= |s|
    ensures p <= t.q <= t.eq <= t.next <= |s|
    ensures t.q < |s| ==> t.q < t.eq
    ensures t.ret == '\0' <==> t.q == |s|
    ensures t.ret == 'a' ==> IsWord(s, Span(t.q, t.eq))
  {
    var q := Skip(s, p);
    if q == |s| then Token('\0', q, q, q)
    else if s[q] == '>' then
      if q + 1 < |s| && s[q + 1] == '>' then Token('+', q, q + 2, Skip(s, q + 2))
          else Token('>', q, q + 1, Skip(s, q + 1))
    else if IsSymbol(s[q]) then Token(s[q], q, q + 1, Skip(s, q + 1))
    else
      var e := WordEnd(s, q);
      Token('a', q, e, Skip(s, e))
  }

  /** A whole word of the input. */
  predicate IsWord(s: string, w: Span) {
    && w.a < w.b <= |s| && (forall k :: w.a <= k < w.b ==> IsWordChar(s[k]))
    && (w.b < |s| ==> !IsWordChar(s[w.b]))
  }

  function Peek(s: string, p: nat, toks: set<char>): (r: bool)
    requires p <= |s|
  {
    var q := Skip(s, p);
    q < |s| && s[q] in toks
  }

  // The parser

  function Wrap<W>(c: Cmd<W>, rs: seq<Redirect<W>>): (r: Cmd<W>) {
    if rs == [] then c else Redir(Wrap(c, rs[..|rs| - 1]), rs[|rs| - 1].file, rs[|rs| - 1].input)
  }

  /** parseredirs: rs are those found so far. */
  function ParseRedirs(s: string, p: nat, rs: seq<Redirect<Span>>): (r: Result<seq<Redirect<Span>>>)
    requires p <= |s|
    ensures r.Ok? ==> p <= r.pos <= |s|
    decreases |s| - p
  {
    var q := Skip(s, p);
    if !Peek(s, p, {'<', '>'}) then Ok(rs, q)
    else
      var tok := GetToken(s, q);
      var file := GetToken(s, tok.next);
      if file.ret != 'a' then Panic
      else ParseRedirs(s, file.next, rs + [Redirect(Span(file.q, file.eq), tok.ret == '<')])
  }

  /** The loop of parseexec: words and redirections until an operator, a parenthesis or the end. */
  function ParseArgs(s: string, p: nat, argv: seq<Span>, rs: seq<Redirect<Span>>): (r: Result<Cmd<Span>>)
    requires p <= |s|
    ensures r.Ok? ==> p <= r.pos <= |s|
    decreases |s| - p
  {
    var q := Skip(s, p);
    if Peek(s, p, {'|', ')', '&', ';'}) then Ok(Wrap(Exec(argv), rs), q)
    else
      var t := GetToken(s, q);
      if t.ret == '\0' then Ok(Wrap(Exec(argv), rs), t.next)
      else if t.ret != 'a' || |argv| + 1 >= MAXARGS then Panic
      else
        var more := ParseRedirs(s, t.next, rs);
        if more.Panic? then Panic else ParseArgs(s, more.pos, argv + [Span(t.q, t.eq)], more.value)
  }

  /** The rest of parseblock, after the command in parentheses. */
  function ParseClose(s: string, line: Result<Cmd<Span>>): (r: Result<Cmd<Span>>)
    requires line.Ok? ==> line.pos <= |s|
    ensures r.Ok? ==> line.Ok? && line.pos <= r.pos <= |s|
  {
    if line.Panic? || !Peek(s, line.pos, {')'}) then Panic
    else
      var close := GetToken(s, Skip(s, line.pos));
      var rs := ParseRedirs(s, close.next, []);
      if rs.Panic? then Panic else Ok(Wrap(line.value, rs.value), rs.pos)
  }

  function ParseExec(s: string, p: nat): (r: Result<Cmd<Span>>)
    requires p <= |s|
    ensures r.Ok? ==> p <= r.pos <= |s|
    decreases |s| - p, 0
  {
    if Peek(s, p, {'('}) then
      var open := GetToken(s, Skip(s, p));
      ParseClose(s, ParseLine(s, open.next))
    else
      var rs := ParseRedirs(s, Skip(s, p), []);
      if rs.Panic? then Panic else ParseArgs(s, rs.pos, [], rs.value)
  }

  function ParsePipe(s: string, p: nat): (r: Result<Cmd<Span>>)
    requires p <= |s|
    ensures r.Ok? ==> p <= r.pos <= |s|
    decreases |s| - p, 1
  {
    var left := ParseExec(s, p);
    if left.Panic? || !Peek(s, left.pos, {'|'}) then Advance(s, left)
    else
      var right := ParsePipe(s, GetToken(s, Skip(s, left.pos)).next);
      if right.Panic? then Panic else Ok(Pipe(left.value, right.value), right.pos)
  }

  /** What a failed peek leaves behind: the position moves over white space. */
  function Advance(s: string, r: Result<Cmd<Span>>): (r': Result<Cmd<Span>>)
    requires r.Ok? ==> r.pos <= |s|
    ensures r'.Ok? <==> r.Ok?
    ensures r.Ok? ==> r'.value == r.value && r.pos <= r'.pos <= |s|
  {
    if r.Ok? then Ok(r.value, Skip(s, r.pos)) else r
  }

  /** The loop of parseline over '&'. */
  function ParseBacks(s: string, c: Cmd<Span>, p: nat): (r: Result<Cmd<Span>>)
    requires p <= |s|
    ensures r.Ok? && p <= r.pos <= |s|
    decreases |s| - p
  {
    var q := Skip(s, p);
    if Peek(s, p, {'&'}) then ParseBacks(s, Back(c), GetToken(s, q).next) else Ok(c, q)
  }

  function ParseLine(s: string, p: nat): (r: Result<Cmd<Span>>)
    requires p <= |s|
    ensures r.Ok? ==> p <= r.pos <= |s|
    decreases |s| - p, 2
  {
    var first := ParsePipe(s, p);
    if first.Panic? then Panic
    else
      var left := ParseBacks(s, first.value, first.pos);
      if !Peek(s, left.pos, {';'}) then Advance(s, left)
      else
        var rest := ParseLine(s, GetToken(s, Skip(s, left.pos)).next);
        if rest.Panic? then Panic else Ok(List(left.value, rest.value), rest.pos)
  }

  function ParseCmd(s: string): (r: Result<Cmd<Span>>) {
    var line := ParseLine(s, 0);
    if line.Panic? || Skip(s, line.pos) != |s| then Panic else Advance(s, line)
  }

  // Printing and parsing back

  function Slice(s: string, w: Span): (t: string) {
    if w.a <= w.b <= |s| then s[w.a..w.b] else ""
  }

  function Texts(s: string, ws: seq<Span>): (ts: seq<string>)
    ensures |ts| == |ws|
  {
    seq(|ws|, k requires 0 <= k < |ws| => Slice(s, ws[k]))
  }

  /** A parsed command with the words themselves in it. */
  function Text(s: string, c: Cmd<Span>): (t: Cmd<string>) {
    match c
    case Exec(ws) => Exec(Texts(s, ws))
    case Redir(d, f, i) => Redir(Text(s, d), Slice(s, f), i)
    case Pipe(l, r) => Pipe(Text(s, l), Text(s, r))
    case List(l, r) => List(Text(s, l), Text(s, r))
    case Back(d) => Back(Text(s, d))
  }

  /** The words from k on, each with a space behind it. */
  function PrintWords(ws: seq<string>, k: nat): (s: string)
    requires k <= |ws|
    decreases |ws| - k
  {
    if k == |ws| then "" else ws[k] + " " + PrintWords(ws, k + 1)
  }

  /** A command with every operand in parentheses. */
  function Print(c: Cmd<string>): (s: string) {
    match c
    case Exec(ws) => PrintWords(ws, 0)
    case Redir(d, f, i) => "(" + Print(d) + ")" + ((if i then "<" else ">") + f)
    case Pipe(l, r) => "(" + Print(l) + ")" + ("|" + ("(" + Print(r) + ")"))
    case List(l, r) => "(" + Print(l) + ")" + (";" + ("(" + Print(r) + ")"))
    case Back(d) => "(" + Print(d) + ")" + "&"
  }

  predicate GoodWord(w: string) {
    w != "" && forall k :: 0 <= k < |w| ==> IsWordChar(w[k])
  }

  /** Words free of white space and symbols, and at most 9 to a command. */
  predicate GoodCmd(c: Cmd<string>) {
    match c
    case Exec(ws) => |ws| < MAXARGS && forall k :: 0 <= k < |ws| ==> GoodWord(ws[k])
    case Redir(d, f, _) => GoodCmd(d) && GoodWord(f)
    case Pipe(l, r) => GoodCmd(l) && GoodCmd(r)
    case List(l, r) => GoodCmd(l) && GoodCmd(r)
    case Back(d) => GoodCmd(d)
  }

  /** x stands in s at p. */
  ghost predicate Has(s: string, p: nat, x: string) {
    p + |x| <= |s| && s[p..p + |x|] == x
  }

  lemma HasConcat(s: string, p: nat, x: string, y: string)
    ensures Has(s, p, x + y) <==> Has(s, p, x) && Has(s, p + |x|, y)
  {
    if Has(s, p, x + y) {
      assert s[p..p + |x|] == s[p..p + |x + y|][..|x|];
      assert s[p + |x|..p + |x| + |y|] == s[p..p + |x + y|][|x|..];
    }
    if Has(s, p, x) && Has(s, p + |x|, y) {
      assert s[p..p + |x + y|] == s[p..p + |x|] + s[p + |x|..p + |x| + |y|];
    }
  }

  lemma HasAt(s: string, p: nat, x: string, k: nat)
    requires Has(s, p, x) && k < |x|
    ensures s[p + k] == x[k]
  {
    assert s[p..p + |x|][k] == s[p + k];
  }

  /** A printed command ends here. */
  predicate Stops(s: string, p: nat) {
    p == |s| || (p < |s| && s[p] == ')')
  }

  lemma {:induction false} WordEndAt(s: string, a: nat, b: nat)
    requires a <= b <= |s| && (forall k :: a <= k < b ==> IsWordChar(s[k])) && (b < |s| ==> !IsWordChar(s[b]))
    ensures WordEnd(s, a) == b
    decreases b - a
  {
    if a < b {
      WordEndAt(s, a + 1, b);
    }
  }

  /** A good word followed by something else is one token. */
  lemma WordToken(s: string, p: nat, w: string)
    requires Has(s, p, w) && GoodWord(w) && (p + |w| < |s| ==> !IsWordChar(s[p + |w|]))
    ensures GetToken(s, p) == Token('a', p, p + |w|, Skip(s, p + |w|)) && IsWordChar(s[p])
  {
    forall k | p <= k < p + |w|
      ensures IsWordChar(s[k])
    {
      HasAt(s, p, w, k - p);
    }
    WordEndAt(s, p, p + |w|);
  }

  /** What comes after a word in a list of arguments: another word, or the end of the command. */
  predicate Onward(s: string, p: nat) {
    Stops(s, p) || (p < |s| && IsWordChar(s[p]))
  }

  lemma NoRedirs(s: string, p: nat)
    requires p <= |s| && (p < |s| ==> !IsSpace(s[p]) && s[p] != '<' && s[p] != '>')
    ensures ParseRedirs(s, p, []) == Ok([], p)
  {
  }

  lemma PrintWordsStart(s: string, p: nat, ws: seq<string>, k: nat)
    requires k <= |ws| && Has(s, p, PrintWords(ws, k)) && Stops(s, p + |PrintWords(ws, k)|)
    requires forall j :: k <= j < |ws| ==> GoodWord(ws[j])
    ensures p <= |s| && Onward(s, p)
  {
    if k < |ws| {
      HasAt(s, p, PrintWords(ws, k), 0);
    }
  }

  /** r is command c, and ends there. */
  ghost predicate Gives(s: string, r: Result<Cmd<Span>>, end: nat, c: Cmd<string>) {
    r.Ok? && r.pos == end && Text(s, r.value) == c
  }

  lemma ArgsEnd(s: string, p: nat, end: nat, argv: seq<Span>, ws: seq<string>)
    requires p == end && Stops(s, p) && Texts(s, argv) == ws
    ensures Gives(s, ParseArgs(s, p, argv, []), end, Exec(ws)) == true
  {
    assert Skip(s, p) == p;
    assert ParseArgs(s, p, argv, []) == Ok(Exec(argv), p);
  }

  lemma ArgsStep(s: string, p: nat, n: nat, w: string, sp: Span, argv: seq<Span>)
    requires Has(s, p, w + " ") == true && GoodWord(w) == true && |argv| + 1 < MAXARGS && n == p + |w| + 1
    requires Onward(s, n) == true && sp == Span(p, p + |w|)
    ensures n <= |s| && ParseArgs(s, p, argv, []) == ParseArgs(s, n, argv + [sp], [])
  {
    HasConcat(s, p, w, " ");
    HasAt(s, p + |w|, " ", 0);
    WordToken(s, p, w);
    assert Skip(s, p) == p && Skip(s, p + |w|) == n;
    NoRedirs(s, n);
  }

  lemma WordsSplit(s: string, p: nat, n: nat, end: nat, ws: seq<string>, k: nat)
    requires k < |ws| && Has(s, p, PrintWords(ws, k)) && end == p + |PrintWords(ws, k)| && Stops(s, end)
    requires n == p + |ws[k]| + 1
    requires forall j :: k <= j < |ws| ==> GoodWord(ws[j])
    ensures Has(s, p, ws[k] + " ") == true && Has(s, n, PrintWords(ws, k + 1)) == true
    ensures end == n + |PrintWords(ws, k + 1)| && Onward(s, n) == true
  {
    HasConcat(s, p, ws[k] + " ", PrintWords(ws, k + 1));
    PrintWordsStart(s, n, ws, k + 1);
  }

  lemma TextsSnoc(s: string, argv: seq<Span>, w: Span, ws: seq<string>, k: nat)
    requires k < |ws| && Texts(s, argv) == ws[..k] && Has(s, w.a, ws[k] + " ") && w.b == w.a + |ws[k]|
    ensures Texts(s, argv + [w]) == ws[..k + 1]
  {
    HasConcat(s, w.a, ws[k], " ");
  }

  /** The words of a command from k on parse back, after those in argv. */
  lemma {:induction false} ArgsAt(s: string, p: nat, end: nat, ws: seq<string>, k: nat, argv: seq<Span>)
    requires k <= |ws| < MAXARGS && Has(s, p, PrintWords(ws, k)) && end == p + |PrintWords(ws, k)| && Stops(s, end)
    requires Texts(s, argv) == ws[..k] && forall j :: k <= j < |ws| ==> GoodWord(ws[j])
    ensures p <= |s| && Gives(s, ParseArgs(s, p, argv, []), end, Exec(ws)) == true
    decreases |ws| - k
  {
    hide ParseRedirs, ParseArgs, ParseClose, ParseExec, ParsePipe, ParseBacks, ParseLine;
    if k == |ws| {
      assert ws[..k] == ws;
      ArgsEnd(s, p, end, argv, ws);
    } else {
      var w, n := Span(p, p + |ws[k]|), p + |ws[k]| + 1;
      WordsSplit(s, p, n, end, ws, k);
      TextsSnoc(s, argv, w, ws, k);
      ArgsStep(s, p, n, ws[k], w, argv);
      ArgsAt(s, n, end, ws, k + 1, argv + [w]);
    }
  }

  /** Where a printed command starts there is no white space, and nothing that could be taken for a redirection. */
  lemma PrintStart(s: string, p: nat, c: Cmd<string>)
    requires Has(s, p, Print(c)) && Stops(s, p + |Print(c)|) && GoodCmd(c)
    ensures p <= |s| && (p < |s| ==> !IsSpace(s[p]) && s[p] != '<' && s[p] != '>')
    ensures (!c.Exec? ==> p < |s| && s[p] == '(')
  {
    if c.Exec? {
      PrintWordsStart(s, p, c.argv, 0);
    } else {
      HasAt(s, p, Print(c), 0);
    }
  }

  /** A symbol other than '>' is one token. */
  lemma SymbolToken(s: string, p: nat)
    requires p < |s| && IsSymbol(s[p]) && s[p] != '>'
    ensures Skip(s, p) == p && GetToken(s, p) == Token(s[p], p, p + 1, Skip(s, p + 1))
  {
  }

  /** A command in parentheses from p to e, parsed by parseexec, up to the redirections behind it. */
  lemma BlockAt(s: string, p: nat, p1: nat, e: nat, e1: nat, line: Result<Cmd<Span>>, rs: Result<seq<Redirect<Span>>>)
    requires p1 == p + 1 <= e < |s| && s[p] == '(' && s[e] == ')' && !IsSpace(s[p1]) && e1 == e + 1
    requires line == ParseLine(s, p1) && line.Ok? && line.pos == e && Skip(s, e1) == e1 && rs == ParseRedirs(s, e1, [])
    ensures ParseExec(s, p) == if rs.Panic? then Panic else Ok(Wrap(line.value, rs.value), rs.pos)
  {
    hide ParseRedirs, ParseArgs, ParsePipe, ParseBacks, ParseLine;
    SymbolToken(s, p);
    assert GetToken(s, p).next == p1;
    assert ParseExec(s, p) == ParseClose(s, line);
    SymbolToken(s, e);
    assert GetToken(s, e).next == e1;
  }

  // The operators

  /** Behind a command in parentheses: the end, or an operator that ends no redirection. */
  lemma AfterBlock(s: string, p: nat)
    requires p <= |s| && (p < |s| ==> s[p] == ')' || s[p] == '|' || s[p] == '&' || s[p] == ';')
    ensures Skip(s, p) == p && ParseRedirs(s, p, []) == Ok([], p)
  {
  }

  /** parsepipe on a command that no '|' follows. */
  lemma PipeEnds(s: string, p: nat, left: Result<Cmd<Span>>)
    requires p <= |s| && left == ParseExec(s, p) && left.Ok? && left.pos <= |s| && Skip(s, left.pos) == left.pos
    requires left.pos < |s| ==> s[left.pos] != '|'
    ensures ParsePipe(s, p) == left
  {
  }

  /** parseline on a command that neither '&' nor ';' follows. */
  lemma LineEnds(s: string, p: nat, left: Result<Cmd<Span>>)
    requires p <= |s| && left == ParsePipe(s, p) && left.Ok? && Stops(s, left.pos)
    ensures ParseLine(s, p) == left
  {
    assert Skip(s, left.pos) == left.pos;
    assert ParseBacks(s, left.value, left.pos) == left;
  }

  /** c in parentheses stands at p, its ')' at e, and the command itself parses back. */
  ghost predicate Block(s: string, p: nat, p1: nat, e: nat, c: Cmd<string>) {
    p1 == p + 1 <= e < |s| && s[p] == '(' && s[e] == ')' && !IsSpace(s[p1]) && Gives(s, ParseLine(s, p1), e, c)
  }

  /** Such a block, with an operator or the end behind it, is what parseexec finds. */
  lemma BlockExec(s: string, p: nat, p1: nat, e: nat, e1: nat, c: Cmd<string>)
    requires Block(s, p, p1, e, c) && e1 == e + 1
    requires (e1 < |s| ==> s[e1] == ')' || s[e1] == '|' || s[e1] == '&' || s[e1] == ';')
    ensures Gives(s, ParseExec(s, p), e1, c) == true
  {
    hide ParseRedirs, ParseArgs, ParseClose, ParseExec, ParsePipe, ParseBacks, ParseLine;
    AfterBlock(s, e1);
    BlockAt(s, p, p1, e, e1, ParseLine(s, p1), Ok([], e1));
  }

  lemma OneBack(s: string, c: Cmd<Span>, p: nat, end: nat)
    requires p < |s| && s[p] == '&' && end == p + 1 && Stops(s, end)
    ensures ParseBacks(s, c, p) == Ok(Back(c), end) && Skip(s, end) == end
  {
    SymbolToken(s, p);
    assert ParseBacks(s, c, p) == ParseBacks(s, Back(c), end);
  }

  lemma BackAt(s: string, p: nat, p1: nat, e: nat, e1: nat, end: nat, d: Cmd<string>)
    requires Block(s, p, p1, e, d) && e1 == e + 1 < |s| && s[e1] == '&' && end == e1 + 1 && Stops(s, end)
    ensures Gives(s, ParseLine(s, p), end, Back(d)) == true
  {
    hide ParseRedirs, ParseArgs, ParseClose, ParseExec, ParsePipe, ParseBacks;
    BlockExec(s, p, p1, e, e1, d);
    var left := ParseExec(s, p);
    PipeEnds(s, p, left);
    OneBack(s, left.value, e1, end);
  }

  /** Two blocks around an operator. */
  ghost predicate Blocks(s: string, p: nat, p1: nat, e: nat, e1: nat, q: nat, q1: nat, f: nat, end: nat, l: Cmd<string>,
                         op: char, r: Cmd<string>) {
    && Block(s, p, p1, e, l) && e1 == e + 1 < |s| && s[e1] == op && q == e1 + 1
    && Block(s, q, q1, f, r) && end == f + 1 && Stops(s, end)
  }

  lemma ListStep(s: string, p: nat, e1: nat, q: nat, left: Result<Cmd<Span>>, rest: Result<Cmd<Span>>)
    requires p <= |s| && left == ParsePipe(s, p) && left.Ok? && left.pos == e1 < |s| && s[e1] == ';'
    requires q == e1 + 1 < |s| && !IsSpace(s[q])
    requires rest == ParseLine(s, q) && rest.Ok?
    ensures ParseLine(s, p) == Ok(List(left.value, rest.value), rest.pos)
  {
    hide ParseRedirs, ParseArgs, ParseClose, ParseExec, ParsePipe;
    SymbolToken(s, e1);
    assert GetToken(s, e1).next == q;
    assert ParseBacks(s, left.value, e1) == left;
  }

  lemma ListAt(s: string, p: nat, p1: nat, e: nat, e1: nat, q: nat, q1: nat, f: nat, end: nat, l: Cmd<string>,
               r: Cmd<string>)
    requires Blocks(s, p, p1, e, e1, q, q1, f, end, l, ';', r)
    ensures Gives(s, ParseLine(s, p), end, List(l, r)) == true
  {
    hide ParseRedirs, ParseArgs, ParseClose, ParseExec, ParsePipe, ParseBacks, ParseLine;
    BlockExec(s, p, p1, e, e1, l);
    PipeEnds(s, p, ParseExec(s, p));
    BlockExec(s, q, q1, f, end, r);
    Ends(s, q, ParseExec(s, q));
    ListStep(s, p, e1, q, ParsePipe(s, p), ParseLine(s, q));
  }

  lemma PipeStep(s: string, p: nat, e1: nat, q: nat, left: Result<Cmd<Span>>, rest: Result<Cmd<Span>>)
    requires p <= |s| && left == ParseExec(s, p) && left.Ok? && left.pos == e1 < |s| && s[e1] == '|'
    requires q == e1 + 1 < |s| && !IsSpace(s[q])
    requires rest == ParsePipe(s, q) && rest.Ok?
    ensures ParsePipe(s, p) == Ok(Pipe(left.value, rest.value), rest.pos)
  {
    hide ParseRedirs, ParseArgs, ParseClose, ParseExec, ParseBacks, ParseLine;
    SymbolToken(s, e1);
    assert GetToken(s, e1).next == q;
  }

  lemma PipeAt(s: string, p: nat, p1: nat, e: nat, e1: nat, q: nat, q1: nat, f: nat, end: nat, l: Cmd<string>,
               r: Cmd<string>)
    requires Blocks(s, p, p1, e, e1, q, q1, f, end, l, '|', r)
    ensures Gives(s, ParseLine(s, p), end, Pipe(l, r)) == true
  {
    hide ParseRedirs, ParseArgs, ParseClose, ParseExec, ParsePipe, ParseBacks, ParseLine;
    BlockExec(s, p, p1, e, e1, l);
    BlockExec(s, q, q1, f, end, r);
    Ends(s, q, ParseExec(s, q));
    PipeStep(s, p, e1, q, ParseExec(s, p), ParsePipe(s, q));
    LineEnds(s, p, ParsePipe(s, p));
  }

  /** One redirection behind a block. */
  lemma RedirsAt(s: string, p: nat, w: Span, f: string, input: bool)
    requires p < |s| && s[p] == (if input then '<' else '>') && w.a == p + 1 && Has(s, w.a, f) && GoodWord(f)
    requires w.b == w.a + |f| && Stops(s, w.b)
    ensures Skip(s, p) == p && ParseRedirs(s, p, []) == Ok([Redirect(w, input)], w.b)
  {
    hide Has, GoodWord;
    WordToken(s, w.a, f);
    assert Skip(s, w.b) == w.b;
    var r := Redirect(w, input);
    assert ParseRedirs(s, w.b, [r]) == Ok([r], w.b);
    assert Skip(s, w.a) == w.a;
    assert GetToken(s, p).next == w.a;
    assert [] + [r] == [r];
  }

  lemma RedirText(s: string, v: Cmd<Span>, w: Span, d: Cmd<string>, f: string, input: bool)
    requires Text(s, v) == d && Has(s, w.a, f) && w.b == w.a + |f|
    ensures Gives(s, Ok(Wrap(v, [Redirect(w, input)]), w.b), w.b, Redir(d, f, input)) == true
  {
    assert [Redirect(w, input)][..0] == [];
    assert Wrap(v, [Redirect(w, input)]) == Redir(v, w, input);
  }

  lemma RedirAt(s: string, p: nat, p1: nat, e: nat, e1: nat, w: Span, d: Cmd<string>, f: string, input: bool)
    requires Block(s, p, p1, e, d) && e1 == e + 1 < |s| && s[e1] == (if input then '<' else '>')
    requires Has(s, w.a, f) && GoodWord(f) && w.a == e1 + 1 && w.b == w.a + |f| && Stops(s, w.b)
    ensures Gives(s, ParseLine(s, p), w.b, Redir(d, f, input)) == true
  {
    hide ParseRedirs, ParseArgs, ParseClose, ParseExec, ParsePipe, ParseBacks, ParseLine;
    var line := ParseLine(s, p1);
    RedirsAt(s, e1, w, f, input);
    BlockAt(s, p, p1, e, e1, line, Ok([Redirect(w, input)], w.b));
    RedirText(s, line.value, w, d, f, input);
    Ends(s, p, ParseExec(s, p));
  }

  /** A command that nothing follows goes up from parseexec to parseline unchanged. */
  lemma Ends(s: string, p: nat, left: Result<Cmd<Span>>)
    requires p <= |s| && left == ParseExec(s, p) && left.Ok? && Stops(s, left.pos)
    ensures ParsePipe(s, p) == left && ParseLine(s, p) == left
  {
    assert Skip(s, left.pos) == left.pos;
    PipeEnds(s, p, left);
    LineEnds(s, p, left);
  }

  lemma PlainExec(s: string, p: nat, args: Result<Cmd<Span>>)
    requires Onward(s, p) && args == ParseArgs(s, p, [], [])
    ensures ParseExec(s, p) == args
  {
    NoRedirs(s, p);
    assert Skip(s, p) == p && !Peek(s, p, {'('});
  }

  /** parseline on plain words. */
  lemma ExecAt(s: string, p: nat, end: nat, ws: seq<string>)
    requires Has(s, p, PrintWords(ws, 0)) && end == p + |PrintWords(ws, 0)| && Stops(s, end) && GoodCmd(Exec(ws))
    ensures Gives(s, ParseLine(s, p), end, Exec(ws)) == true
  {
    hide ParseRedirs, ParseArgs, ParseClose, ParseExec, ParsePipe, ParseBacks, ParseLine;
    PrintWordsStart(s, p, ws, 0);
    ArgsAt(s, p, end, ws, 0, []);
    PlainExec(s, p, ParseArgs(s, p, [], []));
    Ends(s, p, ParseExec(s, p));
  }

  lemma Opens(s: string, p: nat, p1: nat, e: nat, e1: nat, c: Cmd<string>, x: string)
    requires GoodCmd(c) && Has(s, p, "(" + Print(c) + ")" + x) && p1 == p + 1 && e == p1 + |Print(c)| && e1 == e + 1
    ensures e < |s| && s[p] == '(' && s[e] == ')' && Has(s, p1, Print(c)) && Has(s, e1, x) && Stops(s, e)
    ensures !IsSpace(s[p1])
  {
    HasConcat(s, p, "(" + Print(c) + ")", x);
    HasConcat(s, p, "(" + Print(c), ")");
    HasConcat(s, p, "(", Print(c));
    HasAt(s, p, "(", 0);
    HasAt(s, e, ")", 0);
    PrintStart(s, p1, c);
  }

  /** The printing of a command parses back to it. */
  lemma {:induction false} PrintAt(s: string, p: nat, end: nat, c: Cmd<string>)
    requires GoodCmd(c) && Has(s, p, Print(c)) && end == p + |Print(c)| && Stops(s, end)
    ensures p <= |s| && Gives(s, ParseLine(s, p), end, c) == true
    decreases c, 2
  {
    hide ParseRedirs, ParseArgs, ParseClose, ParseExec, ParsePipe, ParseBacks, ParseLine;
    match c
    case Exec(ws) => ExecAt(s, p, end, ws);
    case Redir(d, f, i) => PrintRedir(s, p, end, d, f, i, c);
    case Pipe(l, r) =>
      var p1, e, e1, q, q1, f := PrintBoth(s, p, end, l, "|", r, c);
      PipeAt(s, p, p1, e, e1, q, q1, f, end, l, r);
    case List(l, r) =>
      var p1, e, e1, q, q1, f := PrintBoth(s, p, end, l, ";", r, c);
      ListAt(s, p, p1, e, e1, q, q1, f, end, l, r);
    case Back(d) =>
      var p1, e, e1 := PrintBlock(s, p, d, "&", c);
      HasAt(s, e1, "&", 0);
      BackAt(s, p, p1, e, e1, end, d);
  }

  /** An operand in parentheses. */
  lemma {:induction false} PrintBlock(s: string, p: nat, d: Cmd<string>, x: string, c: Cmd<string>)
    returns (p1: nat, e: nat, e1: nat)
    requires GoodCmd(d) && Has(s, p, "(" + Print(d) + ")" + x) && d < c
    ensures Block(s, p, p1, e, d) == true && e == p + 1 + |Print(d)| && e1 == e + 1 && Has(s, e1, x) == true
    decreases c, 0
  {
    hide ParseRedirs, ParseArgs, ParseClose, ParseExec, ParsePipe, ParseBacks, ParseLine;
    p1, e, e1 := p + 1, p + 1 + |Print(d)|, p + 2 + |Print(d)|;
    Opens(s, p, p1, e, e1, d, x);
    PrintAt(s, p1, e, d);
  }

  lemma {:induction false} PrintRedir(s: string, p: nat, end: nat, d: Cmd<string>, f: string, i: bool, c: Cmd<string>)
    requires c == Redir(d, f, i) && GoodCmd(c) && Has(s, p, Print(c)) && end == p + |Print(c)| && Stops(s, end)
    ensures p <= |s| && Gives(s, ParseLine(s, p), end, c) == true
    decreases c, 1
  {
    hide ParseRedirs, ParseArgs, ParseClose, ParseExec, ParsePipe, ParseBacks, ParseLine;
    var op := if i then "<" else ">";
    var p1, e, e1 := PrintBlock(s, p, d, op + f, c);
    HasConcat(s, e1, op, f);
    HasAt(s, e1, op, 0);
    RedirAt(s, p, p1, e, e1, Span(e1 + 1, end), d, f, i);
  }

  lemma {:induction false} PrintBoth(s: string, p: nat, end: nat, l: Cmd<string>, op: string, r: Cmd<string>,
                                     c: Cmd<string>)
    returns (p1: nat, e: nat, e1: nat, q: nat, q1: nat, f: nat)
    requires GoodCmd(l) && GoodCmd(r) && |op| == 1 && l < c && r < c && Stops(s, end)
    requires Has(s, p, "(" + Print(l) + ")" + (op + ("(" + Print(r) + ")"))) && end == p + |Print(l)| + |Print(r)| + 5
    ensures Blocks(s, p, p1, e, e1, q, q1, f, end, l, op[0], r) == true
    decreases c, 1
  {
    hide ParseRedirs, ParseArgs, ParseClose, ParseExec, ParsePipe, ParseBacks, ParseLine;
    var x := "(" + Print(r) + ")";
    p1, e, e1 := PrintBlock(s, p, l, op + x, c);
    HasConcat(s, e1, op, x);
    HasAt(s, e1, op, 0);
    q := e1 + 1;
    assert x == x + "";
    var f1;
    q1, f, f1 := PrintBlock(s, q, r, "", c);
  }

  /** parsecmd inverts Print. */
  lemma RoundTrip(c: Cmd<string>)
    requires GoodCmd(c)
    ensures ParseCmd(Print(c)).Ok? && Text(Print(c), ParseCmd(Print(c)).value) == c
  {
    var s := Print(c);
    assert s[0..|s|] == s;
    PrintAt(s, 0, |s|, c);
    assert Skip(s, |s|) == |s|;
  }

  // Words and nulterminate

  /** Every word of a command is a whole word of the input. */
  ghost predicate WordsOk(s: string, c: Cmd<Span>) {
    match c
    case Exec(ws) => forall k :: 0 <= k < |ws| ==> IsWord(s, ws[k])
    case Redir(d, f, _) => WordsOk(s, d) && IsWord(s, f)
    case Pipe(l, r) => WordsOk(s, l) && WordsOk(s, r)
    case List(l, r) => WordsOk(s, l) && WordsOk(s, r)
    case Back(d) => WordsOk(s, d)
  }

  ghost predicate FilesOk(s: string, rs: seq<Redirect<Span>>) {
    forall k :: 0 <= k < |rs| ==> IsWord(s, rs[k].file)
  }

  lemma {:induction false} WrapOk(s: string, c: Cmd<Span>, rs: seq<Redirect<Span>>)
    requires WordsOk(s, c) && FilesOk(s, rs)
    ensures WordsOk(s, Wrap(c, rs))
    decreases |rs|
  {
    if rs != [] {
      WrapOk(s, c, rs[..|rs| - 1]);
    }
  }

  lemma {:induction false} RedirsOk(s: string, p: nat, rs: seq<Redirect<Span>>)
    requires p <= |s| && FilesOk(s, rs)
    ensures var r := ParseRedirs(s, p, rs); r.Ok? ==> FilesOk(s, r.value)
    decreases |s| - p
  {
    var tok := GetToken(s, Skip(s, p));
    var file := GetToken(s, tok.next);
    if Peek(s, p, {'<', '>'}) && file.ret == 'a' {
      RedirsOk(s, file.next, rs + [Redirect(Span(file.q, file.eq), tok.ret == '<')]);
    }
  }

  lemma {:induction false} ArgsOk(s: string, p: nat, argv: seq<Span>, rs: seq<Redirect<Span>>)
    requires p <= |s| && WordsOk(s, Exec(argv)) && FilesOk(s, rs)
    ensures var r := ParseArgs(s, p, argv, rs); r.Ok? ==> WordsOk(s, r.value)
    decreases |s| - p
  {
    hide ParseRedirs, Wrap, GetToken;
    WrapOk(s, Exec(argv), rs);
    var t := GetToken(s, Skip(s, p));
    if !Peek(s, p, {'|', ')', '&', ';'}) && t.ret == 'a' && |argv| + 1 < MAXARGS {
      RedirsOk(s, t.next, rs);
      var more := ParseRedirs(s, t.next, rs);
      if more.Ok? {
        ArgsOk(s, more.pos, argv + [Span(t.q, t.eq)], more.value);
      }
    }
  }

  lemma CloseOk(s: string, line: Result<Cmd<Span>>)
    requires line.Ok? ==> line.pos <= |s| && WordsOk(s, line.value)
    ensures var r := ParseClose(s, line); r.Ok? ==> WordsOk(s, r.value)
  {
    hide ParseRedirs, Wrap, GetToken, WordsOk;
    if line.Ok? && Peek(s, line.pos, {')'}) {
      var next := GetToken(s, Skip(s, line.pos)).next;
      RedirsOk(s, next, []);
      if ParseRedirs(s, next, []).Ok? {
        WrapOk(s, line.value, ParseRedirs(s, next, []).value);
      }
    }
  }

  lemma {:induction false} ExecOk(s: string, p: nat)
    requires p <= |s|
    ensures var r := ParseExec(s, p); r.Ok? ==> WordsOk(s, r.value)
    decreases |s| - p, 0
  {
    hide ParseRedirs, ParseArgs, ParseClose, ParseLine, GetToken;
    if Peek(s, p, {'('}) {
      var open := GetToken(s, Skip(s, p));
      LineOk(s, open.next);
      CloseOk(s, ParseLine(s, open.next));
    } else {
      RedirsOk(s, Skip(s, p), []);
      var rs := ParseRedirs(s, Skip(s, p), []);
      if rs.Ok? {
        ArgsOk(s, rs.pos, [], rs.value);
      }
    }
  }

  lemma {:induction false} PipeOk(s: string, p: nat)
    requires p <= |s|
    ensures var r := ParsePipe(s, p); r.Ok? ==> WordsOk(s, r.value)
    decreases |s| - p, 1
  {
    hide ParseExec, GetToken;
    ExecOk(s, p);
    var left := ParseExec(s, p);
    if left.Ok? && Peek(s, left.pos, {'|'}) {
      PipeOk(s, GetToken(s, Skip(s, left.pos)).next);
    }
  }

  lemma {:induction false} BacksOk(s: string, c: Cmd<Span>, p: nat)
    requires p <= |s| && WordsOk(s, c)
    ensures WordsOk(s, ParseBacks(s, c, p).value)
    decreases |s| - p
  {
    if Peek(s, p, {'&'}) {
      BacksOk(s, Back(c), GetToken(s, Skip(s, p)).next);
    }
  }

  lemma {:induction false} LineOk(s: string, p: nat)
    requires p <= |s|
    ensures var r := ParseLine(s, p); r.Ok? ==> WordsOk(s, r.value)
    decreases |s| - p, 2
  {
    hide ParsePipe, ParseBacks, GetToken;
    PipeOk(s, p);
    var first := ParsePipe(s, p);
    if first.Ok? {
      BacksOk(s, first.value, first.pos);
      var left := ParseBacks(s, first.value, first.pos);
      if Peek(s, left.pos, {';'}) {
        LineOk(s, GetToken(s, Skip(s, left.pos)).next);
      }
    }
  }

  /** Some word of the command ends at k. */
  ghost predicate EndsAt(c: Cmd<Span>, k: nat) {
    match c
    case Exec(ws) => exists j :: 0 <= j < |ws| && ws[j].b == k
    case Redir(d, f, _) => EndsAt(d, k) || f.b == k
    case Pipe(l, r) => EndsAt(l, k) || EndsAt(r, k)
    case List(l, r) => EndsAt(l, k) || EndsAt(r, k)
    case Back(d) => EndsAt(d, k)
  }

  /** w is a word of the command. */
  ghost predicate Occurs(c: Cmd<Span>, w: Span) {
    match c
    case Exec(ws) => w in ws
    case Redir(d, f, _) => Occurs(d, w) || f == w
    case Pipe(l, r) => Occurs(l, w) || Occurs(r, w)
    case List(l, r) => Occurs(l, w) || Occurs(r, w)
    case Back(d) => Occurs(d, w)
  }

  /** The buffer with a NUL behind every word. */
  ghost function Terminated(c: Cmd<Span>, buf: string): (r: string)
    ensures |r| == |buf|
  {
    seq(|buf|, k requires 0 <= k < |buf| => if EndsAt(c, k) then '\0' else buf[k])
  }

  lemma {:induction false} EndsBehindWords(s: string, c: Cmd<Span>, k: nat)
    requires WordsOk(s, c) && EndsAt(c, k)
    ensures k <= |s| && (k < |s| ==> !IsWordChar(s[k]))
  {
    match c
    case Exec(ws) =>
    case Redir(d, f, _) => if f.b != k { EndsBehindWords(s, d, k); }
    case Pipe(l, r) => if EndsAt(l, k) { EndsBehindWords(s, l, k); } else { EndsBehindWords(s, r, k); }
    case List(l, r) => if EndsAt(l, k) { EndsBehindWords(s, l, k); } else { EndsBehindWords(s, r, k); }
    case Back(d) => EndsBehindWords(s, d, k);
  }

  lemma {:induction false} OccursEnds(s: string, c: Cmd<Span>, w: Span)
    requires WordsOk(s, c) && Occurs(c, w)
    ensures IsWord(s, w) && EndsAt(c, w.b)
  {
    match c
    case Exec(ws) =>
    case Redir(d, f, _) => if f != w { OccursEnds(s, d, w); }
    case Pipe(l, r) => if Occurs(l, w) { OccursEnds(s, l, w); } else { OccursEnds(s, r, w); }
    case List(l, r) => if Occurs(l, w) { OccursEnds(s, l, w); } else { OccursEnds(s, r, w); }
    case Back(d) => OccursEnds(s, d, w);
  }

  /** For every input: after nulterminate each word reads as itself, and ends there. */
  lemma WordsSurvive(s: string, c: Cmd<Span>, w: Span)
    requires ParseCmd(s).Ok? && c == ParseCmd(s).value && Occurs(c, w)
    ensures w.a < w.b <= |s|
    ensures var buf := Terminated(c, s + ['\0']); buf[w.a..w.b] == s[w.a..w.b] && buf[w.b] == '\0'
  {
    hide ParseLine, WordsOk, Occurs, EndsAt, IsWordChar;
    LineOk(s, 0);
    OccursEnds(s, c, w);
    forall k | w.a <= k < w.b
      ensures !EndsAt(c, k)
    {
      if EndsAt(c, k) {
        EndsBehindWords(s, c, k);
      }
    }
  }

  // The code

  /** The strings of the source that define the classes of characters. */
  lemma CharClasses()
    ensures forall c :: IsSpace(c) <==> c in " \t\r\n\U{000B}"
    ensures forall c :: IsSymbol(c) <==> c in "<|>&;()"
    ensures forall c :: IsWordChar(c) <==> c !in "<|>&;() \t\r\n\U{000B}"
  {
  }

  /**
   t is the first token from p on: white space around it is passed over; an operator is one character, or ">>"; a word
   reaches up to the next white space or operator.
   */
  ghost predicate TokenAt(s: string, p: nat, t: Token) {
    && p <= t.q <= t.eq <= t.next <= |s|
    && (forall k :: p <= k < t.q || t.eq <= k < t.next ==> s[k] in " \t\r\n\U{000B}")
    && (t.q < |s| ==> s[t.q] !in " \t\r\n\U{000B}")
    && (t.next < |s| ==> s[t.next] !in " \t\r\n\U{000B}")
    && (t.ret == '\0' <==> t.q == |s|)
    && (t.ret == '+' <==> t.q + 1 < |s| && s[t.q] == '>' && s[t.q + 1] == '>')
    && (t.ret == '+' ==> t.eq == t.q + 2)
    && (t.q < |s| && t.ret != '+' && s[t.q] in "<|>&;()" ==> t.ret == s[t.q] && t.eq == t.q + 1)
    && (t.ret == 'a' <==> t.q < |s| && s[t.q] !in "<|>&;()")
    && (t.ret == 'a' ==> t.q < t.eq && forall k :: t.q <= k < t.eq ==> s[k] !in "<|>&;() \t\r\n\U{000B}")
    && (t.ret == 'a' && t.eq < |s| ==> s[t.eq] in "<|>&;() \t\r\n\U{000B}")
  }

  lemma TokenMeans(s: string, p: nat, t: Token)
    requires p <= |s| && t == GetToken(s, p)
    ensures TokenAt(s, p, t)
  {
    CharClasses();
    Skipped(s, p);
    Skipped(s, t.eq);
    hide IsSpace, IsSymbol, IsWordChar;
    assert !IsSpace('>');
  }

  lemma {:induction false} Skipped(s: string, p: nat)
    requires p <= |s|
    ensures forall k :: p <= k < Skip(s, p) ==> IsSpace(s[k])
    decreases |s| - p
  {
    if p < |s| && IsSpace(s[p]) {
      Skipped(s, p + 1);
    }
  }

  method Gettoken(s: string, p: nat) returns (t: Token)
    requires p <= |s|
    ensures t == GetToken(s, p) && TokenAt(s, p, t) == true
  {
    hide TokenAt;
    var q := SkipSpaces(s, p);
    var ret, e := if q < |s| then s[q] else '\0', q;
    if q < |s| {
      if s[q] == '|' || s[q] == '(' || s[q] == ')' || s[q] == ';' || s[q] == '&' || s[q] == '<' {
        e := q + 1;
      } else if s[q] == '>' {
        e := q + 1;
        if e < |s| && s[e] == '>' {
          ret := '+';
          e := e + 1;
        }
      } else {
        ret := 'a';
        while e < |s| && !IsSpace(s[e]) && !IsSymbol(s[e])
          invariant q <= e <= |s| && WordEnd(s, e) == WordEnd(s, q)
        {
          e := e + 1;
        }
      }
    }
    var n := SkipSpaces(s, e);
    t := Token(ret, q, e, n);
    assert t == GetToken(s, p);
    TokenMeans(s, p, t);
  }

  method SkipSpaces(s: string, p: nat) returns (q: nat)
    requires p <= |s|
    ensures q == Skip(s, p) && forall k :: p <= k < q ==> IsSpace(s[k])
  {
    q := p;
    while q < |s| && IsSpace(s[q])
      invariant p <= q <= |s| && Skip(s, q) == Skip(s, p) && forall k :: p <= k < q ==> IsSpace(s[k])
    {
      q := q + 1;
    }
  }

  method PeekAt(s: string, p: nat, toks: set<char>) returns (r: bool, q: nat)
    requires p <= |s|
    ensures r == Peek(s, p, toks) && q == Skip(s, p) && p <= q <= |s| && (r <==> q < |s| && s[q] in toks)
    ensures forall k :: p <= k < q ==> s[k] in " \t\r\n\U{000B}"
    ensures q < |s| ==> s[q] !in " \t\r\n\U{000B}"
  {
    CharClasses();
    q := SkipSpaces(s, p);
    r := q < |s| && s[q] in toks;
  }

  method Parsecmd(s: string) returns (r: Result<Cmd<Span>>)
    ensures r == ParseCmd(s)
  {
    r := Parseline(s, 0);
    if r.Panic? {
      return;
    }
    var pos := SkipSpaces(s, r.pos);
    if pos != |s| {
      return Panic;
    }
    return Ok(r.value, pos);
  }

  method Parseline(s: string, p: nat) returns (r: Result<Cmd<Span>>)
    requires p <= |s|
    ensures r == ParseLine(s, p)
    decreases |s| - p, 3
  {
    hide ParseExec, ParsePipe, ParseArgs, ParseRedirs, ParseClose;
    var first := Parsepipe(s, p);
    if first.Panic? {
      return Panic;
    }
    var cmd, pos := first.value, first.pos;
    var back;
    back, pos := PeekAt(s, pos, {'&'});
    while back
      invariant p <= pos <= |s| && pos == Skip(s, pos) && back == Peek(s, pos, {'&'})
      invariant ParseBacks(s, cmd, pos) == ParseBacks(s, first.value, first.pos)
      decreases |s| - pos
    {
      var t := Gettoken(s, pos);
      cmd := Back(cmd);
      back, pos := PeekAt(s, t.next, {'&'});
    }
    assert ParseBacks(s, cmd, pos) == Ok(cmd, pos);
    var list;
    list, pos := PeekAt(s, pos, {';'});
    if list {
      var t := Gettoken(s, pos);
      var rest := Parseline(s, t.next);
      if rest.Panic? {
        return Panic;
      }
      return Ok(List(cmd, rest.value), rest.pos);
    }
    return Ok(cmd, pos);
  }

  method Parsepipe(s: string, p: nat) returns (r: Result<Cmd<Span>>)
    requires p <= |s|
    ensures r == ParsePipe(s, p)
    decreases |s| - p, 2
  {
    hide ParseExec, ParseLine, ParseArgs, ParseRedirs, ParseClose;
    var left := Parseexec(s, p);
    if left.Panic? {
      return Panic;
    }
    var pipe, pos := PeekAt(s, left.pos, {'|'});
    if pipe {
      var t := Gettoken(s, pos);
      var right := Parsepipe(s, t.next);
      if right.Panic? {
        return Panic;
      }
      return Ok(Pipe(left.value, right.value), right.pos);
    }
    return Ok(left.value, pos);
  }

  method Parseredirs(s: string, p: nat, rs0: seq<Redirect<Span>>) returns (r: Result<seq<Redirect<Span>>>)
    requires p <= |s|
    ensures r == ParseRedirs(s, p, rs0)
  {
    var rs := rs0;
    var redir, pos := PeekAt(s, p, {'<', '>'});
    while redir
      invariant pos <= |s| && pos == Skip(s, pos) && redir == Peek(s, pos, {'<', '>'})
      invariant ParseRedirs(s, pos, rs) == ParseRedirs(s, p, rs0)
      decreases |s| - pos
    {
      var tok := Gettoken(s, pos);
      var file := Gettoken(s, tok.next);
      if file.ret != 'a' {
        return Panic;
      }
      rs := rs + [Redirect(Span(file.q, file.eq), tok.ret == '<')];
      redir, pos := PeekAt(s, file.next, {'<', '>'});
    }
    return Ok(rs, pos);
  }

  method Parseblock(s: string, p: nat) returns (r: Result<Cmd<Span>>)
    requires p <= |s| && Peek(s, p, {'('})
    ensures r == ParseExec(s, p)
    decreases |s| - p, 0
  {
    hide ParseLine, ParsePipe, ParseArgs, ParseRedirs;
    var pos := SkipSpaces(s, p);
    var open := Gettoken(s, pos);
    var line := Parseline(s, open.next);
    if line.Panic? {
      return Panic;
    }
    var closed;
    closed, pos := PeekAt(s, line.pos, {')'});
    if !closed {
      return Panic;
    }
    var close := Gettoken(s, pos);
    var rs := Parseredirs(s, close.next, []);
    if rs.Panic? {
      return Panic;
    }
    return Ok(Wrap(line.value, rs.value), rs.pos);
  }

  method Parseexec(s: string, p: nat) returns (r: Result<Cmd<Span>>)
    requires p <= |s|
    ensures r == ParseExec(s, p)
    decreases |s| - p, 1
  {
    hide ParseLine, ParsePipe, ParseRedirs, ParseClose;
    var block, pos := PeekAt(s, p, {'('});
    if block {
      r := Parseblock(s, p);
      return;
    }
    var rs := Parseredirs(s, pos, []);
    if rs.Panic? {
      return Panic;
    }
    var argv, redirs := [], rs.value;
    var stop;
    stop, pos := PeekAt(s, rs.pos, {'|', ')', '&', ';'});
    while !stop
      invariant pos <= |s| && pos == Skip(s, pos) && stop == Peek(s, pos, {'|', ')', '&', ';'}) && |argv| < MAXARGS
      invariant ParseArgs(s, pos, argv, redirs) == ParseArgs(s, rs.pos, [], rs.value)
      decreases |s| - pos
    {
      var t := Gettoken(s, pos);
      if t.ret == '\0' {
        return Ok(Wrap(Exec(argv), redirs), t.next);
      }
      if t.ret != 'a' || |argv| + 1 >= MAXARGS {
        return Panic;
      }
      var more := Parseredirs(s, t.next, redirs);
      if more.Panic? {
        return Panic;
      }
      argv, redirs := argv + [Span(t.q, t.eq)], more.value;
      stop, pos := PeekAt(s, more.pos, {'|', ')', '&', ';'});
    }
    return Ok(Wrap(Exec(argv), redirs), pos);
  }

  /** nulterminate, on the buffer that held the input. */
  method Nulterminate(c: Cmd<Span>, buf: array<char>, ghost s: string)
    requires WordsOk(s, c) && buf.Length == |s| + 1
    modifies buf
    ensures buf[..] == Terminated(c, old(buf[..]))
    decreases c
  {
    match c
    case Exec(ws) =>
      var i := 0;
      while i < |ws|
        invariant 0 <= i <= |ws|
        invariant forall k :: 0 <= k < buf.Length ==>
          buf[k] == if exists j :: 0 <= j < i && ws[j].b == k then '\0' else old(buf[k])
      {
        assert IsWord(s, ws[i]);
        buf[ws[i].b] := '\0';
        i := i + 1;
      }
    case Redir(d, f, _) =>
      Nulterminate(d, buf, s);
      buf[f.b] := '\0';
    case Pipe(l, r) =>
      Nulterminate(l, buf, s);
      Nulterminate(r, buf, s);
    case List(l, r) =>
      Nulterminate(l, buf, s);
      Nulterminate(r, buf, s);
    case Back(d) =>
      Nulterminate(d, buf, s);
  }
}

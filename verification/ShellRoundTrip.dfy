/**
 Printing a command with every part in parentheses and parsing it again.
 */
module ShellRoundTrip {
  import opened ShellGrammar

  type Tree = Command<string>

  // ----- Trees and their text -----

  predicate PlainWord(w: string) {
    |w| > 0 && forall i :: 0 <= i < |w| ==> IsPlain(w[i])
  }

  predicate AllPlain(ws: seq<string>) {
    forall k :: 0 <= k < |ws| ==> PlainWord(ws[k])
  }

  // Words the shell can read and redirections it can express.
  predicate Printable(t: Tree) {
    match t
    case Exec(argv) => AllPlain(argv)
    case Redir(inner, file, mode, fd) => Printable(inner) && PlainWord(file) && RedirOk(mode, fd)
    case Pipe(left, right) => Printable(left) && Printable(right)
    case List(left, right) => Printable(left) && Printable(right)
    case Back(inner) => Printable(inner)
  }

  // No command has too many arguments.
  predicate Fits(t: Tree) {
    match t
    case Exec(argv) => |argv| < MAXARGS
    case Redir(inner, _, _, _) => Fits(inner)
    case Pipe(left, right) => Fits(left) && Fits(right)
    case List(left, right) => Fits(left) && Fits(right)
    case Back(inner) => Fits(inner)
  }

  // The words from the i-th on, separated by blanks.
  function Joined(ws: seq<string>, i: int): (u: string)
    requires 0 <= i <= |ws|
    decreases |ws| - i
  {
    if i == |ws| then "" else if i + 1 == |ws| then ws[i] else ws[i] + (" " + Joined(ws, i + 1))
  }

  function LineText(t: Tree): (u: string)
    decreases t, 0
  {
    match t
    case Exec(argv) => Joined(argv, 0)
    case Redir(inner, file, _, fd) => BlockText(inner) + (if fd == 0 then "<" else ">") + file
    case Pipe(left, right) => BlockText(left) + "|" + BlockText(right)
    case List(left, right) => BlockText(left) + ";" + BlockText(right)
    case Back(inner) => BlockText(inner) + "&"
  }

  function BlockText(t: Tree): (u: string)
    decreases t, 1
  {
    "(" + LineText(t) + ")"
  }

  // The command with its words instead of their places.
  function Named(text: string, c: Cmd): (t: Tree) {
    match c
    case Exec(argv) => Exec(Names(text, argv))
    case Redir(inner, file, mode, fd) => Redir(Named(text, inner), Name(text, file), mode, fd)
    case Pipe(left, right) => Pipe(Named(text, left), Named(text, right))
    case List(left, right) => List(Named(text, left), Named(text, right))
    case Back(inner) => Back(Named(text, inner))
  }

  function Name(text: string, w: Span): (u: string) {
    if 0 <= w.q <= w.eq <= |text| then text[w.q..w.eq] else ""
  }

  function Names(text: string, argv: seq<Span>): (ws: seq<string>)
    ensures |ws| == |argv| && forall i :: 0 <= i < |ws| ==> ws[i] == Name(text, argv[i])
  {
    seq(|argv|, i requires 0 <= i < |argv| => Name(text, argv[i]))
  }

  // ----- Places in the text -----

  predicate Occurs(text: string, s: int, u: string) {
    0 <= s && s + |u| <= |text| && forall i :: 0 <= i < |u| ==> Here(text, s, u, i)
  }

  predicate Here(text: string, s: int, u: string, i: int)
    requires 0 <= s && s + |u| <= |text| && 0 <= i < |u|
  {
    text[s + i] == u[i]
  }

  lemma {:induction false} OccursParts(text: string, s: int, u: string, v: string)
    requires Occurs(text, s, u + v)
    ensures Occurs(text, s, u) && Occurs(text, s + |u|, v)
  {
    var t := u + v;
    forall i | 0 <= i < |u| ensures Here(text, s, u, i) { assert Here(text, s, t, i); }
    var s' := s + |u|;
    forall i | 0 <= i < |v| ensures Here(text, s', v, i) { assert Here(text, s, t, |u| + i); }
  }

  lemma {:induction false} OccursAt(text: string, s: int, u: string, i: int)
    requires Occurs(text, s, u) && 0 <= i < |u|
    ensures s + i < |text| && text[s + i] == u[i]
  {
    assert Here(text, s, u, i);
  }

  // The text ends here, or the block around it.
  predicate Closes(text: string, e: int) {
    e == |text| || (0 <= e < |text| && text[e] == ')')
  }

  // Nothing here is skipped or taken for a redirection.
  predicate Stops(text: string, e: int) {
    e == |text| || (0 <= e < |text| && !IsWhite(text[e]) && text[e] != '<' && text[e] != '>')
  }

  lemma {:induction false} SymbolToken(text: Text, s: int)
    requires 0 <= s < |text| && IsSymbol(text[s]) && (text[s] == '>' ==> s + 1 < |text| && text[s + 1] != '>')
    requires s + 1 < |text| ==> !IsWhite(text[s + 1])
    ensures TokenAt(text, s) == Symbol(text[s]) && After(text, s) == s + 1
  {
    assert SkipWhite(text, s) == s && SkipWhite(text, s + 1) == s + 1;
  }

  lemma {:induction false} WordEnds(text: Text, s: int, e: int)
    requires 0 <= s <= e <= |text| && (forall k :: s <= k < e ==> IsPlain(text[k]))
    requires (e < |text| ==> !IsPlain(text[e]))
    ensures WordEnd(text, s) == e
    decreases e - s
  {
    if s < e { WordEnds(text, s + 1, e); }
  }

  lemma {:induction false} WordToken(text: Text, s: int, w: string)
    requires PlainWord(w) && Occurs(text, s, w) && (s + |w| < |text| ==> !IsPlain(text[s + |w|]))
    ensures TokenAt(text, s) == Word && SpanAt(text, s) == Span(s, s + |w|) && SkipWhite(text, s) == s
    ensures Name(text, SpanAt(text, s)) == w
  {
    forall k | s <= k < s + |w| ensures IsPlain(text[k]) { OccursAt(text, s, w, k - s); }
    WordEnds(text, s, s + |w|);
    assert SkipWhite(text, s) == s;
    forall k | 0 <= k < |w| ensures text[s..s + |w|][k] == w[k] { OccursAt(text, s, w, k); }
  }

  lemma {:induction false} NoRedirs(text: Text, c: Cmd, s: int)
    requires 0 <= s <= |text| && Stops(text, s)
    ensures RedirsAt(text, c, s) == Ok(c, s)
  {
    assert SkipWhite(text, s) == s;
  }

  // ----- Arguments -----

  lemma {:induction false} JoinedStarts(ws: seq<string>, i: int)
    requires 0 <= i < |ws| && PlainWord(ws[i])
    ensures |Joined(ws, i)| > 0 && IsPlain(Joined(ws, i)[0])
  {
  }

  // A blank and the next word are behind a word.
  lemma {:induction false} BlankBehind(text: Text, s: int, ws: seq<string>, i: int)
    requires 0 <= i && i + 1 < |ws| && PlainWord(ws[i]) && PlainWord(ws[i + 1]) && Occurs(text, s, Joined(ws, i))
    ensures var e := s + |ws[i]|;
            && Occurs(text, s, ws[i]) && e < |text| && text[e] == ' ' && SkipWhite(text, e) == e + 1
            && Occurs(text, e + 1, Joined(ws, i + 1)) && e + 1 < |text| && IsPlain(text[e + 1])
  {
    var w, rest := ws[i], Joined(ws, i + 1);
    OccursParts(text, s, w, " " + rest);
    OccursParts(text, s + |w|, " ", rest);
    OccursAt(text, s + |w|, " ", 0);
    JoinedStarts(ws, i + 1);
    OccursAt(text, s + |w| + 1, rest, 0);
  }

  // Behind a word there is the next one, or the end.
  lemma {:induction false} NextWord(text: Text, s: int, ws: seq<string>, i: int)
    requires 0 <= i < |ws| && AllPlain(ws) && Occurs(text, s, Joined(ws, i))
    requires Closes(text, s + |Joined(ws, i)|)
    ensures s < |text| && IsPlain(text[s]) && TokenAt(text, s) == Word && Name(text, SpanAt(text, s)) == ws[i]
    ensures var e := After(text, s);
            && Occurs(text, e, Joined(ws, i + 1)) && e + |Joined(ws, i + 1)| == s + |Joined(ws, i)| && Stops(text, e)
  {
    assert PlainWord(ws[i]);
    JoinedStarts(ws, i);
    OccursAt(text, s, Joined(ws, i), 0);
    if i + 1 < |ws| {
      BlankBehind(text, s, ws, i);
      WordToken(text, s, ws[i]);
      assert After(text, s) == s + |ws[i]| + 1;
    } else {
      WordToken(text, s, ws[i]);
      assert After(text, s) == s + |ws[i]|;
    }
  }

  // What parseexec() makes of the rest when it has read argv.
  function Rest(text: Text, s: int, argv: seq<Span>): (r: Parsed)
    requires 0 <= s <= |text|
  {
    ArgsAt(text, Exec(argv), |argv|, s)
  }

  // One round of the loop of parseexec(), at a word that no redirection follows.
  lemma {:induction false} ArgStep(text: Text, s: int, argv: seq<Span>)
    requires 0 <= s < |text| && IsPlain(text[s]) && TokenAt(text, s) == Word && Stops(text, After(text, s))
    ensures Rest(text, s, argv) ==
            if |argv| + 1 >= MAXARGS then Failed(TooManyArgs) else Rest(text, After(text, s), argv + [SpanAt(text, s)])
  {
    assert SkipWhite(text, s) == s && !Sees(text, s, "|)&;");
    NoRedirs(text, Exec(argv + [SpanAt(text, s)]), After(text, s));
  }

  lemma {:induction false} ArgsEnd(text: Text, s: int, argv: seq<Span>)
    requires 0 <= s && Closes(text, s)
    ensures Rest(text, s, argv) == Ok(Exec(argv), s)
  {
    assert SkipWhite(text, s) == s;
  }

  // The arguments that have been read are the first ones.
  predicate Read(text: string, argv: seq<Span>, ws: seq<string>) {
    |argv| <= |ws| && forall k :: 0 <= k < |argv| ==> IsNamed(text, argv[k], ws[k])
  }

  predicate IsNamed(text: string, w: Span, u: string) {
    Name(text, w) == u
  }

  lemma {:induction false} ReadMore(text: string, argv: seq<Span>, ws: seq<string>, w: Span)
    requires Read(text, argv, ws) && |argv| < |ws| && Name(text, w) == ws[|argv|]
    ensures Read(text, argv + [w], ws)
  {
    var longer := argv + [w];
    forall k | 0 <= k < |longer| ensures IsNamed(text, longer[k], ws[k]) {
      if k < |argv| { assert IsNamed(text, argv[k], ws[k]); }
    }
  }

  lemma {:induction false} WordStep(text: Text, s: int, argv: seq<Span>, ws: seq<string>) returns (longer: seq<Span>,
                                    e: int)
    requires AllPlain(ws) && Read(text, argv, ws) && |argv| < |ws|
    requires Occurs(text, s, Joined(ws, |argv|)) && Closes(text, s + |Joined(ws, |argv|)|)
    ensures |longer| == |argv| + 1 && Read(text, longer, ws) && Occurs(text, e, Joined(ws, |longer|))
    ensures Closes(text, e + |Joined(ws, |longer|)|) && e + |Joined(ws, |longer|)| == s + |Joined(ws, |argv|)|
    ensures Rest(text, s, argv) == if |argv| + 1 >= MAXARGS then Failed(TooManyArgs) else Rest(text, e, longer)
  {
    NextWord(text, s, ws, |argv|);
    ArgStep(text, s, argv);
    e := After(text, s);
    ReadMore(text, argv, ws, SpanAt(text, s));
    longer := argv + [SpanAt(text, s)];
  }

  lemma {:induction false} ArgsFit(text: Text, s: int, argv: seq<Span>, ws: seq<string>) returns (all: seq<Span>)
    requires AllPlain(ws) && Read(text, argv, ws) && |ws| < MAXARGS
    requires Occurs(text, s, Joined(ws, |argv|)) && Closes(text, s + |Joined(ws, |argv|)|)
    ensures |all| == |ws| && Read(text, all, ws) && Rest(text, s, argv) == Ok(Exec(all), s + |Joined(ws, |argv|)|)
    decreases |ws| - |argv|
  {
    if |argv| == |ws| {
      all := argv;
      ArgsEnd(text, s, argv);
    } else {
      var longer, e := WordStep(text, s, argv, ws);
      all := ArgsFit(text, e, longer, ws);
    }
  }

  lemma {:induction false} ArgsDoNotFit(text: Text, s: int, argv: seq<Span>, ws: seq<string>)
    requires AllPlain(ws) && Read(text, argv, ws) && |argv| < MAXARGS <= |ws|
    requires Occurs(text, s, Joined(ws, |argv|)) && Closes(text, s + |Joined(ws, |argv|)|)
    ensures Rest(text, s, argv) == Failed(TooManyArgs)
    decreases MAXARGS - |argv|
  {
    var longer, e := WordStep(text, s, argv, ws);
    if |argv| + 1 < MAXARGS { ArgsDoNotFit(text, e, longer, ws); }
  }

  // ----- Commands -----

  // The first character of a line, or what closes it, is not white and starts no redirection.
  lemma {:induction false} LineStarts(text: Text, s: int, t: Tree)
    requires Printable(t) && Occurs(text, s, LineText(t)) && Closes(text, s + |LineText(t)|)
    ensures s <= |text| && Stops(text, s) && (t.Exec? && s < |text| ==> text[s] != '(')
  {
    if t.Exec? {
      if |t.argv| > 0 {
        JoinedStarts(t.argv, 0);
        OccursAt(text, s, LineText(t), 0);
      }
    } else {
      assert LineText(t)[0] == '(';
      OccursAt(text, s, LineText(t), 0);
    }
  }

  lemma {:induction false} NamesAre(text: string, argv: seq<Span>, ws: seq<string>)
    requires |argv| == |ws| && Read(text, argv, ws)
    ensures Names(text, argv) == ws
  {
    forall k | 0 <= k < |ws| ensures Names(text, argv)[k] == ws[k] { assert IsNamed(text, argv[k], ws[k]); }
  }

  lemma {:induction false} ExecParses(text: Text, s: int, ws: seq<string>) returns (c: Cmd)
    requires AllPlain(ws) && Occurs(text, s, Joined(ws, 0)) && Closes(text, s + |Joined(ws, 0)|)
    ensures |ws| < MAXARGS ==> ExecAt(text, s) == Ok(c, s + |Joined(ws, 0)|) && Named(text, c) == Exec(ws)
    ensures |ws| >= MAXARGS ==> ExecAt(text, s) == Failed(TooManyArgs)
  {
    c := Exec([]);
    LineStarts(text, s, Exec(ws));
    assert SkipWhite(text, s) == s;
    NoRedirs(text, Exec([]), s);
    assert ExecAt(text, s) == Rest(text, s, []);
    if |ws| < MAXARGS {
      var all := ArgsFit(text, s, [], ws);
      NamesAre(text, all, ws);
      c := Exec(all);
    } else {
      ArgsDoNotFit(text, s, [], ws);
    }
  }

  // Commands that nothing is appended to.
  lemma {:induction false} PipeIsExec(text: Text, s: int, e: int, c: Cmd)
    requires 0 <= s <= |text| && ExecAt(text, s) == Ok(c, e) && Stops(text, e) && (e < |text| ==> text[e] != '|')
    ensures PipeAt(text, s) == Ok(c, e)
  {
    assert SkipWhite(text, e) == e;
  }

  lemma {:induction false} LineIsPipe(text: Text, s: int, e: int, c: Cmd)
    requires 0 <= s <= |text| && PipeAt(text, s) == Ok(c, e) && Closes(text, e)
    ensures LineAt(text, s) == Ok(c, e)
  {
    assert SkipWhite(text, e) == e && BacksAt(text, c, e) == Ok(c, e);
  }

  lemma {:induction false} LineFails(text: Text, s: int, p: Panic)
    requires 0 <= s <= |text| && ExecAt(text, s) == Failed(p)
    ensures PipeAt(text, s) == Failed(p) && LineAt(text, s) == Failed(p)
  {
  }

  // The symbol at e is a token of its own.
  predicate Alone(text: Text, e: int, symbol: char) {
    && 0 <= e < |text| && text[e] == symbol && IsSymbol(symbol) && TokenAt(text, e) == Symbol(symbol)
    && SkipWhite(text, e) == e && After(text, e) == e + 1
  }

  // What parseexec() or parseline() yields for a part that fits, or does not.
  predicate Yields(r: Parsed, fits: bool, c: Cmd, e: int) {
    r == if fits then Ok(c, e) else Failed(TooManyArgs)
  }

  lemma {:induction false} PipeLine(text: Text, s: int, e: int, end: int, left: Cmd, right: Cmd)
    requires 0 <= s <= |text| && ExecAt(text, s) == Ok(left, e) && Alone(text, e, '|')
    requires ExecAt(text, e + 1) == Ok(right, end) && Closes(text, end)
    ensures LineAt(text, s) == Ok(Pipe(left, right), end)
  {
    PipeIsExec(text, e + 1, end, right);
    assert PipeAt(text, s) == Ok(Pipe(left, right), end);
    LineIsPipe(text, s, end, Pipe(left, right));
  }

  lemma {:induction false} PipeLineFails(text: Text, s: int, e: int, left: Cmd, p: Panic)
    requires 0 <= s <= |text| && ExecAt(text, s) == Ok(left, e) && Alone(text, e, '|')
    requires ExecAt(text, e + 1) == Failed(p)
    ensures LineAt(text, s) == Failed(p)
  {
    LineFails(text, e + 1, p);
    assert PipeAt(text, s) == Failed(p);
  }

  lemma {:induction false} ListLine(text: Text, s: int, e: int, left: Cmd)
    requires 0 <= s <= |text| && ExecAt(text, s) == Ok(left, e) && Alone(text, e, ';')
    ensures var right := LineAt(text, e + 1);
            LineAt(text, s) == if right.Failed? then right else Ok(List(left, right.cmd), right.s)
  {
    PipeIsExec(text, s, e, left);
    assert BacksAt(text, left, e) == Ok(left, e);
  }

  lemma {:induction false} PipeYields(text: Text, s: int, e: int, end: int, left: Cmd, right: Cmd, l: bool, r: bool)
    requires 0 <= s <= |text| && Yields(ExecAt(text, s), l, left, e) && Alone(text, e, '|')
    requires Yields(ExecAt(text, e + 1), r, right, end) && Closes(text, end)
    ensures Yields(LineAt(text, s), l && r, Pipe(left, right), end)
  {
    if !l {
      LineFails(text, s, TooManyArgs);
    } else if !r {
      PipeLineFails(text, s, e, left, TooManyArgs);
    } else {
      PipeLine(text, s, e, end, left, right);
    }
  }

  lemma {:induction false} ListYields(text: Text, s: int, e: int, end: int, left: Cmd, right: Cmd, l: bool, r: bool)
    requires 0 <= s <= |text| && Yields(ExecAt(text, s), l, left, e) && Alone(text, e, ';')
    requires Yields(ExecAt(text, e + 1), r, right, end) && Closes(text, end)
    ensures Yields(LineAt(text, s), l && r, List(left, right), end)
  {
    LineYields(text, e + 1, right, end, r);
    if l { ListLine(text, s, e, left); } else { LineFails(text, s, TooManyArgs); }
  }

  lemma {:induction false} BackLine(text: Text, s: int, e: int, inner: Cmd)
    requires 0 <= s <= |text| && ExecAt(text, s) == Ok(inner, e) && Alone(text, e, '&') && Closes(text, e + 1)
    ensures LineAt(text, s) == Ok(Back(inner), e + 1)
  {
    PipeIsExec(text, s, e, inner);
    assert SkipWhite(text, e + 1) == e + 1;
    assert BacksAt(text, Back(inner), e + 1) == Ok(Back(inner), e + 1);
    assert BacksAt(text, inner, e) == Ok(Back(inner), e + 1);
  }

  lemma {:induction false} BlockYields(text: Text, s: int, close: int, e: int, c: Cmd, fits: bool)
    requires Alone(text, s, '(') && Alone(text, close, ')') && e == close + 1
    requires Yields(LineAt(text, s + 1), fits, c, close)
    ensures fits ==> ExecAt(text, s) == RedirsAt(text, c, e)
    ensures !fits ==> ExecAt(text, s) == Failed(TooManyArgs)
  {
    assert ExecAt(text, s) == BlockAt(text, s);
    assert Sees(text, close, ")");
  }

  // One redirection.
  lemma {:induction false} RedirLine(text: Text, e: int, symbol: char, file: string, end: int, inner: Cmd)
    requires 0 <= e < |text| && text[e] == symbol && (symbol == '<' || symbol == '>') && PlainWord(file)
    requires Occurs(text, e + 1, file) && end == e + 1 + |file| && Closes(text, end)
    ensures RedirsAt(text, inner, e) == Ok(Redirected(inner, Symbol(symbol), Span(e + 1, end)), end)
    ensures Name(text, Span(e + 1, end)) == file
  {
    OccursAt(text, e + 1, file, 0);
    SymbolToken(text, e);
    WordToken(text, e + 1, file);
    assert SkipWhite(text, e) == e && SkipWhite(text, end) == end && Sees(text, e, "<>");
    RedirStep(text, e, inner);
    NoRedirs(text, Redirected(inner, Symbol(symbol), Span(e + 1, end)), end);
  }

  lemma {:induction false} RedirStep(text: Text, e: int, inner: Cmd)
    requires 0 <= e < |text| && SkipWhite(text, e) == e && Sees(text, e, "<>") && TokenAt(text, After(text, e)) == Word
    ensures var f := After(text, e);
            RedirsAt(text, inner, e) ==
            RedirsAt(text, Redirected(inner, TokenAt(text, e), SpanAt(text, f)), After(text, f))
  {
  }

  lemma {:induction false} LineYields(text: Text, s: int, c: Cmd, end: int, fits: bool)
    requires 0 <= s <= |text| && Yields(ExecAt(text, s), fits, c, end) && Closes(text, end)
    ensures Yields(LineAt(text, s), fits, c, end)
  {
    if fits {
      PipeIsExec(text, s, end, c);
      LineIsPipe(text, s, end, c);
    } else {
      LineFails(text, s, TooManyArgs);
    }
  }

  lemma {:induction false} BackYields(text: Text, s: int, e: int, inner: Cmd, fits: bool)
    requires 0 <= s <= |text| && Yields(ExecAt(text, s), fits, inner, e) && 0 <= e < |text| && text[e] == '&'
    requires Closes(text, e + 1)
    ensures Yields(LineAt(text, s), fits, Back(inner), e + 1)
  {
    SymbolToken(text, e);
    assert SkipWhite(text, e) == e;
    if fits { BackLine(text, s, e, inner); } else { LineFails(text, s, TooManyArgs); }
  }

  lemma {:induction false} RedirYields(text: Text, s: int, e: int, inner: Cmd, fits: bool, c: Cmd, end: int)
    requires 0 <= s <= |text| && 0 <= e <= |text| && RedirsAt(text, inner, e) == Ok(c, end) && Closes(text, end)
    requires fits ==> ExecAt(text, s) == RedirsAt(text, inner, e)
    requires !fits ==> ExecAt(text, s) == Failed(TooManyArgs)
    ensures Yields(LineAt(text, s), fits, c, end)
  {
    LineYields(text, s, c, end, fits);
  }

  // A line in parentheses, up to the redirections that may follow.
  lemma {:induction false} BlockParses(text: Text, s: int, t: Tree, e: int) returns (c: Cmd)
    requires Printable(t) && Occurs(text, s, BlockText(t)) && e == s + |BlockText(t)|
    requires (e < |text| ==> !IsWhite(text[e]))
    ensures 0 <= s <= e <= |text|
    ensures Fits(t) ==> ExecAt(text, s) == RedirsAt(text, c, e) && Named(text, c) == t
    ensures !Fits(t) ==> ExecAt(text, s) == Failed(TooManyArgs)
    decreases t, 3
  {
    BlockEnds(text, s, t, e);
    c := LineParses(text, s + 1, t, e - 1);
    BlockYields(text, s, e - 1, e, c, Fits(t));
  }

  lemma {:induction false} BlockEnds(text: Text, s: int, t: Tree, e: int)
    requires Printable(t) && Occurs(text, s, BlockText(t)) && e == s + |BlockText(t)|
    requires (e < |text| ==> !IsWhite(text[e]))
    ensures Alone(text, s, '(') && Alone(text, e - 1, ')') && Occurs(text, s + 1, LineText(t))
    ensures e - 1 == s + 1 + |LineText(t)|
  {
    var u := LineText(t);
    OccursParts(text, s, "(" + u, ")");
    OccursParts(text, s, "(", u);
    OccursAt(text, s, "(", 0);
    OccursAt(text, s + 1 + |u|, ")", 0);
    LineStarts(text, s + 1, t);
    SymbolToken(text, s);
    SymbolToken(text, e - 1);
    assert SkipWhite(text, s) == s && SkipWhite(text, e - 1) == e - 1;
  }

  // A block that no redirection follows.
  lemma {:induction false} BareBlockParses(text: Text, s: int, t: Tree, e: int) returns (c: Cmd)
    requires Printable(t) && Occurs(text, s, BlockText(t)) && e == s + |BlockText(t)| && Stops(text, e)
    ensures 0 <= s <= e <= |text| && Yields(ExecAt(text, s), Fits(t), c, e) && (Fits(t) ==> Named(text, c) == t)
    decreases t, 4
  {
    c := BlockParses(text, s, t, e);
    NoRedirs(text, c, e);
  }

  // Two blocks with a symbol between them.
  lemma {:induction false} TwoBlocks(text: Text, s: int, left: Tree, symbol: char, right: Tree, e: int)
    requires IsSymbol(symbol) && symbol != '<' && symbol != '>' && e == s + |BlockText(left)|
    requires Occurs(text, s, BlockText(left) + [symbol] + BlockText(right))
    ensures Occurs(text, s, BlockText(left)) && Alone(text, e, symbol) && Occurs(text, e + 1, BlockText(right))
  {
    var u, v := BlockText(left), BlockText(right);
    OccursParts(text, s, u + [symbol], v);
    OccursParts(text, s, u, [symbol]);
    OccursAt(text, e, [symbol], 0);
    OccursAt(text, e + 1, v, 0);
    SymbolToken(text, e);
    assert SkipWhite(text, e) == e;
  }

  lemma {:induction false} LineParses(text: Text, s: int, t: Tree, end: int) returns (c: Cmd)
    requires Printable(t) && Occurs(text, s, LineText(t)) && end == s + |LineText(t)| && Closes(text, end)
    ensures 0 <= s <= |text| && Yields(LineAt(text, s), Fits(t), c, end) && (Fits(t) ==> Named(text, c) == t)
    decreases t, 2
  {
    match t {
      case Exec(ws) =>
        c := ExecParses(text, s, ws);
        LineYields(text, s, c, end, Fits(t));
      case Redir(_, _, _, _) => c := RedirParses(text, s, t, end);
      case Pipe(_, _) => c := PipeParses(text, s, t, end);
      case List(_, _) => c := ListParses(text, s, t, end);
      case Back(_) => c := BackParses(text, s, t, end);
    }
  }

  // Each of the two blocks is read as it should be.
  lemma {:induction false} PartParses(text: Text, s: int, part: Tree, e: int, t: Tree) returns (c: Cmd)
    requires (t.Pipe? || t.List?) && (part == t.left || part == t.right) && Printable(part)
    requires Occurs(text, s, BlockText(part)) && e == s + |BlockText(part)|
    requires Closes(text, e) || (0 <= e < |text| && IsSymbol(text[e]) && text[e] != '<' && text[e] != '>')
    ensures 0 <= s <= |text| && Yields(ExecAt(text, s), Fits(part), c, e) && (Fits(part) ==> Named(text, c) == part)
    decreases t, 0
  {
    assert Stops(text, e);
    c := BareBlockParses(text, s, part, e);
  }

  lemma {:induction false} PipeParses(text: Text, s: int, t: Tree, end: int) returns (c: Cmd)
    requires t.Pipe? && Printable(t) && Occurs(text, s, LineText(t)) && end == s + |LineText(t)| && Closes(text, end)
    ensures 0 <= s <= |text| && Yields(LineAt(text, s), Fits(t), c, end) && (Fits(t) ==> Named(text, c) == t)
    decreases t, 1
  {
    var e := s + |BlockText(t.left)|;
    TwoBlocks(text, s, t.left, '|', t.right, e);
    var l := PartParses(text, s, t.left, e, t);
    var r := PartParses(text, e + 1, t.right, end, t);
    PipeYields(text, s, e, end, l, r, Fits(t.left), Fits(t.right));
    c := Pipe(l, r);
  }

  lemma {:induction false} ListParses(text: Text, s: int, t: Tree, end: int) returns (c: Cmd)
    requires t.List? && Printable(t) && Occurs(text, s, LineText(t)) && end == s + |LineText(t)| && Closes(text, end)
    ensures 0 <= s <= |text| && Yields(LineAt(text, s), Fits(t), c, end) && (Fits(t) ==> Named(text, c) == t)
    decreases t, 1
  {
    var e := s + |BlockText(t.left)|;
    TwoBlocks(text, s, t.left, ';', t.right, e);
    var l := PartParses(text, s, t.left, e, t);
    var r := PartParses(text, e + 1, t.right, end, t);
    ListYields(text, s, e, end, l, r, Fits(t.left), Fits(t.right));
    c := List(l, r);
  }

  lemma {:induction false} BackParses(text: Text, s: int, t: Tree, end: int) returns (c: Cmd)
    requires t.Back? && Printable(t) && Occurs(text, s, LineText(t)) && end == s + |LineText(t)| && Closes(text, end)
    ensures 0 <= s <= |text| && Yields(LineAt(text, s), Fits(t), c, end) && (Fits(t) ==> Named(text, c) == t)
    decreases t, 1
  {
    var e := end - 1;
    OccursParts(text, s, BlockText(t.cmd), "&");
    OccursAt(text, e, "&", 0);
    var b := BareBlockParses(text, s, t.cmd, e);
    BackYields(text, s, e, b, Fits(t.cmd));
    c := Back(b);
  }

  // A block, a symbol and a file name.
  lemma {:induction false} BlockAndFile(text: Text, s: int, u: string, symbol: char, file: string, e: int, end: int)
    requires Occurs(text, s, u + [symbol] + file) && e == s + |u| && end == s + |u + [symbol] + file|
    ensures Occurs(text, s, u) && 0 <= e < |text| && text[e] == symbol && Occurs(text, e + 1, file)
    ensures end == e + 1 + |file|
  {
    OccursParts(text, s, u + [symbol], file);
    OccursParts(text, s, u, [symbol]);
    OccursAt(text, e, [symbol], 0);
  }

  lemma {:induction false} RedirParses(text: Text, s: int, t: Tree, end: int) returns (c: Cmd)
    requires t.Redir? && Printable(t) && Occurs(text, s, LineText(t)) && end == s + |LineText(t)| && Closes(text, end)
    ensures 0 <= s <= |text| && Yields(LineAt(text, s), Fits(t), c, end) && (Fits(t) ==> Named(text, c) == t)
    decreases t, 1
  {
    var symbol, e := if t.fd == 0 then '<' else '>', s + |BlockText(t.cmd)|;
    assert LineText(t) == BlockText(t.cmd) + [symbol] + t.file;
    BlockAndFile(text, s, BlockText(t.cmd), symbol, t.file, e, end);
    var b := BlockParses(text, s, t.cmd, e);
    RedirLine(text, e, symbol, t.file, end, b);
    c := Redirected(b, Symbol(symbol), Span(e + 1, end));
    RedirYields(text, s, e, b, Fits(t.cmd), c, end);
  }

  // ----- The round trip -----

  lemma {:induction false} NoNul(t: Tree)
    requires Printable(t)
    ensures NulFree(LineText(t))
  {
    match t
    case Exec(ws) => JoinedNoNul(ws, 0);
    case Redir(inner, file, _, fd) => NoNul(inner); FileNoNul(inner, if fd == 0 then "<" else ">", file);
    case Pipe(left, right) => NoNul(left); NoNul(right); BothNoNul(left, "|", right);
    case List(left, right) => NoNul(left); NoNul(right); BothNoNul(left, ";", right);
    case Back(inner) => NoNul(inner);
  }

  predicate NulFree(u: string) {
    forall i :: 0 <= i < |u| ==> u[i] != '\0'
  }

  lemma {:induction false} BothNoNul(left: Tree, symbol: string, right: Tree)
    requires NulFree(LineText(left)) && NulFree(LineText(right)) && NulFree(symbol)
    ensures NulFree(BlockText(left) + symbol + BlockText(right))
  {
    var u, v := LineText(left), LineText(right);
    assert NulFree("(" + u + ")") && NulFree("(" + v + ")");
  }

  lemma {:induction false} FileNoNul(inner: Tree, symbol: string, file: string)
    requires NulFree(LineText(inner)) && NulFree(symbol) && PlainWord(file)
    ensures NulFree(BlockText(inner) + symbol + file)
  {
    var u := LineText(inner);
    assert NulFree("(" + u + ")") && NulFree(file);
  }

  lemma {:induction false} JoinedNoNul(ws: seq<string>, i: int)
    requires AllPlain(ws) && 0 <= i <= |ws|
    ensures NulFree(Joined(ws, i))
    decreases |ws| - i
  {
    if i < |ws| {
      assert PlainWord(ws[i]);
      JoinedNoNul(ws, i + 1);
    }
  }

  // A printed command is read back as it was, if and only if no part of it has too many arguments.
  lemma {:induction false} RoundTrip(t: Tree)
    requires Printable(t)
    ensures '\0' !in LineText(t)
    ensures var r := Parse(LineText(t));
            if Fits(t) then r.Ok? && Named(LineText(t), r.cmd) == t else r == Failed(TooManyArgs)
  {
    NoNul(t);
    var text: Text := LineText(t);
    assert forall i :: 0 <= i < |text| ==> Here(text, 0, text, i);
    var c := LineParses(text, 0, t, |text|);
  }

  // ----- The other way round -----

  lemma {:induction false} WordIsPlain(text: Text, w: Span)
    requires WordOk(text, w)
    ensures PlainWord(Name(text, w))
  {
    var u := text[w.q..w.eq];
    forall i | 0 <= i < |u| ensures IsPlain(u[i]) { assert u[i] == text[w.q + i]; }
  }

  // What the parser makes of a text can be printed, and fits.
  lemma {:induction false} ParsedIsPrintable(text: Text, c: Cmd)
    requires WordsOk(text, c)
    ensures Printable(Named(text, c)) && Fits(Named(text, c))
  {
    match c
    case Exec(argv) =>
      forall i | 0 <= i < |argv| ensures PlainWord(Names(text, argv)[i]) { WordIsPlain(text, argv[i]); }
    case Redir(inner, file, _, _) => ParsedIsPrintable(text, inner); WordIsPlain(text, file);
    case Pipe(left, right) => ParsedIsPrintable(text, left); ParsedIsPrintable(text, right);
    case List(left, right) => ParsedIsPrintable(text, left); ParsedIsPrintable(text, right);
    case Back(inner) => ParsedIsPrintable(text, inner);
  }

  // Every text that parses means the same command as its printed form.
  lemma {:induction false} PrintedAgain(text: Text)
    requires Parse(text).Ok?
    ensures var t := Named(text, Parse(text).cmd);
            && Printable(t) && '\0' !in LineText(t)
            && var r := Parse(LineText(t)); r.Ok? && Named(LineText(t), r.cmd) == t
  {
    LineOk(text, 0);
    ParsedIsPrintable(text, Parse(text).cmd);
    RoundTrip(Named(text, Parse(text).cmd));
  }
}

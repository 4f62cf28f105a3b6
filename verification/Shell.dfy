/**
 The parser of the shell. It leaves pointers into its input and then cuts the words out of the
 input by writing NULs over what follows them.
 */
module ShellGrammar {

  const MAXARGS: nat := 10

  // A NUL follows the text, and no character class contains it.
  predicate IsWhite(c: char) {
    c == ' ' || c == '\t' || c == '\r' || c == '\n' || c as int == 11
  }

  predicate IsSymbol(c: char) {
    c == '<' || c == '|' || c == '>' || c == '&' || c == ';' || c == '(' || c == ')'
  }

  predicate IsPlain(c: char) {
    !IsWhite(c) && !IsSymbol(c) && c != '\0'
  }

  // A C string in memory.
  type Text = s: string | '\0' !in s

  // A word of the text, by its ends.
  datatype Span = Span(q: int, eq: int)

  // Commands over words W: spans while parsing, strings once the words are cut out.
  datatype Command<W> =
    | Exec(argv: seq<W>)
    | Redir(cmd: Command<W>, file: W, mode: int, fd: int)
    | Pipe(left: Command<W>, right: Command<W>)
    | List(left: Command<W>, right: Command<W>)
    | Back(cmd: Command<W>)

  type Cmd = Command<Span>

  datatype Panic = Syntax | MissingFile | MissingParen | TooManyArgs

  datatype Parsed = Ok(cmd: Cmd, s: int) | Failed(panic: Panic)

  const O_RDONLY := 0
  const O_WRONLY_CREATE := 0x201

  // ----- Tokens -----

  function SkipWhite(text: Text, s: int): (r: int)
    requires 0 <= s <= |text|
    ensures s <= r <= |text| && (r < |text| ==> !IsWhite(text[r]))
    ensures forall k :: s <= k < r ==> IsWhite(text[k])
    decreases |text| - s
  {
    if s < |text| && IsWhite(text[s]) then SkipWhite(text, s + 1) else s
  }

  function WordEnd(text: Text, s: int): (r: int)
    requires 0 <= s <= |text|
    ensures s <= r <= |text| && (r < |text| ==> !IsPlain(text[r]))
    ensures forall k :: s <= k < r ==> IsPlain(text[k])
    decreases |text| - s
  {
    if s < |text| && IsPlain(text[s]) then WordEnd(text, s + 1) else s
  }

  // What gettoken() returns, which word it found and where it stops.
  datatype Token = End | Symbol(c: char) | Append | Word

  function TokenAt(text: Text, s: int): (t: Token)
    requires 0 <= s <= |text|
  {
    var q := SkipWhite(text, s);
    if q == |text| then End
    else if text[q] == '>' && q + 1 < |text| && text[q + 1] == '>' then Append
    else if IsSymbol(text[q]) then Symbol(text[q])
    else Word
  }

  function SpanAt(text: Text, s: int): (w: Span)
    requires 0 <= s <= |text|
    ensures s <= w.q <= w.eq <= |text| && (TokenAt(text, s) != End ==> w.q < w.eq)
    ensures TokenAt(text, s) == Word ==> w.eq == WordEnd(text, w.q)
  {
    var q := SkipWhite(text, s);
    match TokenAt(text, s)
    case End => Span(q, q)
    case Symbol(_) => Span(q, q + 1)
    case Append => Span(q, q + 2)
    case Word => Span(q, WordEnd(text, q))
  }

  function After(text: Text, s: int): (r: int)
    requires 0 <= s <= |text|
    ensures s <= r <= |text| && (TokenAt(text, s) != End ==> s < r)
  {
    SkipWhite(text, SpanAt(text, s).eq)
  }

  // peek(), which also skips white space.
  predicate Sees(text: Text, s: int, toks: string)
    requires 0 <= s <= |text|
    ensures Sees(text, s, toks) ==> TokenAt(text, s) != End
  {
    var q := SkipWhite(text, s);
    q < |text| && text[q] in toks
  }

  // ----- The grammar -----

  // A word is added to the command the redirections apply to.
  function WithArg(c: Cmd, w: Span): (r: Cmd) {
    match c
    case Exec(argv) => Exec(argv + [w])
    case Redir(inner, file, mode, fd) => Redir(WithArg(inner, w), file, mode, fd)
    case Pipe(_, _) => c
    case List(_, _) => c
    case Back(_) => c
  }

  predicate InText(text: Text, r: Parsed, s: int) {
    r.Ok? ==> s <= r.s <= |text|
  }

  // parseredirs()
  function RedirsAt(text: Text, c: Cmd, s: int): (r: Parsed)
    requires 0 <= s <= |text|
    ensures InText(text, r, s)
    decreases |text| - s
  {
    var q := SkipWhite(text, s);
    if !Sees(text, s, "<>") then Ok(c, q)
    else
      var file := After(text, q);
      if TokenAt(text, file) != Word then Failed(MissingFile)
      else RedirsAt(text, Redirected(c, TokenAt(text, q), SpanAt(text, file)), After(text, file))
  }

  function Redirected(c: Cmd, t: Token, file: Span): (r: Cmd) {
    if t == Symbol('<') then Redir(c, file, O_RDONLY, 0) else Redir(c, file, O_WRONLY_CREATE, 1)
  }

  // The loop of parseexec().
  function ArgsAt(text: Text, c: Cmd, argc: int, s: int): (r: Parsed)
    requires 0 <= s <= |text|
    ensures InText(text, r, s)
    decreases |text| - s
  {
    var q := SkipWhite(text, s);
    if Sees(text, s, "|)&;") then Ok(c, q)
    else if TokenAt(text, q) == End then Ok(c, After(text, q))
    else if TokenAt(text, q) != Word then Failed(Syntax)
    else if argc + 1 >= MAXARGS then Failed(TooManyArgs)
    else
      var r := RedirsAt(text, WithArg(c, SpanAt(text, q)), After(text, q));
      if r.Failed? then r else ArgsAt(text, r.cmd, argc + 1, r.s)
  }

  // parseexec()
  function ExecAt(text: Text, s: int): (r: Parsed)
    requires 0 <= s <= |text|
    ensures InText(text, r, s)
    decreases |text| - s, 1
  {
    var q := SkipWhite(text, s);
    if Sees(text, s, "(") then BlockAt(text, q)
    else
      var r := RedirsAt(text, Exec([]), q);
      if r.Failed? then r else ArgsAt(text, r.cmd, 0, r.s)
  }

  // parseblock() at a parenthesis
  function BlockAt(text: Text, s: int): (r: Parsed)
    requires 0 <= s <= |text| && Sees(text, s, "(")
    ensures InText(text, r, s)
    decreases |text| - s, 0
  {
    var r := LineAt(text, After(text, SkipWhite(text, s)));
    if r.Failed? then r
    else if !Sees(text, r.s, ")") then Failed(MissingParen)
    else RedirsAt(text, r.cmd, After(text, SkipWhite(text, r.s)))
  }

  // parsepipe()
  function PipeAt(text: Text, s: int): (r: Parsed)
    requires 0 <= s <= |text|
    ensures InText(text, r, s)
    decreases |text| - s, 2
  {
    var left := ExecAt(text, s);
    if left.Failed? then left
    else
      var q := SkipWhite(text, left.s);
      if !Sees(text, left.s, "|") then Ok(left.cmd, q)
      else
        var right := PipeAt(text, After(text, q));
        if right.Failed? then right else Ok(Pipe(left.cmd, right.cmd), right.s)
  }

  // The loop of parseline().
  function BacksAt(text: Text, c: Cmd, s: int): (r: Parsed)
    requires 0 <= s <= |text|
    ensures r.Ok? && InText(text, r, s)
    decreases |text| - s
  {
    var q := SkipWhite(text, s);
    if !Sees(text, s, "&") then Ok(c, q) else BacksAt(text, Back(c), After(text, q))
  }

  // parseline()
  function LineAt(text: Text, s: int): (r: Parsed)
    requires 0 <= s <= |text|
    ensures InText(text, r, s)
    decreases |text| - s, 3
  {
    var first := PipeAt(text, s);
    if first.Failed? then first
    else
      var left := BacksAt(text, first.cmd, first.s);
      var q := SkipWhite(text, left.s);
      if !Sees(text, left.s, ";") then Ok(left.cmd, q)
      else
        var right := LineAt(text, After(text, q));
        if right.Failed? then right else Ok(List(left.cmd, right.cmd), right.s)
  }

  // parsecmd() up to nulterminate()
  function Parse(text: Text): (r: Parsed) {
    var r := LineAt(text, 0);
    if r.Ok? && SkipWhite(text, r.s) != |text| then Failed(Syntax) else r
  }

  // ----- Words -----

  // A longest stretch of plain characters.
  ghost predicate WordOk(text: Text, w: Span) {
    && 0 <= w.q < w.eq <= |text| && (forall k :: w.q <= k < w.eq ==> IsPlain(text[k]))
    && (w.eq < |text| ==> !IsPlain(text[w.eq]))
  }

  // How a file is opened, and for which descriptor.
  predicate RedirOk(mode: int, fd: int) {
    (mode == O_RDONLY && fd == 0) || (mode == O_WRONLY_CREATE && fd == 1)
  }

  // Every word of a command is one of the text, and each command has room for a final null pointer.
  ghost predicate WordsOk(text: Text, c: Cmd) {
    match c
    case Exec(argv) => |argv| < MAXARGS && forall i :: 0 <= i < |argv| ==> WordOk(text, argv[i])
    case Redir(inner, file, mode, fd) => WordsOk(text, inner) && WordOk(text, file) && RedirOk(mode, fd)
    case Pipe(left, right) => WordsOk(text, left) && WordsOk(text, right)
    case List(left, right) => WordsOk(text, left) && WordsOk(text, right)
    case Back(inner) => WordsOk(text, inner)
  }

  // So are the words of the command that was parsed, if one was.
  ghost predicate ResultOk(text: Text, r: Parsed) {
    match r
    case Ok(cmd, _) => WordsOk(text, cmd)
    case Failed(_) => true
  }

  // Arguments of the command that redirections apply to.
  function Argc(c: Cmd): (n: int) {
    match c
    case Exec(argv) => |argv|
    case Redir(inner, _, _, _) => Argc(inner)
    case Pipe(_, _) => 0
    case List(_, _) => 0
    case Back(_) => 0
  }

  lemma {:induction false} TokenOk(text: Text, s: int)
    requires 0 <= s <= |text| && TokenAt(text, s) == Word
    ensures WordOk(text, SpanAt(text, s))
  {
    var q := SkipWhite(text, s);
    assert text[q] in text;
  }

  lemma {:induction false} WithArgOk(text: Text, c: Cmd, w: Span)
    requires WordsOk(text, c) && WordOk(text, w) && Argc(c) + 1 < MAXARGS
    ensures WordsOk(text, WithArg(c, w)) && Argc(WithArg(c, w)) <= Argc(c) + 1
  {
    if c.Redir? { WithArgOk(text, c.cmd, w); }
  }

  lemma {:induction false} RedirsOk(text: Text, c: Cmd, s: int)
    requires 0 <= s <= |text| && WordsOk(text, c)
    ensures var r := RedirsAt(text, c, s); r.Ok? ==> WordsOk(text, r.cmd) && Argc(r.cmd) == Argc(c)
    decreases |text| - s
  {
    if Sees(text, s, "<>") {
      var q := SkipWhite(text, s);
      var file := After(text, q);
      if TokenAt(text, file) == Word {
        TokenOk(text, file);
        RedirsOk(text, Redirected(c, TokenAt(text, q), SpanAt(text, file)), After(text, file));
      }
    }
  }

  // One more argument and the redirections behind it.
  lemma {:induction false} ArgOk(text: Text, c: Cmd, argc: int, q: int)
    requires 0 <= q <= |text| && WordsOk(text, c) && Argc(c) <= argc && TokenAt(text, q) == Word && argc + 1 < MAXARGS
    ensures var r := RedirsAt(text, WithArg(c, SpanAt(text, q)), After(text, q));
            r.Ok? ==> WordsOk(text, r.cmd) && Argc(r.cmd) <= argc + 1
  {
    TokenOk(text, q);
    WithArgOk(text, c, SpanAt(text, q));
    RedirsOk(text, WithArg(c, SpanAt(text, q)), After(text, q));
  }

  // The command is complete or there is an error, or else the next argument is read.
  predicate ArgsEnd(text: Text, argc: int, s: int)
    requires 0 <= s <= |text|
  {
    Sees(text, s, "|)&;") || TokenAt(text, SkipWhite(text, s)) != Word || argc + 1 >= MAXARGS
  }

  lemma {:induction false} ArgsStop(text: Text, c: Cmd, argc: int, s: int, r: Parsed)
    requires 0 <= s <= |text| && r == ArgsAt(text, c, argc, s) && ArgsEnd(text, argc, s)
    ensures r.Ok? ==> r.cmd == c
  {
  }

  lemma {:induction false} ArgsGoOn(text: Text, c: Cmd, argc: int, s: int, r: Parsed) returns (next: Parsed)
    requires 0 <= s <= |text| && r == ArgsAt(text, c, argc, s) && !ArgsEnd(text, argc, s)
    requires WordsOk(text, c) && Argc(c) <= argc
    ensures next.Ok? ==>
              && s < next.s <= |text| && r == ArgsAt(text, next.cmd, argc + 1, next.s)
              && WordsOk(text, next.cmd) && Argc(next.cmd) <= argc + 1
    ensures next.Failed? ==> r.Failed?
  {
    var q := SkipWhite(text, s);
    ArgOk(text, c, argc, q);
    next := RedirsAt(text, WithArg(c, SpanAt(text, q)), After(text, q));
  }

  lemma {:induction false} ArgsOk(text: Text, c: Cmd, argc: int, s: int, r: Parsed)
    requires 0 <= s <= |text| && WordsOk(text, c) && Argc(c) <= argc && r == ArgsAt(text, c, argc, s)
    ensures ResultOk(text, r)
    decreases |text| - s
  {
    if ArgsEnd(text, argc, s) {
      ArgsStop(text, c, argc, s, r);
    } else {
      var next := ArgsGoOn(text, c, argc, s, r);
      if next.Ok? { ArgsOk(text, next.cmd, argc + 1, next.s, r); }
    }
  }

  lemma {:induction false} ExecOk(text: Text, s: int)
    requires 0 <= s <= |text|
    ensures ResultOk(text, ExecAt(text, s))
    decreases |text| - s, 1
  {
    var q := SkipWhite(text, s);
    if Sees(text, s, "(") {
      var start := After(text, SkipWhite(text, q));
      LineOk(text, start);
      var r := LineAt(text, start);
      if r.Ok? && Sees(text, r.s, ")") { RedirsOk(text, r.cmd, After(text, SkipWhite(text, r.s))); }
    } else {
      RedirsOk(text, Exec([]), q);
      var r := RedirsAt(text, Exec([]), q);
      if r.Ok? { ArgsOk(text, r.cmd, 0, r.s, ArgsAt(text, r.cmd, 0, r.s)); }
    }
  }

  lemma {:induction false} PipeOk(text: Text, s: int)
    requires 0 <= s <= |text|
    ensures ResultOk(text, PipeAt(text, s))
    decreases |text| - s, 2
  {
    ExecOk(text, s);
    var left := ExecAt(text, s);
    if left.Ok? && Sees(text, left.s, "|") { PipeOk(text, After(text, SkipWhite(text, left.s))); }
  }

  lemma {:induction false} BacksOk(text: Text, c: Cmd, s: int)
    requires 0 <= s <= |text| && WordsOk(text, c)
    ensures WordsOk(text, BacksAt(text, c, s).cmd)
    decreases |text| - s
  {
    if Sees(text, s, "&") { BacksOk(text, Back(c), After(text, SkipWhite(text, s))); }
  }

  // Whatever the text, the words found are longest ones.
  lemma {:induction false} LineOk(text: Text, s: int)
    requires 0 <= s <= |text|
    ensures ResultOk(text, LineAt(text, s))
    decreases |text| - s, 3
  {
    PipeOk(text, s);
    var first := PipeAt(text, s);
    if first.Ok? {
      BacksOk(text, first.cmd, first.s);
      var left := BacksAt(text, first.cmd, first.s);
      if Sees(text, left.s, ";") { LineOk(text, After(text, SkipWhite(text, left.s))); }
    }
  }

  // ----- Cutting the words out -----

  function Words(c: Cmd): (s: set<Span>) {
    match c
    case Exec(argv) => set i | 0 <= i < |argv| :: argv[i]
    case Redir(inner, file, _, _) => Words(inner) + {file}
    case Pipe(left, right) => Words(left) + Words(right)
    case List(left, right) => Words(left) + Words(right)
    case Back(inner) => Words(inner)
  }

  // Some word of c ends at k.
  ghost predicate EndsAt(c: Cmd, k: int) {
    exists w :: w in Words(c) && w.eq == k
  }

  lemma {:induction false} AllWordsOk(text: Text, c: Cmd, w: Span)
    requires WordsOk(text, c) && w in Words(c)
    ensures WordOk(text, w)
  {
    match c
    case Exec(_) =>
    case Redir(inner, file, _, _) => if w != file { AllWordsOk(text, inner, w); }
    case Pipe(left, right) => if w in Words(left) { AllWordsOk(text, left, w); } else { AllWordsOk(text, right, w); }
    case List(left, right) => if w in Words(left) { AllWordsOk(text, left, w); } else { AllWordsOk(text, right, w); }
    case Back(inner) => AllWordsOk(text, inner, w);
  }

  // The C string at q.
  function CString(buf: string, q: int): (w: string)
    requires 0 <= q <= |buf|
    decreases |buf| - q
  {
    if q == |buf| || buf[q] == '\0' then "" else [buf[q]] + CString(buf, q + 1)
  }

  lemma {:induction false} CStringIs(buf: string, q: int, eq: int)
    requires 0 <= q <= eq < |buf| && buf[eq] == '\0' && forall k :: q <= k < eq ==> buf[k] != '\0'
    ensures CString(buf, q) == buf[q..eq]
    decreases eq - q
  {
    if q < eq { CStringIs(buf, q + 1, eq); }
  }

  // The text and its NUL, with NULs written at the ends of the words of c.
  ghost predicate CutAt(text: Text, c: Cmd, buf: string) {
    && |buf| == |text| + 1 && buf[|text|] == '\0'
    && forall k :: 0 <= k < |text| ==> buf[k] == if EndsAt(c, k) then '\0' else text[k]
  }

  // No NUL lands inside a word, so every word is a C string.
  lemma {:induction false} WordsAreCut(text: Text, c: Cmd, buf: string, w: Span)
    requires WordsOk(text, c) && CutAt(text, c, buf) && w in Words(c)
    ensures 0 <= w.q <= w.eq <= |text| && CString(buf, w.q) == text[w.q..w.eq]
  {
    AllWordsOk(text, c, w);
    forall k | w.q <= k < w.eq ensures buf[k] == text[k] && text[k] != '\0' {
      if EndsAt(c, k) {
        var v :| v in Words(c) && v.eq == k;
        AllWordsOk(text, c, v);
        assert false;
      }
    }
    CStringIs(buf, w.q, w.eq);
  }
}

/**
 The parser as it is written: a cursor that moves over the text, and loops.
 */
module Shell {
  import opened ShellGrammar

  method Skip(text: Text, s: int) returns (s': int)
    requires 0 <= s <= |text|
    ensures s' == SkipWhite(text, s)
  {
    s' := s;
    while s' < |text| && IsWhite(text[s'])
      invariant s <= s' <= |text| && SkipWhite(text, s') == SkipWhite(text, s)
    {
      s' := s' + 1;
    }
  }

  method GetToken(text: Text, s: int) returns (t: Token, w: Span, s': int)
    requires 0 <= s <= |text|
    ensures t == TokenAt(text, s) && w == SpanAt(text, s) && s' == After(text, s)
  {
    s' := Skip(text, s);
    var q := s';
    if s' == |text| {
      t := End;
    } else if text[s'] == '>' {
      t := Symbol('>');
      s' := s' + 1;
      if s' < |text| && text[s'] == '>' {
        t := Append;
        s' := s' + 1;
      }
    } else if IsSymbol(text[s']) {
      t := Symbol(text[s']);
      s' := s' + 1;
    } else {
      t := Word;
      while s' < |text| && !IsWhite(text[s']) && !IsSymbol(text[s'])
        invariant q <= s' <= |text| && WordEnd(text, s') == WordEnd(text, q)
      {
        assert text[s'] in text;
        s' := s' + 1;
      }
      assert s' < |text| ==> text[s'] in text;
    }
    w := Span(q, s');
    s' := Skip(text, s');
  }

  method Peek(text: Text, s: int, toks: string) returns (found: bool, s': int)
    requires 0 <= s <= |text|
    ensures found == Sees(text, s, toks) && s' == SkipWhite(text, s)
  {
    s' := Skip(text, s);
    found := s' < |text| && text[s'] in toks;
  }

  method ParseRedirs(text: Text, c: Cmd, s: int) returns (r: Parsed)
    requires 0 <= s <= |text|
    ensures r == RedirsAt(text, c, s)
  {
    var cmd, at := c, s;
    while true
      invariant 0 <= at <= |text| && RedirsAt(text, cmd, at) == RedirsAt(text, c, s)
      decreases |text| - at
    {
      var found, tok, word, kind, file;
      found, at := Peek(text, at, "<>");
      if !found { return Ok(cmd, at); }
      tok, word, at := GetToken(text, at);
      kind, file, at := GetToken(text, at);
      if kind != Word { return Failed(MissingFile); }
      cmd := if tok == Symbol('<') then Redir(cmd, file, O_RDONLY, 0) else Redir(cmd, file, O_WRONLY_CREATE, 1);
    }
  }

  method ParseExec(text: Text, s: int) returns (r: Parsed)
    requires 0 <= s <= |text|
    ensures r == ExecAt(text, s)
    decreases |text| - s, 1
  {
    var found, at := Peek(text, s, "(");
    if found {
      r := ParseBlock(text, at);
      return;
    }
    r := ParseRedirs(text, Exec([]), at);
    if r.Failed? { return; }
    var ret, argc := r.cmd, 0;
    at := r.s;
    ghost var goal := ArgsAt(text, ret, 0, at);
    while true
      invariant 0 <= at <= |text| && ArgsAt(text, ret, argc, at) == goal
      decreases |text| - at
    {
      found, at := Peek(text, at, "|)&;");
      if found { break; }
      var tok, word;
      tok, word, at := GetToken(text, at);
      if tok == End { break; }
      if tok != Word { return Failed(Syntax); }
      ret := WithArg(ret, word);
      argc := argc + 1;
      if argc >= MAXARGS { return Failed(TooManyArgs); }
      r := ParseRedirs(text, ret, at);
      if r.Failed? { return; }
      ret, at := r.cmd, r.s;
    }
    return Ok(ret, at);
  }

  method ParseBlock(text: Text, s: int) returns (r: Parsed)
    requires 0 <= s <= |text| && Sees(text, s, "(")
    ensures r == BlockAt(text, s)
    decreases |text| - s, 0
  {
    var found, tok, word, at := false, End, Span(0, 0), s;
    found, at := Peek(text, at, "(");
    tok, word, at := GetToken(text, at);
    r := ParseLine(text, at);
    if r.Failed? { return; }
    found, at := Peek(text, r.s, ")");
    if !found { return Failed(MissingParen); }
    tok, word, at := GetToken(text, at);
    r := ParseRedirs(text, r.cmd, at);
  }

  method ParsePipe(text: Text, s: int) returns (r: Parsed)
    requires 0 <= s <= |text|
    ensures r == PipeAt(text, s)
    decreases |text| - s, 2
  {
    var left := ParseExec(text, s);
    if left.Failed? { return left; }
    var found, at := Peek(text, left.s, "|");
    if !found { return Ok(left.cmd, at); }
    var tok, word;
    tok, word, at := GetToken(text, at);
    r := ParsePipe(text, at);
    if r.Ok? { r := Ok(Pipe(left.cmd, r.cmd), r.s); }
  }

  method ParseLine(text: Text, s: int) returns (r: Parsed)
    requires 0 <= s <= |text|
    ensures r == LineAt(text, s)
    decreases |text| - s, 3
  {
    r := ParsePipe(text, s);
    if r.Failed? { return; }
    var cmd, at := r.cmd, r.s;
    var found, tok, word;
    ghost var goal := BacksAt(text, cmd, at);
    while true
      invariant s <= at <= |text| && BacksAt(text, cmd, at) == goal
      decreases |text| - at
    {
      found, at := Peek(text, at, "&");
      if !found { break; }
      tok, word, at := GetToken(text, at);
      cmd := Back(cmd);
    }
    assert goal == Ok(cmd, at);
    found, at := Peek(text, at, ";");
    if !found { return Ok(cmd, at); }
    tok, word, at := GetToken(text, at);
    r := ParseLine(text, at);
    if r.Ok? { r := Ok(List(cmd, r.cmd), r.s); }
  }

  // NULs are written over the ends of all words.
  method NulTerminate(c: Cmd, buf: array<char>)
    requires forall w :: w in Words(c) ==> 0 <= w.eq < buf.Length
    modifies buf
    ensures forall k :: 0 <= k < buf.Length ==> buf[k] == if EndsAt(c, k) then '\0' else old(buf[k])
    decreases c
  {
    match c {
      case Exec(argv) =>
        var i := 0;
        while i < |argv|
          invariant 0 <= i <= |argv|
          invariant forall k :: 0 <= k < buf.Length ==> buf[k] == if EndsBefore(argv, i, k) then '\0' else old(buf[k])
        {
          assert argv[i] in Words(c);
          buf[argv[i].eq] := '\0';
          i := i + 1;
        }
        forall k ensures EndsAt(c, k) <==> EndsBefore(argv, |argv|, k) {
          if j :| 0 <= j < |argv| && argv[j].eq == k { assert argv[j] in Words(c); }
        }
      case Redir(inner, file, _, _) =>
        NulTerminate(inner, buf);
        buf[file.eq] := '\0';
        assert forall k :: EndsAt(c, k) <==> EndsAt(inner, k) || k == file.eq;
      case Pipe(left, right) =>
        NulTerminate(left, buf);
        NulTerminate(right, buf);
        assert forall k :: EndsAt(c, k) <==> EndsAt(left, k) || EndsAt(right, k);
      case List(left, right) =>
        NulTerminate(left, buf);
        NulTerminate(right, buf);
        assert forall k :: EndsAt(c, k) <==> EndsAt(left, k) || EndsAt(right, k);
      case Back(inner) =>
        NulTerminate(inner, buf);
        assert forall k :: EndsAt(c, k) <==> EndsAt(inner, k);
    }
  }

  ghost predicate EndsBefore(argv: seq<Span>, i: int, k: int)
    requires i <= |argv|
  {
    exists j :: 0 <= j < i && argv[j].eq == k
  }

  // Parse the text in buf, which a NUL follows, and cut its words out in place.
  method ParseCmd(buf: array<char>, n: int) returns (r: Parsed)
    requires 0 <= n < buf.Length && buf[n] == '\0' && '\0' !in buf[..n]
    modifies buf
    ensures r == Parse(old(buf[..n]))
    ensures r.Ok? ==>
              forall w :: w in Words(r.cmd) ==>
                0 <= w.q < w.eq <= n && CString(buf[..n + 1], w.q) == old(buf[..n])[w.q..w.eq]
    ensures r.Failed? ==> buf[..] == old(buf[..])
  {
    var text: Text := buf[..n];
    r := ParseLine(text, 0);
    if r.Failed? { return; }
    var found, at := Peek(text, r.s, "");
    if at != |text| { return Failed(Syntax); }
    LineOk(text, 0);
    forall w | w in Words(r.cmd) ensures WordOk(text, w) { AllWordsOk(text, r.cmd, w); }
    NulTerminate(r.cmd, buf);
    ghost var cut := buf[..n + 1];
    assert CutAt(text, r.cmd, cut);
    forall w | w in Words(r.cmd) ensures CString(cut, w.q) == text[w.q..w.eq] { WordsAreCut(text, r.cmd, cut, w); }
  }
}

/**
 The shell's tokeniser and parser (shell/src/parser.rs), and the round trip from a script through its
 text back to the same script.
 */
module ShellParser {
  import opened Prelude

  datatype Redirect = Inherit | File(name: string) | Append(name: string) | Fd(fd: int) | Pipe

  datatype Command = Command(argv: seq<string>, stdin: Redirect, stdout: Redirect, stderr: Redirect, bg: bool)

  type Pipeline = seq<Command>
  type Script = seq<Pipeline>

  datatype Tok = Word(text: string) | PipeTok | Semi | Amp | Redir(text: string) | Newline

  /** The variables, and which characters outside ASCII Unicode counts as letters or digits. */
  datatype Env = Env(vars: map<string, string>, letters: char -> bool)

  // ----- Character runs -----

  predicate VarChar(env: Env, c: char) {
    '0' <= c <= '9' || 'a' <= c <= 'z' || 'A' <= c <= 'Z' || c == '_' || (c as int >= 0x80 && env.letters(c))
  }

  predicate Stop(c: char) { c in " \t\n;|&" }

  /** What a reader consumed, and what is left. */
  datatype Split = Split(taken: string, rest: string)

  /** Up to a delimiter, which is consumed and dropped. */
  function Until(s: string, end: char): (r: Split)
    ensures |r.rest| <= |s|
  {
    if s == "" then Split("", "")
    else if s[0] == end then Split("", s[1..])
    else var r := Until(s[1..], end); Split([s[0]] + r.taken, r.rest)
  }

  function WordRun(s: string): (r: Split)
    ensures s == r.taken + r.rest && (r.rest == "" || Stop(r.rest[0]))
    ensures forall i :: 0 <= i < |r.taken| ==> !Stop(r.taken[i])
  {
    if s == "" || Stop(s[0]) then Split("", s)
    else var r := WordRun(s[1..]); Split([s[0]] + r.taken, r.rest)
  }

  function NameRun(env: Env, s: string): (r: Split)
    ensures s == r.taken + r.rest && (r.rest == "" || !VarChar(env, r.rest[0]))
    ensures forall i :: 0 <= i < |r.taken| ==> VarChar(env, r.taken[i])
  {
    if s == "" || !VarChar(env, s[0]) then Split("", s)
    else var r := NameRun(env, s[1..]); Split([s[0]] + r.taken, r.rest)
  }

  /** The name after a dollar sign, with or without braces. */
  function VarName(env: Env, s: string): (r: Split)
    ensures |r.rest| <= |s|
  {
    if s != "" && s[0] == '{' then Until(s[1..], '}') else NameRun(env, s)
  }

  function SkipBlanks(s: string): (r: string)
    ensures |r| <= |s| && (r == "" || (r[0] != ' ' && r[0] != '\t'))
  {
    if s != "" && (s[0] == ' ' || s[0] == '\t') then SkipBlanks(s[1..]) else s
  }

  /** The inside of double quotes, variables replaced; an unset one vanishes. */
  function Quoted(env: Env, s: string): (r: Split)
    ensures |r.rest| <= |s|
    decreases |s|
  {
    if s == "" then Split("", "")
    else if s[0] == '"' then Split("", s[1..])
    else if s[0] == '$' then
      var v := VarName(env, s[1..]);
      var r := Quoted(env, v.rest);
      Split((if v.taken in env.vars then env.vars[v.taken] else "") + r.taken, r.rest)
    else var r := Quoted(env, s[1..]); Split([s[0]] + r.taken, r.rest)
  }

  // ----- Tokens -----

  function Flush(word: string): seq<Tok> { if word == "" then [] else [Word(word)] }

  /** One turn of the loop: the tokens it adds, the input left, and the word in progress. */
  datatype Lexed = Lexed(toks: seq<Tok>, rest: string, word: string)

  function LexRedirect(s: string, word: string): (r: Lexed)
    requires s != ""
    ensures |r.rest| < |s|
  {
    var rest := s[1..];
    var double := s[0] == '>' && rest != "" && rest[0] == '>';
    var r := WordRun(SkipBlanks(if double then rest[1..] else rest));
    Lexed(Flush(word) + [Redir((if double then ">>" else [s[0]]) + r.taken)], r.rest, "")
  }

  function LexDollar(env: Env, rest: string, word: string): (r: Lexed)
    ensures |r.rest| <= |rest|
  {
    var v := VarName(env, rest);
    Lexed([], v.rest, word + if v.taken in env.vars then env.vars[v.taken] else "$" + v.taken)
  }

  function Lex(env: Env, s: string, word: string): (r: Lexed)
    requires s != ""
    ensures |r.rest| < |s| && forall i :: 0 <= i < |r.toks| && r.toks[i].Word? ==> r.toks[i].text != ""
  {
    var rest := s[1..];
    match s[0]
    case ' ' => Lexed(Flush(word), rest, "")
    case '\t' => Lexed(Flush(word), rest, "")
    case '\n' => Lexed(Flush(word) + [Newline], rest, "")
    case '|' => Lexed(Flush(word) + [PipeTok], rest, "")
    case ';' => Lexed(Flush(word) + [Semi], rest, "")
    case '&' => Lexed(Flush(word) + [Amp], rest, "")
    case '\'' => var r := Until(rest, '\''); Lexed([], r.rest, word + r.taken)
    case '"' => var r := Quoted(env, rest); Lexed([], r.rest, word + r.taken)
    case '>' => LexRedirect(s, word)
    case '<' => LexRedirect(s, word)
    case '#' => Lexed(Flush(word), Until(rest, '\n').rest, "")
    case '$' => LexDollar(env, rest, word)
    case '\\' =>
      if rest == "" then Lexed([], "", word)
      else Lexed([], rest[1..], if rest[0] == '\n' then word else word + [rest[0]])
    case c => Lexed([], rest, word + [c])
  }

  /** The tokens of `s`, with `word` already read of the word in progress. */
  function Tokens(env: Env, s: string, word: string): (ts: seq<Tok>)
    ensures forall i :: 0 <= i < |ts| && ts[i].Word? ==> ts[i].text != ""
    decreases |s|
  {
    if s == "" then Flush(word)
    else var r := Lex(env, s, word); r.toks + Tokens(env, r.rest, r.word)
  }

  lemma Shift(a: string, c: char, b: string)
    ensures a + ([c] + b) == (a + [c]) + b
  {
  }

  lemma ShiftString(a: string, b: string, c: string)
    ensures a + (b + c) == (a + b) + c
  {
  }

  /** The iterator both halves of the tokeniser consume. */
  class Chars {
    var rest: string

    constructor (s: string)
      ensures rest == s
    {
      rest := s;
    }

    method Next() returns (c: Option<char>)
      modifies this
      ensures c.None? ==> old(rest) == "" && rest == ""
      ensures c.Some? ==> old(rest) == [c.value] + rest
    {
      if rest == "" {
        return None;
      }
      c, rest := Some(rest[0]), rest[1..];
    }

    /** The two loops that take everything up to a delimiter, and the comment skip. */
    method TakeUntil(end: char) returns (taken: string)
      modifies this
      ensures Split(taken, rest) == Until(old(rest), end)
    {
      taken := "";
      while true
        invariant Until(old(rest), end) == Split(taken + Until(rest, end).taken, Until(rest, end).rest)
        decreases |rest|
      {
        var c := Next();
        if c.None? || c.value == end {
          return;
        }
        Shift(taken, c.value, Until(rest, end).taken);
        taken := taken + [c.value];
      }
    }

    method ReadVarName(env: Env) returns (name: string)
      modifies this
      ensures Split(name, rest) == VarName(env, old(rest))
    {
      hide VarChar, Until, NameRun;
      if rest != "" && rest[0] == '{' {
        rest := rest[1..];
        name := TakeUntil('}');
      } else {
        name := TakeName(env);
      }
    }

    /** The loop of `read_var_name` outside braces. */
    method TakeName(env: Env) returns (name: string)
      modifies this
      ensures Split(name, rest) == NameRun(env, old(rest))
    {
      hide VarChar;
      name := "";
      while rest != "" && VarChar(env, rest[0])
        invariant NameRun(env, old(rest)) == Split(name + NameRun(env, rest).taken, NameRun(env, rest).rest)
        decreases |rest|
      {
        Shift(name, rest[0], NameRun(env, rest[1..]).taken);
        name, rest := name + [rest[0]], rest[1..];
      }
    }

    method ReadWord() returns (w: string)
      modifies this
      ensures Split(w, rest) == WordRun(old(rest))
    {
      w := "";
      while rest != "" && !Stop(rest[0])
        invariant WordRun(old(rest)) == Split(w + WordRun(rest).taken, WordRun(rest).rest)
        decreases |rest|
      {
        Shift(w, rest[0], WordRun(rest[1..]).taken);
        w, rest := w + [rest[0]], rest[1..];
      }
    }

    method SkipSpaces()
      modifies this
      ensures rest == SkipBlanks(old(rest))
    {
      while rest != "" && (rest[0] == ' ' || rest[0] == '\t')
        invariant SkipBlanks(rest) == SkipBlanks(old(rest))
        decreases |rest|
      {
        rest := rest[1..];
      }
    }

    method TakeQuoted(env: Env) returns (taken: string)
      modifies this
      ensures Split(taken, rest) == Quoted(env, old(rest))
    {
      taken := "";
      while true
        invariant Quoted(env, old(rest)) == Split(taken + Quoted(env, rest).taken, Quoted(env, rest).rest)
        decreases |rest|
      {
        var c := Next();
        if c.None? || c.value == '"' {
          return;
        }
        if c.value == '$' {
          var name := ReadVarName(env);
          var value := if name in env.vars then env.vars[name] else "";
          ShiftString(taken, value, Quoted(env, rest).taken);
          taken := taken + value;
        } else {
          Shift(taken, c.value, Quoted(env, rest).taken);
          taken := taken + [c.value];
        }
      }
    }
  }

  /** The target of a redirection; the operator's first character is already consumed. */
  method ReadRedirect(chars: Chars, op: char, word: string) returns (toks: seq<Tok>)
    modifies chars
    ensures Lexed(toks, chars.rest, "") == LexRedirect([op] + old(chars.rest), word)
  {
    assert ([op] + chars.rest)[1..] == chars.rest;
    toks := Flush(word);
    var redir := [op];
    if op == '>' && chars.rest != "" && chars.rest[0] == '>' {
      chars.rest := chars.rest[1..];
      redir := ">>";
    }
    chars.SkipSpaces();
    var file := chars.ReadWord();
    toks := toks + [Redir(redir + file)];
  }

  /** The arms of the loop's match. */
  method LexOne(env: Env, chars: Chars, ch: char, word: string) returns (toks: seq<Tok>, word': string)
    modifies chars
    ensures Lexed(toks, chars.rest, word') == Lex(env, [ch] + old(chars.rest), word)
  {
    hide Until, Quoted, LexRedirect, VarName;
    assert ([ch] + chars.rest)[1..] == chars.rest;
    toks, word' := [], "";
    match ch
    case ' ' => toks := Flush(word);
    case '\t' => toks := Flush(word);
    case '\n' => toks := Flush(word) + [Newline];
    case '|' => toks := Flush(word) + [PipeTok];
    case ';' => toks := Flush(word) + [Semi];
    case '&' => toks := Flush(word) + [Amp];
    case '\'' =>
      var taken := chars.TakeUntil('\'');
      word' := word + taken;
    case '"' =>
      var taken := chars.TakeQuoted(env);
      word' := word + taken;
    case '>' => toks := ReadRedirect(chars, ch, word);
    case '<' => toks := ReadRedirect(chars, ch, word);
    case '#' =>
      toks := Flush(word);
      var _ := chars.TakeUntil('\n');
    case '$' =>
      var name := chars.ReadVarName(env);
      word' := word + if name in env.vars then env.vars[name] else "$" + name;
    case '\\' =>
      word' := word;
      var next := chars.Next();
      if next.Some? && next.value != '\n' {
        word' := word + [next.value];
      }
    case c => word' := word + [c];
  }

  lemma TokensStep(env: Env, s: string, word: string, before: seq<Tok>)
    requires s != ""
    ensures var r := Lex(env, s, word);
            before + Tokens(env, s, word) == before + r.toks + Tokens(env, r.rest, r.word)
  {
    hide Lex;
  }

  lemma Ends(env: Env, word: string)
    ensures Tokens(env, "", word) == Flush(word)
  {
  }

  method Tokenise(env: Env, input: string) returns (tokens: seq<Tok>)
    ensures tokens == Tokens(env, input, "")
  {
    hide Lex, Tokens, Flush;
    var chars := new Chars(input);
    var word := "";
    tokens := [];
    while true
      modifies chars
      invariant tokens + Tokens(env, chars.rest, word) == Tokens(env, input, "")
      decreases |chars.rest|
    {
      ghost var s := chars.rest;
      var ch := chars.Next();
      if ch.None? {
        break;
      }
      TokensStep(env, s, word, tokens);
      var toks;
      toks, word := LexOne(env, chars, ch.value, word);
      tokens := tokens + toks;
    }
    Ends(env, word);
    tokens := tokens + Flush(word);
  }

  // ----- The parser -----

  datatype ParseError = Empty

  datatype Building = Building(
    pipelines: Script, stages: Pipeline, argv: seq<string>,
    stdin: Redirect, stdout: Redirect, stderr: Redirect, bg: bool)

  const FRESH: Building := Building([], [], [], Inherit, Inherit, Inherit, false)

  /** `push_cmd`: without words, redirections and the background flag stay pending. */
  function PushCommand(b: Building): Building {
    if b.argv == [] then b
    else
      var c := Command(b.argv, b.stdin, b.stdout, b.stderr, b.bg);
      Building(b.pipelines, b.stages + [c], [], Inherit, Inherit, Inherit, false)
  }

  function PushPipeline(b: Building): Building {
    var c := PushCommand(b);
    if c.stages == [] then c else c.(pipelines := c.pipelines + [c.stages], stages := [])
  }

  function PipeLast(stages: Pipeline): Pipeline {
    if stages == [] then [] else stages[|stages| - 1 := Last(stages).(stdout := Pipe)]
  }

  function Take(b: Building, t: Tok): Building {
    match t
    case Word(w) => b.(argv := b.argv + [w])
    case PipeTok => var c := PushCommand(b); c.(stages := PipeLast(c.stages), stdin := Pipe)
    case Semi => PushPipeline(b)
    case Newline => PushPipeline(b)
    case Amp => PushPipeline(b.(bg := true))
    case Redir(r) =>
      if ">>" <= r then b.(stdout := Append(r[2..]))
      else if ">" <= r then b.(stdout := File(r[1..]))
      else if "<" <= r then b.(stdin := File(r[1..]))
      else b
  }

  function TakeAll(b: Building, ts: seq<Tok>): Building
    decreases |ts|
  {
    if ts == [] then b else TakeAll(Take(b, ts[0]), ts[1..])
  }

  function Parsed(ts: seq<Tok>): Result<Script, ParseError> {
    var script := PushPipeline(TakeAll(FRESH, ts)).pipelines;
    if script == [] then Err(Empty) else Ok(script)
  }

  method Parse(env: Env, input: string) returns (r: Result<Script, ParseError>)
    ensures r == Parsed(Tokens(env, input, ""))
  {
    hide Take, PushPipeline;
    var tokens := Tokenise(env, input);
    if tokens == [] {
      NoTokens();
      return Err(Empty);
    }
    var b := FRESH;
    for i := 0 to |tokens|
      invariant TakeAll(b, tokens[i..]) == TakeAll(FRESH, tokens)
    {
      assert tokens[i..][1..] == tokens[i + 1..];
      b := Take(b, tokens[i]);
    }
    b := PushPipeline(b);
    r := if b.pipelines == [] then Err(Empty) else Ok(b.pipelines);
  }

  lemma NoTokens()
    ensures Parsed([]) == Err(Empty)
  {
  }

  // ----- What every script looks like -----

  predicate WordsOk(argv: seq<string>) { argv != [] && forall i :: 0 <= i < |argv| ==> argv[i] != "" }

  predicate AllPiped(p: Pipeline, n: nat)
    requires n <= |p|
  {
    forall i :: 0 <= i < n ==> p[i].stdout == Pipe
  }

  /** Every stage but the first reads from the pipe or from a file. */
  predicate AllFed(p: Pipeline) { forall i :: 1 <= i < |p| ==> p[i].stdin != Inherit }

  /** No command ever gets its error stream redirected, or any stream to a descriptor. */
  predicate StreamsOk(stdin: Redirect, stdout: Redirect, stderr: Redirect) {
    !stdin.Fd? && !stdin.Append? && !stdout.Fd? && stderr == Inherit
  }

  predicate CommandOk(c: Command) { WordsOk(c.argv) && StreamsOk(c.stdin, c.stdout, c.stderr) }

  predicate PipelineOk(p: Pipeline) {
    p != [] && (forall i :: 0 <= i < |p| ==> CommandOk(p[i])) && AllPiped(p, |p| - 1) && AllFed(p)
  }

  predicate BuildingOk(b: Building) {
    && (forall i :: 0 <= i < |b.pipelines| ==> PipelineOk(b.pipelines[i]))
    && (forall i :: 0 <= i < |b.stages| ==> CommandOk(b.stages[i])) && AllPiped(b.stages, |b.stages|)
    && AllFed(b.stages) && (b.stages != [] ==> b.stdin != Inherit)
    && (forall i :: 0 <= i < |b.argv| ==> b.argv[i] != "") && StreamsOk(b.stdin, b.stdout, b.stderr)
  }

  lemma PushPipelineOk(b: Building)
    requires BuildingOk(b)
    ensures BuildingOk(PushPipeline(b))
  {
    hide CommandOk;
    var c := PushCommand(b);
    if b.argv != [] {
      PushedCommandOk(b);
    }
    PendingStreamsOk(b);
    if c.stages != [] {
      assert PipelineOk(c.stages);
    }
  }

  lemma PendingStreamsOk(b: Building)
    requires BuildingOk(b)
    ensures StreamsOk(PushCommand(b).stdin, PushCommand(b).stdout, PushCommand(b).stderr)
  {
  }

  lemma PushedCommandOk(b: Building)
    requires BuildingOk(b) && b.argv != []
    ensures CommandOk(Last(PushCommand(b).stages))
  {
  }

  lemma PipeOk(b: Building)
    requires BuildingOk(b)
    ensures BuildingOk(Take(b, PipeTok))
  {
    hide PipelineOk, WordsOk;
    if b.argv != [] {
      PushedCommandOk(b);
    }
  }

  lemma TakeOk(b: Building, t: Tok)
    requires BuildingOk(b) && (t.Word? ==> t.text != "")
    ensures BuildingOk(Take(b, t))
  {
    hide PipelineOk, CommandOk, PushPipeline;
    match t
    case PipeTok => PipeOk(b);
    case Semi => PushPipelineOk(b);
    case Newline => PushPipelineOk(b);
    case Amp => PushPipelineOk(b.(bg := true));
    case _ =>
  }

  lemma {:induction false} TakeAllOk(b: Building, ts: seq<Tok>)
    requires BuildingOk(b) && forall i :: 0 <= i < |ts| && ts[i].Word? ==> ts[i].text != ""
    ensures BuildingOk(TakeAll(b, ts))
    decreases |ts|
  {
    hide BuildingOk, Take;
    if ts != [] {
      TakeOk(b, ts[0]);
      TakeAllOk(Take(b, ts[0]), ts[1..]);
    }
  }

  /**
   Whatever the input: words are not empty, no error stream is redirected and no stream goes to a descriptor,
   every stage but the last writes to the pipe, every stage but the first reads from the pipe or a file.
   */
  lemma EveryScriptIsWellFormed(env: Env, input: string)
    ensures match Parsed(Tokens(env, input, ""))
            case Err(_) => true
            case Ok(script) => script != [] && forall i :: 0 <= i < |script| ==> PipelineOk(script[i])
  {
    hide PipelineOk, Tokens, TakeAll;
    var ts := Tokens(env, input, "");
    TakeAllOk(FRESH, ts);
    PushPipelineOk(TakeAll(FRESH, ts));
  }

  // ----- Writing a script down -----

  /** A newline in single quotes, any other character behind a backslash. */
  function EscapeOne(c: char): string { if c == '\n' then "'\n'" else ['\\', c] }

  function Escape(w: string): string {
    if w == "" then "" else EscapeOne(w[0]) + Escape(w[1..])
  }

  function RenderWords(argv: seq<string>): string {
    if argv == [] then "" else Escape(argv[0]) + " " + RenderWords(argv[1..])
  }

  function RenderIn(r: Redirect): string { if r.File? then "<" + r.name + " " else "" }

  function RenderOut(r: Redirect): string {
    match r
    case File(name) => ">" + name + " "
    case Append(name) => ">>" + name + " "
    case _ => ""
  }

  function RenderCommand(c: Command): string { RenderWords(c.argv) + (RenderIn(c.stdin) + RenderOut(c.stdout)) }

  function RenderPipeline(p: Pipeline): string {
    if p == [] then ""
    else if |p| == 1 then RenderCommand(p[0]) + (if p[0].bg then "&" else ";")
    else RenderCommand(p[0]) + ("|" + RenderPipeline(p[1..]))
  }

  function Render(script: Script): string {
    if script == [] then "" else RenderPipeline(script[0]) + Render(script[1..])
  }

  // ----- The scripts that can be written down -----

  predicate PlainName(n: string) { n != "" && forall i :: 0 <= i < |n| ==> !Stop(n[i]) }

  predicate InOk(r: Redirect, first: bool) {
    if r.File? then PlainName(r.name) else r == if first then Inherit else Pipe
  }

  predicate OutOk(r: Redirect, last: bool) {
    if !last then r == Pipe
    else match r
      case Inherit => true
      case File(n) => PlainName(n) && n[0] != '>'
      case Append(n) => PlainName(n)
      case _ => false
  }

  predicate CanonicalCommand(c: Command, first: bool, last: bool) {
    && c.argv != [] && (forall i :: 0 <= i < |c.argv| ==> c.argv[i] != "")
    && InOk(c.stdin, first) && OutOk(c.stdout, last) && c.stderr == Inherit && (c.bg ==> last)
  }

  predicate CanonicalStages(p: Pipeline, first: bool) {
    p != [] && CanonicalCommand(p[0], first, |p| == 1) && (|p| > 1 ==> CanonicalStages(p[1..], false))
  }

  /** Pipes between stages, background only on the last stage, redirections a reader would not misread. */
  predicate Canonical(script: Script) {
    script != [] && forall i :: 0 <= i < |script| ==> CanonicalStages(script[i], true)
  }

  // ----- Reading it back: tokens -----

  function WordToks(argv: seq<string>): seq<Tok> { seq(|argv|, i requires 0 <= i < |argv| => Word(argv[i])) }

  function InToks(r: Redirect): seq<Tok> { if r.File? then [Redir("<" + r.name)] else [] }

  function OutToks(r: Redirect): seq<Tok> {
    match r
    case File(name) => [Redir(">" + name)]
    case Append(name) => [Redir(">>" + name)]
    case _ => []
  }

  function CommandToks(c: Command): seq<Tok> { WordToks(c.argv) + (InToks(c.stdin) + OutToks(c.stdout)) }

  function PipelineToks(p: Pipeline): seq<Tok> {
    if p == [] then []
    else if |p| == 1 then CommandToks(p[0]) + [if p[0].bg then Amp else Semi]
    else CommandToks(p[0]) + ([PipeTok] + PipelineToks(p[1..]))
  }

  function ScriptToks(script: Script): seq<Tok> {
    if script == [] then [] else PipelineToks(script[0]) + ScriptToks(script[1..])
  }

  lemma OneChar(env: Env, c: char, rest: string, word: string)
    ensures Tokens(env, [c] + rest, word) ==
            var r := Lex(env, [c] + rest, word); r.toks + Tokens(env, r.rest, r.word)
    ensures ([c] + rest)[1..] == rest
  {
    hide Lex;
    assert ([c] + rest)[1..] == rest;
  }

  lemma EscapedChar(env: Env, c: char, rest: string, word: string)
    ensures Tokens(env, EscapeOne(c) + rest, word) == Tokens(env, rest, word + [c])
  {
    hide Tokens;
    if c == '\n' {
      assert EscapeOne(c) + rest == ['\''] + (['\n'] + (['\''] + rest));
      QuotedNewline(rest);
      OneChar(env, '\'', ['\n'] + (['\''] + rest), word);
    } else {
      assert EscapeOne(c) + rest == ['\\'] + ([c] + rest);
      OneChar(env, '\\', [c] + rest, word);
      assert ([c] + rest)[1..] == rest;
    }
  }

  lemma QuotedNewline(rest: string)
    ensures Until(['\n'] + (['\''] + rest), '\'') == Split("\n", rest)
  {
    var s := ['\''] + rest;
    assert s[1..] == rest && (['\n'] + s)[1..] == s;
    assert Until(s, '\'') == Split("", rest);
  }

  lemma {:induction false} EscapedWord(env: Env, w: string, rest: string, word: string)
    ensures Tokens(env, Escape(w) + rest, word) == Tokens(env, rest, word + w)
    decreases |w|
  {
    hide Tokens, EscapeOne;
    if w == "" {
      assert Escape(w) + rest == rest && word + w == word;
    } else {
      var tail := Escape(w[1..]) + rest;
      assert Escape(w) + rest == EscapeOne(w[0]) + tail;
      EscapedChar(env, w[0], tail, word);
      EscapedWord(env, w[1..], rest, word + [w[0]]);
      assert word + [w[0]] + w[1..] == word + w;
    }
  }

  lemma {:induction false} LexWords(env: Env, argv: seq<string>, rest: string)
    requires forall i :: 0 <= i < |argv| ==> argv[i] != ""
    ensures Tokens(env, RenderWords(argv) + rest, "") == WordToks(argv) + Tokens(env, rest, "")
    decreases |argv|
  {
    hide Tokens, Escape, Lex;
    if argv == [] {
      assert RenderWords(argv) + rest == rest;
      assert WordToks(argv) + Tokens(env, rest, "") == Tokens(env, rest, "");
    } else {
      var tail := RenderWords(argv[1..]) + rest;
      assert RenderWords(argv) + rest == Escape(argv[0]) + ([' '] + tail);
      EscapedWord(env, argv[0], [' '] + tail, "");
      assert "" + argv[0] == argv[0];
      SpaceFlushes(env, tail, argv[0]);
      LexWords(env, argv[1..], rest);
      assert WordToks(argv) == [Word(argv[0])] + WordToks(argv[1..]);
    }
  }

  lemma SpaceFlushes(env: Env, rest: string, word: string)
    ensures Tokens(env, [' '] + rest, word) == Flush(word) + Tokens(env, rest, "")
  {
    OneChar(env, ' ', rest, word);
  }

  /** A plain name is read exactly, up to what ends it. */
  lemma {:induction false} NameRead(n: string, rest: string)
    requires (forall i :: 0 <= i < |n| ==> !Stop(n[i])) && (rest == "" || Stop(rest[0]))
    ensures WordRun(n + rest) == Split(n, rest)
    decreases |n|
  {
    var s := n + rest;
    if n == "" {
      assert s == rest;
    } else {
      assert s[0] == n[0] && s[1..] == n[1..] + rest;
      NameRead(n[1..], rest);
    }
  }

  predicate Blanks(s: string) { forall i :: 0 <= i < |s| ==> s[i] == ' ' || s[i] == '\t' }

  lemma {:induction false} BlanksSkipped(blanks: string, n: string, rest: string)
    requires Blanks(blanks) && PlainName(n)
    ensures SkipBlanks(blanks + (n + rest)) == n + rest
    decreases |blanks|
  {
    if blanks == "" {
      assert (n + rest)[0] == n[0] && !Stop(n[0]) && blanks + (n + rest) == n + rest;
    } else {
      assert (blanks + (n + rest))[0] == blanks[0] && (blanks + (n + rest))[1..] == blanks[1..] + (n + rest);
      BlanksSkipped(blanks[1..], n, rest);
    }
  }

  predicate Operator(op: string, tail: string) {
    op == "<" || op == ">>" || (op == ">" && tail != "" && tail[0] != '>')
  }

  lemma LexRedirectRead(op: string, blanks: string, n: string, rest: string, word: string)
    requires PlainName(n) && Blanks(blanks) && Operator(op, blanks + (n + rest)) && (rest == "" || Stop(rest[0]))
    ensures LexRedirect(op + (blanks + (n + rest)), word) == Lexed(Flush(word) + [Redir(op + n)], rest, "")
  {
    hide WordRun, SkipBlanks, Stop, Flush;
    var tail := blanks + (n + rest);
    BlanksSkipped(blanks, n, rest);
    NameRead(n, rest);
    if op == ">>" {
      assert (op + tail)[1..] == ['>'] + tail && (['>'] + tail)[1..] == tail;
    } else {
      assert (op + tail)[1..] == tail && (op + tail)[0] == op[0];
    }
  }

  lemma RedirectToken(env: Env, s: string, word: string)
    requires s != "" && (s[0] == '<' || s[0] == '>')
    ensures var r := LexRedirect(s, word); Tokens(env, s, word) == r.toks + Tokens(env, r.rest, r.word)
  {
    hide LexRedirect;
  }

  /** A redirection ends the word before it; its target is the name behind the operator and any blanks. */
  lemma TargetReads(env: Env, op: string, blanks: string, n: string, rest: string, word: string)
    requires PlainName(n) && Blanks(blanks) && Operator(op, blanks + (n + rest)) && (rest == "" || Stop(rest[0]))
    ensures Tokens(env, op + (blanks + (n + rest)), word) == Flush(word) + ([Redir(op + n)] + Tokens(env, rest, ""))
  {
    hide LexRedirect, Tokens, Flush, PlainName, Stop;
    LexRedirectRead(op, blanks, n, rest, word);
    RedirectToken(env, op + (blanks + (n + rest)), word);
  }

  lemma LexTarget(env: Env, op: string, n: string, rest: string)
    requires PlainName(n) && (op == ">" ==> n[0] != '>') && (op == "<" || op == ">" || op == ">>")
    ensures Tokens(env, op + (n + ([' '] + rest)), "") == [Redir(op + n)] + Tokens(env, rest, "")
  {
    hide LexRedirect, Tokens, Flush;
    assert "" + (n + ([' '] + rest)) == n + ([' '] + rest);
    TargetReads(env, op, "", n, [' '] + rest, "");
    SpaceFlushes(env, rest, "");
    NothingToFlush();
  }

  lemma NothingToFlush()
    ensures Flush("") == []
  {
  }

  lemma LexIn(env: Env, r: Redirect, first: bool, rest: string)
    requires InOk(r, first)
    ensures Tokens(env, RenderIn(r) + rest, "") == InToks(r) + Tokens(env, rest, "")
  {
    hide Tokens;
    if r.File? {
      assert RenderIn(r) + rest == "<" + (r.name + ([' '] + rest));
      LexTarget(env, "<", r.name, rest);
    } else {
      assert RenderIn(r) + rest == rest;
      assert InToks(r) + Tokens(env, rest, "") == Tokens(env, rest, "");
    }
  }

  lemma LexOut(env: Env, r: Redirect, last: bool, rest: string)
    requires OutOk(r, last)
    ensures Tokens(env, RenderOut(r) + rest, "") == OutToks(r) + Tokens(env, rest, "")
  {
    hide Tokens, Stop;
    if r.File? {
      assert RenderOut(r) + rest == ">" + (r.name + ([' '] + rest));
      LexTarget(env, ">", r.name, rest);
    } else if r.Append? {
      assert RenderOut(r) + rest == ">>" + (r.name + ([' '] + rest));
      LexTarget(env, ">>", r.name, rest);
    } else {
      assert RenderOut(r) + rest == rest;
      assert OutToks(r) + Tokens(env, rest, "") == Tokens(env, rest, "");
    }
  }

  lemma LexCommand(env: Env, c: Command, first: bool, last: bool, rest: string)
    requires CanonicalCommand(c, first, last)
    ensures Tokens(env, RenderCommand(c) + rest, "") == CommandToks(c) + Tokens(env, rest, "")
  {
    hide Tokens, RenderWords, RenderIn, RenderOut, WordToks, InToks, OutToks;
    var tail := RenderOut(c.stdout) + rest;
    assert RenderCommand(c) + rest == RenderWords(c.argv) + (RenderIn(c.stdin) + tail);
    LexWords(env, c.argv, RenderIn(c.stdin) + tail);
    LexIn(env, c.stdin, first, tail);
    LexOut(env, c.stdout, last, rest);
  }

  lemma Separator(env: Env, c: char, t: Tok, rest: string)
    requires (c == '|' && t == PipeTok) || (c == ';' && t == Semi) || (c == '&' && t == Amp)
    ensures Tokens(env, [c] + rest, "") == [t] + Tokens(env, rest, "")
  {
    OneChar(env, c, rest, "");
  }

  lemma {:induction false} LexPipeline(env: Env, p: Pipeline, first: bool, rest: string)
    requires CanonicalStages(p, first)
    ensures Tokens(env, RenderPipeline(p) + rest, "") == PipelineToks(p) + Tokens(env, rest, "")
    decreases |p|
  {
    hide Tokens, RenderCommand, CommandToks, CanonicalCommand;
    var c := p[0];
    if |p| == 1 {
      var sep := if c.bg then '&' else ';';
      assert RenderPipeline(p) + rest == RenderCommand(c) + ([sep] + rest);
      LexCommand(env, c, first, true, [sep] + rest);
      Separator(env, sep, if c.bg then Amp else Semi, rest);
    } else {
      var tail := RenderPipeline(p[1..]) + rest;
      assert RenderPipeline(p) + rest == RenderCommand(c) + (['|'] + tail);
      LexCommand(env, c, first, false, ['|'] + tail);
      Separator(env, '|', PipeTok, tail);
      LexPipeline(env, p[1..], false, rest);
    }
  }

  lemma {:induction false} LexScript(env: Env, script: Script)
    requires forall i :: 0 <= i < |script| ==> CanonicalStages(script[i], true)
    ensures Tokens(env, Render(script), "") == ScriptToks(script)
    decreases |script|
  {
    hide RenderPipeline, PipelineToks, CanonicalStages, Lex;
    if script != [] {
      LexPipeline(env, script[0], true, Render(script[1..]));
      LexScript(env, script[1..]);
    }
  }

  // ----- Reading it back: commands -----

  lemma {:induction false} TakeConcat(b: Building, xs: seq<Tok>, ys: seq<Tok>)
    ensures TakeAll(b, xs + ys) == TakeAll(TakeAll(b, xs), ys)
    decreases |xs|
  {
    hide Take;
    if xs == [] {
      assert xs + ys == ys;
    } else {
      assert (xs + ys)[1..] == xs[1..] + ys;
      TakeConcat(Take(b, xs[0]), xs[1..], ys);
    }
  }

  lemma {:induction false} TakeWords(b: Building, argv: seq<string>)
    ensures TakeAll(b, WordToks(argv)) == b.(argv := b.argv + argv)
    decreases |argv|
  {
    if argv != [] {
      assert WordToks(argv)[1..] == WordToks(argv[1..]);
      TakeWords(b.(argv := b.argv + [argv[0]]), argv[1..]);
      assert b.argv + [argv[0]] + argv[1..] == b.argv + argv;
    } else {
      assert b.argv + argv == b.argv;
    }
  }

  /** Between commands: nothing pending but the pipe from the stage before. */
  function Clean(pipelines: Script, stages: Pipeline): Building {
    FRESH.(pipelines := pipelines, stages := stages, stdin := if stages == [] then Inherit else Pipe)
  }

  lemma TakeIn(b: Building, r: Redirect, first: bool)
    requires InOk(r, first) && b.stdin == (if first then Inherit else Pipe)
    ensures TakeAll(b, InToks(r)) == b.(stdin := r)
  {
    if r.File? {
      assert ("<" + r.name)[1..] == r.name && ("<" + r.name)[0] == '<';
      OneTok(b, Redir("<" + r.name));
    }
  }

  lemma TakeOut(b: Building, r: Redirect, last: bool)
    requires OutOk(r, last) && b.stdout == Inherit
    ensures TakeAll(b, OutToks(r)) == b.(stdout := if last then r else Inherit)
  {
    hide PushPipeline, PushCommand;
    if r.File? {
      assert (">" + r.name)[1..] == r.name && (">" + r.name)[1] == r.name[0];
      OneTok(b, Redir(">" + r.name));
    } else if r.Append? {
      assert (">>" + r.name)[2..] == r.name;
      OneTok(b, Redir(">>" + r.name));
    }
  }

  lemma TakeRedirects(b: Building, c: Command, first: bool, last: bool)
    requires InOk(c.stdin, first) && OutOk(c.stdout, last)
    requires b.stdin == (if first then Inherit else Pipe) && b.stdout == Inherit
    ensures TakeAll(b, InToks(c.stdin) + OutToks(c.stdout))
         == b.(stdin := c.stdin, stdout := if last then c.stdout else Inherit)
  {
    hide TakeAll, InOk, OutOk, InToks, OutToks;
    TakeConcat(b, InToks(c.stdin), OutToks(c.stdout));
    TakeIn(b, c.stdin, first);
    TakeOut(b.(stdin := c.stdin), c.stdout, last);
  }

  lemma OneTok(b: Building, t: Tok)
    ensures TakeAll(b, [t]) == Take(b, t)
  {
    hide Take;
  }

  lemma CommandBuilt(pipelines: Script, stages: Pipeline, c: Command, last: bool)
    requires CanonicalCommand(c, stages == [], last)
    ensures TakeAll(Clean(pipelines, stages), CommandToks(c))
         == Clean(pipelines, stages).(argv := c.argv, stdin := c.stdin, stdout := if last then c.stdout else Inherit)
  {
    hide Take, WordToks, InToks, OutToks, InOk, OutOk;
    var b := Clean(pipelines, stages);
    TakeConcat(b, WordToks(c.argv), InToks(c.stdin) + OutToks(c.stdout));
    TakeWords(b, c.argv);
    assert [] + c.argv == c.argv;
    TakeRedirects(b.(argv := c.argv), c, stages == [], last);
  }

  lemma {:induction false} PipelineBuilt(pipelines: Script, stages: Pipeline, p: Pipeline)
    requires CanonicalStages(p, stages == [])
    ensures TakeAll(Clean(pipelines, stages), PipelineToks(p)) == Clean(pipelines + [stages + p], [])
    decreases |p|
  {
    hide CommandToks, InOk, OutOk, TakeAll;
    var b, c := Clean(pipelines, stages), p[0];
    CommandBuilt(pipelines, stages, c, |p| == 1);
    if |p| == 1 {
      var t := if c.bg then Amp else Semi;
      TakeConcat(b, CommandToks(c), [t]);
      OneTok(TakeAll(b, CommandToks(c)), t);
      assert stages + p == stages + [c];
    } else {
      StageEnds(pipelines, stages, c);
      TakeConcat(b, CommandToks(c), [PipeTok] + PipelineToks(p[1..]));
      TakeConcat(TakeAll(b, CommandToks(c)), [PipeTok], PipelineToks(p[1..]));
      OneTok(TakeAll(b, CommandToks(c)), PipeTok);
      PipelineBuilt(pipelines, stages + [c], p[1..]);
      assert stages + [c] + p[1..] == stages + p;
    }
  }

  lemma StageEnds(pipelines: Script, stages: Pipeline, c: Command)
    requires CanonicalCommand(c, stages == [], false)
    ensures Take(Clean(pipelines, stages).(argv := c.argv, stdin := c.stdin), PipeTok) == Clean(pipelines, stages + [c])
  {
    assert PipeLast(stages + [c.(stdout := Inherit)]) == stages + [c];
  }

  lemma {:induction false} ScriptBuilt(pipelines: Script, script: Script)
    requires forall i :: 0 <= i < |script| ==> CanonicalStages(script[i], true)
    ensures TakeAll(Clean(pipelines, []), ScriptToks(script)) == Clean(pipelines + script, [])
    decreases |script|
  {
    hide PipelineToks, CanonicalStages, Take;
    if script == [] {
      assert pipelines + script == pipelines;
    } else {
      TakeConcat(Clean(pipelines, []), PipelineToks(script[0]), ScriptToks(script[1..]));
      PipelineBuilt(pipelines, [], script[0]);
      assert [] + script[0] == script[0];
      ScriptBuilt(pipelines + [script[0]], script[1..]);
      assert pipelines + [script[0]] + script[1..] == pipelines + script;
    }
  }

  /** Parsing the rendering of a canonical script returns that script, whatever the environment. */
  lemma RoundTrip(env: Env, script: Script)
    requires Canonical(script)
    ensures Parsed(Tokens(env, Render(script), "")) == Ok(script)
  {
    hide Tokens, Render, ScriptToks, CanonicalStages, TakeAll;
    LexScript(env, script);
    ScriptBuilt([], script);
    assert [] + script == script;
  }

  /** Different canonical scripts never render alike. */
  lemma RenderInjective(a: Script, b: Script)
    requires Canonical(a) && Canonical(b) && Render(a) == Render(b)
    ensures a == b
  {
    hide Tokens, Render, Canonical, Parsed;
    RoundTrip(Env(map[], _ => false), a);
    RoundTrip(Env(map[], _ => false), b);
  }

  // ----- Quotes, variables and plain characters -----

  predicate Special(c: char) { c in " \t\n|;&'\"><#$\\" }

  /** Any other character stands for itself. */
  lemma PlainCharacter(env: Env, c: char, rest: string, word: string)
    requires !Special(c)
    ensures Tokens(env, [c] + rest, word) == Tokens(env, rest, word + [c])
  {
    hide Tokens, Until, Quoted, LexRedirect, LexDollar;
    OneChar(env, c, rest, word);
  }

  /** Blanks and tabs end a word. */
  lemma BlankEndsWord(env: Env, c: char, rest: string, word: string)
    requires c == ' ' || c == '\t'
    ensures Tokens(env, [c] + rest, word) == Flush(word) + Tokens(env, rest, "")
  {
    hide Tokens, Until, Quoted, LexRedirect, LexDollar;
    OneChar(env, c, rest, word);
  }

  /** A backslash before a newline joins the lines. */
  lemma ContinuedLine(env: Env, rest: string, word: string)
    ensures Tokens(env, ['\\'] + (['\n'] + rest), word) == Tokens(env, rest, word)
  {
    hide Tokens, Until, Quoted, LexRedirect, LexDollar;
    OneChar(env, '\\', ['\n'] + rest, word);
    assert (['\n'] + rest)[1..] == rest;
  }

  /** Everything in single quotes stands for itself, dollar signs included. */
  lemma SingleQuotes(env: Env, text: string, rest: string, word: string)
    requires '\'' !in text
    ensures Tokens(env, ['\''] + (text + (['\''] + rest)), word) == Tokens(env, rest, word + text)
  {
    hide Tokens, Until, Quoted, LexRedirect, LexDollar;
    UntilEnd(text, '\'', rest);
    OneChar(env, '\'', text + (['\''] + rest), word);
  }

  /** A backslash at the very end is dropped. */
  lemma TrailingBackslash(env: Env, word: string)
    ensures Tokens(env, "\\", word) == Flush(word)
  {
    hide Tokens, Until, Quoted, LexRedirect, LexDollar;
    OneChar(env, '\\', "", word);
    assert ['\\'] + "" == "\\";
    Ends(env, word);
  }

  lemma {:induction false} UntilNothing(s: string, end: char)
    requires end !in s
    ensures Until(s, end) == Split(s, "")
  {
    if s != "" {
      UntilNothing(s[1..], end);
    }
  }

  /** A quote that is never closed reaches to the end of the input. */
  lemma UnclosedQuotes(env: Env, text: string, word: string)
    ensures '\'' !in text ==> Tokens(env, ['\''] + text, word) == Flush(word + text)
    ensures '"' !in text && '$' !in text ==> Tokens(env, ['"'] + text, word) == Flush(word + text)
  {
    hide Tokens, Until, Quoted, LexRedirect, LexDollar;
    if '\'' !in text {
      UntilNothing(text, '\'');
    }
    if '"' !in text && '$' !in text {
      QuotedText(env, text, "");
      QuotedNothing(env);
      assert text + "" == text;
    }
    OneChar(env, '\'', text, word);
    OneChar(env, '"', text, word);
    Ends(env, word + text);
  }

  lemma QuotedNothing(env: Env)
    ensures Quoted(env, "") == Split("", "")
  {
  }

  /** What a text in double quotes is made of: characters, `$name` and `${name}`. */
  datatype Piece = Plain(text: string) | Var(name: string) | Braced(name: string)

  function RenderPiece(p: Piece): string {
    match p
    case Plain(text) => text
    case Var(name) => ['$'] + name
    case Braced(name) => ['$', '{'] + name + ['}']
  }

  function RenderPieces(ps: seq<Piece>): string {
    if ps == [] then "" else RenderPiece(ps[0]) + RenderPieces(ps[1..])
  }

  /** The variable's value, nothing for an unset one. */
  function Value(env: Env, name: string): string { if name in env.vars then env.vars[name] else "" }

  function Expansion(env: Env, p: Piece): string { if p.Plain? then p.text else Value(env, p.name) }

  function Expanded(env: Env, ps: seq<Piece>): string {
    if ps == [] then "" else Expansion(env, ps[0]) + Expanded(env, ps[1..])
  }

  predicate IsName(env: Env, name: string) { forall i :: 0 <= i < |name| ==> VarChar(env, name[i]) }

  /** `next` cannot be taken for a part of the name before it. */
  predicate EndsName(env: Env, name: string, next: string) {
    next == "" || (!VarChar(env, next[0]) && (name == "" ==> next[0] != '{'))
  }

  predicate PieceOk(env: Env, p: Piece, next: string) {
    if p.Plain? then '"' !in p.text && '$' !in p.text
    else if p.Var? then IsName(env, p.name) && EndsName(env, p.name, next)
    else '}' !in p.name
  }

  predicate PiecesOk(env: Env, ps: seq<Piece>) {
    ps == [] || (PiecesOk(env, ps[1..]) && PieceOk(env, ps[0], RenderPieces(ps[1..]) + "\""))
  }

  lemma {:induction false} NameRunReads(env: Env, name: string, rest: string)
    requires IsName(env, name) && (rest == "" || !VarChar(env, rest[0]))
    ensures NameRun(env, name + rest) == Split(name, rest)
    decreases |name|
  {
    hide VarChar;
    if name == "" {
      assert name + rest == rest;
    } else {
      assert (name + rest)[0] == name[0] && (name + rest)[1..] == name[1..] + rest;
      NameRunReads(env, name[1..], rest);
    }
  }

  lemma NameReads(env: Env, name: string, rest: string)
    requires IsName(env, name) && EndsName(env, name, rest)
    ensures VarName(env, name + rest) == Split(name, rest)
  {
    hide NameRun;
    NameRunReads(env, name, rest);
    assert name == "" ==> name + rest == rest;
    assert name != "" ==> (name + rest)[0] == name[0];
  }

  lemma BracesRead(env: Env, name: string, rest: string)
    requires '}' !in name
    ensures VarName(env, ['{'] + (name + (['}'] + rest))) == Split(name, rest)
  {
    hide Until, NameRun;
    UntilEnd(name, '}', rest);
    assert (['{'] + (name + (['}'] + rest)))[1..] == name + (['}'] + rest);
  }

  lemma {:induction false} QuotedText(env: Env, text: string, rest: string)
    requires '"' !in text && '$' !in text
    ensures var r := Quoted(env, rest); Quoted(env, text + rest) == Split(text + r.taken, r.rest)
    decreases |text|
  {
    if text == "" {
      assert text + rest == rest;
    } else {
      var s := text + rest;
      assert s[0] == text[0] && s[1..] == text[1..] + rest;
      QuotedText(env, text[1..], rest);
    }
  }

  lemma QuotedDollar(env: Env, s: string)
    ensures var v := VarName(env, s);
            var r := Quoted(env, v.rest);
            Quoted(env, ['$'] + s) == Split(Value(env, v.taken) + r.taken, r.rest)
  {
    hide VarName;
    assert (['$'] + s)[1..] == s;
  }

  lemma QuotedVar(env: Env, name: string, rest: string)
    requires IsName(env, name) && EndsName(env, name, rest)
    ensures var r := Quoted(env, rest);
            Quoted(env, (['$'] + name) + rest) == Split(Value(env, name) + r.taken, r.rest)
  {
    hide Quoted, VarName, IsName, EndsName, Value;
    NameReads(env, name, rest);
    QuotedDollar(env, name + rest);
    assert (['$'] + name) + rest == ['$'] + (name + rest);
  }

  lemma QuotedBraced(env: Env, name: string, rest: string)
    requires '}' !in name
    ensures var r := Quoted(env, rest);
            Quoted(env, (['$', '{'] + name + ['}']) + rest) == Split(Value(env, name) + r.taken, r.rest)
  {
    hide Quoted, VarName, Value;
    BracesRead(env, name, rest);
    QuotedDollar(env, ['{'] + (name + (['}'] + rest)));
    assert (['$', '{'] + name + ['}']) + rest == ['$'] + (['{'] + (name + (['}'] + rest)));
  }

  lemma QuotedPiece(env: Env, p: Piece, rest: string)
    requires PieceOk(env, p, rest)
    ensures var r := Quoted(env, rest);
            Quoted(env, RenderPiece(p) + rest) == Split(Expansion(env, p) + r.taken, r.rest)
  {
    hide Quoted, IsName, EndsName, Value;
    match p
    case Plain(text) => QuotedText(env, text, rest);
    case Var(name) => QuotedVar(env, name, rest);
    case Braced(name) => QuotedBraced(env, name, rest);
  }

  lemma ClosingQuote(env: Env, rest: string)
    ensures Quoted(env, ['"'] + rest) == Split("", rest)
  {
    assert (['"'] + rest)[1..] == rest;
  }

  /** Only the first character behind a name matters. */
  lemma PieceOkMore(env: Env, p: Piece, next: string, rest: string)
    requires PieceOk(env, p, next) && next != ""
    ensures PieceOk(env, p, next + rest)
  {
    hide IsName, VarChar;
  }

  /** The inside of double quotes up to the closing one: each variable is replaced by its value. */
  lemma {:induction false} QuotedPieces(env: Env, ps: seq<Piece>, rest: string)
    requires PiecesOk(env, ps)
    ensures Quoted(env, RenderPieces(ps) + (['"'] + rest)) == Split(Expanded(env, ps), rest)
    decreases |ps|
  {
    hide PieceOk, Quoted, RenderPiece, Expansion;
    if ps == [] {
      assert RenderPieces(ps) + (['"'] + rest) == ['"'] + rest;
      ClosingQuote(env, rest);
    } else {
      var next := RenderPieces(ps[1..]) + "\"";
      QuotedPieces(env, ps[1..], rest);
      PieceOkMore(env, ps[0], next, rest);
      QuotedPiece(env, ps[0], next + rest);
      assert RenderPieces(ps[1..]) + (['"'] + rest) == next + rest;
      assert RenderPieces(ps) + (['"'] + rest) == RenderPiece(ps[0]) + (next + rest);
    }
  }

  /** A text in double quotes adds its characters and the values of its variables to the word. */
  lemma DoubleQuotes(env: Env, ps: seq<Piece>, rest: string, word: string)
    requires PiecesOk(env, ps)
    ensures Tokens(env, ['"'] + (RenderPieces(ps) + (['"'] + rest)), word)
         == Tokens(env, rest, word + Expanded(env, ps))
  {
    hide Tokens, Until, Quoted, LexRedirect, LexDollar, PiecesOk, Expanded, RenderPieces;
    QuotedPieces(env, ps, rest);
    OneChar(env, '"', RenderPieces(ps) + (['"'] + rest), word);
  }

  /** Outside quotes an unset variable keeps its dollar sign. */
  function ValueOrName(env: Env, name: string): string {
    if name in env.vars then env.vars[name] else ['$'] + name
  }

  lemma DollarReads(env: Env, s: string, word: string)
    ensures var v := VarName(env, s);
            Tokens(env, ['$'] + s, word) == Tokens(env, v.rest, word + ValueOrName(env, v.taken))
  {
    hide Tokens, Until, Quoted, LexRedirect, VarName;
    OneChar(env, '$', s, word);
  }

  /** `$name` and `${name}` outside quotes; an unset `${name}` loses its braces. */
  lemma Variables(env: Env, name: string, rest: string, word: string)
    ensures IsName(env, name) && EndsName(env, name, rest) ==>
              Tokens(env, ['$'] + (name + rest), word) == Tokens(env, rest, word + ValueOrName(env, name))
    ensures '}' !in name ==>
              Tokens(env, ['$'] + (['{'] + (name + (['}'] + rest))), word)
              == Tokens(env, rest, word + ValueOrName(env, name))
  {
    hide Tokens, VarName, IsName, EndsName, ValueOrName;
    if IsName(env, name) && EndsName(env, name, rest) {
      NameReads(env, name, rest);
    }
    if '}' !in name {
      BracesRead(env, name, rest);
    }
    DollarReads(env, name + rest, word);
    DollarReads(env, ['{'] + (name + (['}'] + rest)), word);
  }

  function NonEmpty(v: string): seq<string> { if v == "" then [] else [v] }

  /** Names are letters, digits and underscores; any other ASCII character ends one. */
  lemma AsciiName(env: Env, name: string, c: char, rest: string, word: string)
    requires forall i :: 0 <= i < |name| ==>
               '0' <= name[i] <= '9' || 'a' <= name[i] <= 'z' || 'A' <= name[i] <= 'Z' || name[i] == '_'
    requires c as int < 0x80 && !('0' <= c <= '9' || 'a' <= c <= 'z' || 'A' <= c <= 'Z' || c == '_')
    requires name == "" ==> c != '{'
    ensures Tokens(env, ['$'] + (name + ([c] + rest)), word) == Tokens(env, [c] + rest, word + ValueOrName(env, name))
  {
    hide Tokens, ValueOrName;
    Variables(env, name, [c] + rest, word);
  }

  /** Each of these six characters ends the target of a redirection, and nothing else in ASCII does. */
  lemma TargetEnds(env: Env, n: string, c: char, rest: string, word: string)
    requires n != "" && forall i :: 0 <= i < |n| ==>
               n[i] != ' ' && n[i] != '\t' && n[i] != '\n' && n[i] != ';' && n[i] != '|' && n[i] != '&'
    requires c == ' ' || c == '\t' || c == '\n' || c == ';' || c == '|' || c == '&'
    ensures Tokens(env, "<" + ("" + (n + ([c] + rest))), word) ==
            Flush(word) + ([Redir("<" + n)] + Tokens(env, [c] + rest, ""))
  {
    hide Tokens, Flush;
    TargetReads(env, "<", "", n, [c] + rest, word);
  }

  /** A last argument in double quotes is its expansion, blanks and all; an empty one vanishes. */
  lemma QuotedArgument(env: Env, argv: seq<string>, ps: seq<Piece>)
    requires argv != [] && (forall i :: 0 <= i < |argv| ==> argv[i] != "") && PiecesOk(env, ps)
    ensures Parsed(Tokens(env, RenderWords(argv) + (['"'] + (RenderPieces(ps) + ['"'])), ""))
         == Ok([[Command(argv + NonEmpty(Expanded(env, ps)), Inherit, Inherit, Inherit, false)]])
  {
    hide Tokens, TakeAll, RenderWords, RenderPieces, WordToks, PiecesOk, Expanded, Parsed;
    var v := Expanded(env, ps);
    assert ['"'] + "" == ['"'] && "" + v == v;
    LexWords(env, argv, ['"'] + (RenderPieces(ps) + ['"']));
    DoubleQuotes(env, ps, "", "");
    Ends(env, v);
    FlushIsWords(v);
    OneCommand(argv, NonEmpty(v));
  }

  lemma FlushIsWords(v: string)
    ensures Flush(v) == WordToks(NonEmpty(v))
  {
  }

  // ----- Where the text does not mean what a POSIX shell makes of it -----

  /** A descriptor duplication is an empty output redirection and a background operator. */
  lemma DuplicationTokens(env: Env, rest: string, word: string)
    ensures Tokens(env, ['>'] + (['&'] + rest), word) == Flush(word) + ([Redir(">"), Amp] + Tokens(env, rest, ""))
  {
    hide Tokens, Flush, LexRedirect;
    var tail := ['&'] + rest;
    NoTarget(tail, word);
    RedirectToken(env, ['>'] + tail, word);
    Separator(env, '&', Amp, rest);
  }

  lemma NoTarget(tail: string, word: string)
    requires tail != "" && tail[0] == '&'
    ensures LexRedirect(['>'] + tail, word) == Lexed(Flush(word) + [Redir(">")], tail, "")
  {
    assert (['>'] + tail)[1..] == tail && ['>'] + "" == ">";
    assert SkipBlanks(tail) == tail && WordRun(tail) == Split("", tail);
  }

  /** For any words before it, `2>&1` makes a background command with one more word, and a command `1`. */
  lemma DuplicationMisread(env: Env, argv: seq<string>)
    requires forall i :: 0 <= i < |argv| ==> argv[i] != ""
    ensures Parsed(Tokens(env, RenderWords(argv) + "2>&1", ""))
         == Ok([[Command(argv + ["2"], Inherit, File(""), Inherit, true)],
                [Command(["1"], Inherit, Inherit, Inherit, false)]])
  {
    hide Tokens, TakeAll, RenderWords, WordToks;
    LexWords(env, argv, "2>&1");
    DuplicationLexed(env);
    DuplicationBuilt(argv);
  }

  lemma DuplicationLexed(env: Env)
    ensures Tokens(env, "2>&1", "") == [Word("2"), Redir(">"), Amp, Word("1")]
  {
    hide Tokens, Lex;
    assert "2>&1" == ['2'] + (['>'] + (['&'] + "1"));
    assert "" + ['2'] == "2" && "" + ['1'] == "1";
    PlainCharacter(env, '2', ['>'] + (['&'] + "1"), "");
    DuplicationTokens(env, "1", "2");
    PlainCharacter(env, '1', "", "");
    assert ['1'] + "" == "1";
    Ends(env, "1");
  }

  lemma TakeFirst(b: Building, t: Tok, ts: seq<Tok>)
    ensures TakeAll(b, [t] + ts) == TakeAll(Take(b, t), ts)
  {
    hide Take;
    assert ([t] + ts)[1..] == ts;
  }

  /** A command on its own becomes a pipeline of one stage. */
  lemma Pushed(b: Building)
    requires b.argv != [] && b.stages == []
    ensures var c := Command(b.argv, b.stdin, b.stdout, b.stderr, b.bg);
            PushPipeline(b) == FRESH.(pipelines := if b.pipelines == [] then [[c]] else b.pipelines + [[c]])
  {
    var c := Command(b.argv, b.stdin, b.stdout, b.stderr, b.bg);
    assert b.stages + [c] == [c] && (b.pipelines == [] ==> b.pipelines + [[c]] == [[c]]);
  }

  lemma DuplicationBuilt(argv: seq<string>)
    ensures Parsed(WordToks(argv) + [Word("2"), Redir(">"), Amp, Word("1")])
         == Ok([[Command(argv + ["2"], Inherit, File(""), Inherit, true)],
                [Command(["1"], Inherit, Inherit, Inherit, false)]])
  {
    hide TakeAll, WordToks, PushPipeline;
    TakeConcat(FRESH, WordToks(argv), [Word("2"), Redir(">"), Amp, Word("1")]);
    TakeWords(FRESH, argv);
    assert [] + argv == argv;
    DuplicationTaken(FRESH.(argv := argv));
    var first := Command(argv + ["2"], Inherit, File(""), Inherit, true);
    Pushed(FRESH.(pipelines := [[first]], argv := ["1"]));
    var second := Command(["1"], Inherit, Inherit, Inherit, false);
    assert [[first]] + [[second]] == [[first], [second]];
  }

  lemma DuplicationTaken(b: Building)
    requires b == FRESH.(argv := b.argv)
    ensures TakeAll(b, [Word("2"), Redir(">"), Amp, Word("1")])
         == FRESH.(pipelines := [[Command(b.argv + ["2"], Inherit, File(""), Inherit, true)]], argv := ["1"])
  {
    hide TakeAll, PushPipeline;
    var c := b.(argv := b.argv + ["2"]);
    var d := c.(stdout := File(""), bg := true);
    var e := FRESH.(pipelines := [[Command(d.argv, Inherit, File(""), Inherit, true)]]);
    assert [Word("2"), Redir(">"), Amp, Word("1")] == [Word("2")] + ([Redir(">")] + ([Amp] + [Word("1")]));
    TakeFirst(b, Word("2"), [Redir(">")] + ([Amp] + [Word("1")]));
    TakeFirst(c, Redir(">"), [Amp] + [Word("1")]);
    TakeFirst(c.(stdout := File("")), Amp, [Word("1")]);
    Pushed(d);
    OneTok(e, Word("1"));
    assert [] + ["1"] == ["1"] && ">"[1..] == "";
  }

  /** A comment takes its newline with it: the line behind it goes on with the command before it. */
  lemma CommentSwallowsNewline(env: Env, comment: string, rest: string, word: string)
    requires '\n' !in comment
    ensures Tokens(env, ['#'] + (comment + (['\n'] + rest)), word) == Flush(word) + Tokens(env, rest, "")
  {
    hide Tokens, Until;
    UntilEnd(comment, '\n', rest);
    OneChar(env, '#', comment + (['\n'] + rest), word);
  }

  lemma {:induction false} UntilEnd(s: string, end: char, rest: string)
    requires end !in s
    ensures Until(s + ([end] + rest), end) == Split(s, rest)
    decreases |s|
  {
    var t := s + ([end] + rest);
    if s == "" {
      assert t == [end] + rest && t[1..] == rest;
    } else {
      assert t[0] == s[0] && t[1..] == s[1..] + ([end] + rest);
      UntilEnd(s[1..], end, rest);
    }
  }

  /** Two lines with a comment at the end of the first are one command; without it they are two. */
  lemma CommentJoinsCommands(env: Env, a: seq<string>, comment: string, b: seq<string>)
    requires forall i :: 0 <= i < |a| ==> a[i] != ""
    requires forall i :: 0 <= i < |b| ==> b[i] != ""
    requires a != [] && b != [] && '\n' !in comment
    ensures Parsed(Tokens(env, RenderWords(a) + (['#'] + (comment + (['\n'] + RenderWords(b)))), ""))
         == Ok([[Command(a + b, Inherit, Inherit, Inherit, false)]])
    ensures Parsed(Tokens(env, RenderWords(a) + (['\n'] + RenderWords(b)), ""))
         == Ok([[Command(a, Inherit, Inherit, Inherit, false)], [Command(b, Inherit, Inherit, Inherit, false)]])
  {
    hide Tokens, TakeAll, RenderWords, WordToks, Lex;
    LexWords(env, b, "");
    Ends(env, "");
    assert RenderWords(b) + "" == RenderWords(b);
    LexWords(env, a, ['#'] + (comment + (['\n'] + RenderWords(b))));
    CommentSwallowsNewline(env, comment, RenderWords(b), "");
    LexWords(env, a, ['\n'] + RenderWords(b));
    NewlineToken(env, RenderWords(b));
    assert WordToks(b) + [] == WordToks(b) && [] + WordToks(b) == WordToks(b);
    OneCommand(a, b);
    TwoCommands(a, b);
  }

  lemma NewlineToken(env: Env, rest: string)
    ensures Tokens(env, ['\n'] + rest, "") == [Newline] + Tokens(env, rest, "")
  {
    hide Tokens, Until, Quoted, LexRedirect, LexDollar;
    OneChar(env, '\n', rest, "");
  }

  lemma OneCommand(a: seq<string>, b: seq<string>)
    requires a != []
    ensures Parsed(WordToks(a) + WordToks(b)) == Ok([[Command(a + b, Inherit, Inherit, Inherit, false)]])
  {
    hide TakeAll, WordToks, PushPipeline;
    TakeConcat(FRESH, WordToks(a), WordToks(b));
    TakeWords(FRESH, a);
    TakeWords(FRESH.(argv := a), b);
    Pushed(FRESH.(argv := a + b));
    assert [] + a == a;
  }

  lemma TwoCommands(a: seq<string>, b: seq<string>)
    requires a != [] && b != []
    ensures Parsed(WordToks(a) + ([Newline] + WordToks(b)))
         == Ok([[Command(a, Inherit, Inherit, Inherit, false)], [Command(b, Inherit, Inherit, Inherit, false)]])
  {
    hide TakeAll, WordToks, PushPipeline;
    TakeConcat(FRESH, WordToks(a), [Newline] + WordToks(b));
    TakeFirst(FRESH.(argv := a), Newline, WordToks(b));
    TakeWords(FRESH, a);
    assert [] + a == a && [] + b == b;
    Pushed(FRESH.(argv := a));
    var mid := FRESH.(pipelines := [[Command(a, Inherit, Inherit, Inherit, false)]]);
    TakeWords(mid, b);
    Pushed(mid.(argv := b));
    var p, q := mid.pipelines[0], [Command(b, Inherit, Inherit, Inherit, false)];
    assert [p] + [q] == [p, q];
  }

  /** A redirection and `&` without a command are kept for the next command on the line. */
  lemma PendingMovesOn(env: Env, n: string, argv: seq<string>)
    requires PlainName(n) && n[0] != '>' && argv != [] && forall i :: 0 <= i < |argv| ==> argv[i] != ""
    ensures Parsed(Tokens(env, ">" + (n + ([' '] + (['&'] + RenderWords(argv)))), ""))
         == Ok([[Command(argv, Inherit, File(n), Inherit, true)]])
  {
    hide Tokens, TakeAll, RenderWords, WordToks, Lex;
    LexTarget(env, ">", n, ['&'] + RenderWords(argv));
    Separator(env, '&', Amp, RenderWords(argv));
    LexWords(env, argv, "");
    Ends(env, "");
    assert RenderWords(argv) + "" == RenderWords(argv) && WordToks(argv) + [] == WordToks(argv);
    PendingBuilt(n, argv);
  }

  lemma PendingBuilt(n: string, argv: seq<string>)
    requires PlainName(n) && n[0] != '>' && argv != []
    ensures Parsed([Redir(">" + n)] + ([Amp] + WordToks(argv)))
         == Ok([[Command(argv, Inherit, File(n), Inherit, true)]])
  {
    hide TakeAll, WordToks;
    var b := FRESH.(stdout := File(n));
    assert (">" + n)[1..] == n && (">" + n)[1] == n[0];
    TakeFirst(FRESH, Redir(">" + n), [Amp] + WordToks(argv));
    TakeFirst(b, Amp, WordToks(argv));
    TakeWords(b.(bg := true), argv);
    assert [] + argv == argv;
    Pushed(b.(bg := true, argv := argv));
  }
}

/**
 * Laws of the parser: what a simple command's words and redirections are,
 * the shape of the trees built for pipelines and command lists, and what
 * checkMultipleRedirection accepts.
 */
module ParserLaws {
  import opened Wrappers
  import opened Tokenizer
  import opened HereDoc
  import opened Parser

  // ---------------------------------------------------------------------------
  // Words and redirections of a simple command

  /** The words of a simple command written in toks: the SIMPLE tokens up to
      the first token that is neither SIMPLE nor a redirection operator,
      except the file (or here-document word) after each operator. */
  function Words(toks: seq<Token>): seq<string>
    decreases |toks|
  {
    if toks == [] then []
    else if IsRedirect(toks[0].kind) then (if |toks| < 2 then [] else Words(toks[2..]))
    else if toks[0].kind == Simple then [toks[0].text] + Words(toks[1..])
    else []
  }

  /** How many input (output) redirection operators toks holds. */
  function CountIn(toks: seq<Token>): nat {
    if toks == [] then 0 else (if IsInRedirect(toks[0].kind) then 1 else 0) + CountIn(toks[1..])
  }

  function CountOut(toks: seq<Token>): nat {
    if toks == [] then 0 else (if IsOutRedirect(toks[0].kind) then 1 else 0) + CountOut(toks[1..])
  }

  function Slot(r: Option<Redirection>): nat {
    if r.Some? then 1 else 0
  }

  /** Reading redirections consumes no word, and each slot ends up filled by
      exactly the operators of its direction that were consumed: at most one,
      and none when the slot was already filled. */
  lemma {:induction false} RedirectionsCount(toks: seq<Token>, rs: Redirs, input: seq<string>, env: Env)
    requires Redirections(toks, rs, input, env).Done?
    ensures var r := Redirections(toks, rs, input, env);
      && Words(toks) == Words(r.rest)
      && CountIn(toks) - CountIn(r.rest) + Slot(rs.redIn) == Slot(r.value.redIn) <= 1
      && CountOut(toks) - CountOut(r.rest) + Slot(rs.redOut) == Slot(r.value.redOut) <= 1
    decreases |toks|
  {
    if toks != [] && IsRedirect(toks[0].kind) {
      var o := OneRedirection(toks, rs, input, env);
      RedirectionsCount(o.rest, o.value, o.input, env);
      OperatorCounts(toks);
    }
  }

  lemma OperatorCounts(toks: seq<Token>)
    requires |toks| >= 2 && IsRedirect(toks[0].kind) && toks[1].kind == Simple
    ensures CountIn(toks) == (if IsInRedirect(toks[0].kind) then 1 else 0) + CountIn(toks[2..])
    ensures CountOut(toks) == (if IsOutRedirect(toks[0].kind) then 1 else 0) + CountOut(toks[2..])
    ensures Words(toks) == Words(toks[2..])
  {
    assert toks[1..][1..] == toks[2..];
  }

  /** A second redirection of the same direction fails, whatever the first
      one was (a here document included) and whatever follows. */
  lemma DuplicateInputFails(toks: seq<Token>, rs: Redirs, input: seq<string>, env: Env)
    requires |toks| >= 3 && IsInRedirect(toks[0].kind) && IsInRedirect(toks[2].kind)
    ensures Redirections(toks, rs, input, env).Fail?
  {
    assert toks[2..][0] == toks[2];
  }

  lemma DuplicateOutputFails(toks: seq<Token>, rs: Redirs, input: seq<string>, env: Env)
    requires |toks| >= 3 && IsOutRedirect(toks[0].kind) && IsOutRedirect(toks[2].kind)
    ensures Redirections(toks, rs, input, env).Fail?
  {
    assert toks[2..][0] == toks[2];
  }

  /** `<` and an output operator take the next token's text as the file;
      `<<` takes it as the word ending a here document and keeps the
      expanded document, leaving the lines after it unread. */
  lemma SingleRedirection(toks: seq<Token>, rs: Redirs, input: seq<string>, env: Env)
    requires |toks| >= 2 && IsRedirect(toks[0].kind) && toks[1].kind == Simple
    requires |toks| == 2 || !IsRedirect(toks[2].kind)
    requires (IsInRedirect(toks[0].kind) ==> rs.redIn.None?) && (IsOutRedirect(toks[0].kind) ==> rs.redOut.None?)
    ensures var k, f := toks[0].kind, toks[1].text;
      var h := HereDocument(f, input, env);
      Redirections(toks, rs, input, env) ==
        if k == RedHere then Done(rs.(redIn := Some(Redirection(k, h.doc))), toks[2..], h.rest)
        else if k == RedIn then Done(rs.(redIn := Some(Redirection(k, f))), toks[2..], input)
        else Done(rs.(redOut := Some(Redirection(k, f))), toks[2..], input)
  {
  }

  /** A redirection operator must be followed by a SIMPLE token. */
  lemma MissingFileFails(k: Kind, more: seq<Token>, rs: Redirs, input: seq<string>, env: Env)
    requires IsRedirect(k) && (more == [] || more[0].kind != Simple)
    ensures Redirections([Token(k, "op")] + more, rs, input, env).Fail?
  {
    var toks := [Token(k, "op")] + more;
    assert toks[0].kind == k && toks[1..] == more;
  }

  /** The words parseSimple collects are the words written, in order; the
      redirections between them fill the slots as reading them alone would. */
  lemma {:induction false} SimpleArgsWords(toks: seq<Token>, argv: seq<string>, rs: Redirs, input: seq<string>, env: Env)
    requires SimpleArgs(toks, argv, rs, input, env).Done?
    ensures ArgsAgree(toks, argv, rs, SimpleArgs(toks, argv, rs, input, env))
    decreases |toks|
  {
    if toks != [] && toks[0].kind == Simple {
      var argv' := argv + [toks[0].text];
      SimpleArgsWords(toks[1..], argv', rs, input, env);
      WordStep(toks, argv, rs, SimpleArgs(toks[1..], argv', rs, input, env));
    } else if toks != [] && IsRedirect(toks[0].kind) {
      RedirectionsCount(toks, rs, input, env);
      var o := Redirections(toks, rs, input, env);
      SimpleArgsWords(o.rest, argv, o.value, o.input, env);
      RedirectionStep(toks, argv, rs, o, SimpleArgs(o.rest, argv, o.value, o.input, env));
    }
  }

  /** What SimpleArgsWords states of an outcome r of reading toks. */
  predicate ArgsAgree(toks: seq<Token>, argv: seq<string>, rs: Redirs, r: Outcome<Args>)
    requires r.Done?
  {
    && r.value.argv == argv + Words(toks)
    && CountIn(toks) - CountIn(r.rest) + Slot(rs.redIn) == Slot(r.value.redirs.redIn) <= 1
    && CountOut(toks) - CountOut(r.rest) + Slot(rs.redOut) == Slot(r.value.redirs.redOut) <= 1
  }

  lemma WordStep(toks: seq<Token>, argv: seq<string>, rs: Redirs, r: Outcome<Args>)
    requires toks != [] && toks[0].kind == Simple && r.Done?
    requires ArgsAgree(toks[1..], argv + [toks[0].text], rs, r)
    ensures ArgsAgree(toks, argv, rs, r)
  {
    WordFront(toks);
    Snoc(argv, toks[0].text, Words(toks[1..]));
  }

  /** A leading word is the first of the words and counts no redirection. */
  lemma WordFront(toks: seq<Token>)
    requires toks != [] && toks[0].kind == Simple
    ensures Words(toks) == [toks[0].text] + Words(toks[1..])
    ensures CountIn(toks) == CountIn(toks[1..]) && CountOut(toks) == CountOut(toks[1..])
  {
  }

  lemma Snoc(argv: seq<string>, w: string, ws: seq<string>)
    ensures (argv + [w]) + ws == argv + ([w] + ws)
  {
  }

  lemma RedirectionStep(toks: seq<Token>, argv: seq<string>, rs: Redirs, o: Outcome<Redirs>, r: Outcome<Args>)
    requires o.Done? && r.Done?
    requires Words(toks) == Words(o.rest)
    requires CountIn(toks) - CountIn(o.rest) + Slot(rs.redIn) == Slot(o.value.redIn) <= 1
    requires CountOut(toks) - CountOut(o.rest) + Slot(rs.redOut) == Slot(o.value.redOut) <= 1
    requires ArgsAgree(o.rest, argv, o.value, r)
    ensures ArgsAgree(toks, argv, rs, r)
  {
  }

  /** parseSimple's argv is the words of the command, starting with the
      SIMPLE token it begins with. */
  lemma SimpleCommandWords(toks: seq<Token>, rs: Redirs, input: seq<string>, env: Env)
    requires SimpleCommand(toks, rs, input, env).Done?
    ensures var r := SimpleCommand(toks, rs, input, env);
      && r.value.argv == Words(toks) && r.value.argv[0] == toks[0].text
      && CountIn(toks) - CountIn(r.rest) + Slot(rs.redIn) == Slot(r.value.redirs.redIn) <= 1
      && CountOut(toks) - CountOut(r.rest) + Slot(rs.redOut) == Slot(r.value.redirs.redOut) <= 1
  {
    SimpleArgsWords(toks, [], rs, input, env);
    AgreeFromEmpty(toks, rs, SimpleArgs(toks, [], rs, input, env));
    WordsHead(toks);
  }

  lemma AgreeFromEmpty(toks: seq<Token>, rs: Redirs, r: Outcome<Args>)
    requires r.Done? && ArgsAgree(toks, [], rs, r)
    ensures r.value.argv == Words(toks)
    ensures CountIn(toks) - CountIn(r.rest) + Slot(rs.redIn) == Slot(r.value.redirs.redIn) <= 1
    ensures CountOut(toks) - CountOut(r.rest) + Slot(rs.redOut) == Slot(r.value.redirs.redOut) <= 1
  {
    EmptyPrefix(Words(toks));
  }

  lemma WordsHead(toks: seq<Token>)
    requires toks != [] && toks[0].kind == Simple
    ensures |Words(toks)| > 0 && Words(toks)[0] == toks[0].text
  {
  }

  // ---------------------------------------------------------------------------
  // Trees

  predicate AllSimple(toks: seq<Token>) {
    forall i :: 0 <= i < |toks| ==> toks[i].kind == Simple
  }

  function Texts(toks: seq<Token>): seq<string> {
    if toks == [] then [] else [toks[0].text] + Texts(toks[1..])
  }

  /** A SIMPLE node with the given words and no redirection. */
  function SimpleNode(argv: seq<string>): Cmd {
    EmptyCmd.(kind := Simple, argv := argv)
  }

  function W(s: string): Token {
    Token(Simple, s)
  }

  /** A token that ends a simple command without being read by it. */
  predicate EndsSimple(more: seq<Token>) {
    more == [] || (more[0].kind != Simple && !IsRedirect(more[0].kind))
  }

  // One step of each parsing function, for the proofs below.

  lemma ArgsWord(toks: seq<Token>, argv: seq<string>, rs: Redirs, input: seq<string>, env: Env)
    requires toks != [] && toks[0].kind == Simple
    ensures SimpleArgs(toks, argv, rs, input, env) == SimpleArgs(toks[1..], argv + [toks[0].text], rs, input, env)
  {
  }

  /** The first word of a command, read with no words before it. */
  lemma ArgsFirstWord(toks: seq<Token>, rs: Redirs, input: seq<string>, env: Env)
    requires toks != [] && toks[0].kind == Simple
    ensures SimpleArgs(toks, [], rs, input, env) == SimpleArgs(toks[1..], [toks[0].text], rs, input, env)
  {
    ArgsWord(toks, [], rs, input, env);
    EmptyPrefix([toks[0].text]);
  }

  lemma ArgsEnd(toks: seq<Token>, argv: seq<string>, rs: Redirs, input: seq<string>, env: Env)
    requires EndsSimple(toks)
    ensures SimpleArgs(toks, argv, rs, input, env) == Done(Args(argv, rs), toks, input)
  {
  }

  lemma PipelineOne(toks: seq<Token>, input: seq<string>, env: Env, s: Cmd, rest: seq<Token>, i: seq<string>)
    requires ParseStage(toks, input, env) == Done(s, rest, i)
    requires rest == [] || !IsPipe(rest[0].kind)
    ensures ParsePipeline(toks, input, env) == Done(s, rest, i)
  {
  }

  lemma PipelineMore(toks: seq<Token>, input: seq<string>, env: Env, s: Cmd, rest: seq<Token>, i: seq<string>,
                     p: Cmd, rest2: seq<Token>, i2: seq<string>)
    requires ParseStage(toks, input, env) == Done(s, rest, i)
    requires rest != [] && IsPipe(rest[0].kind)
    requires ParsePipeline(rest[1..], i, env) == Done(p, rest2, i2)
    ensures ParsePipeline(toks, input, env) == Done(Node(rest[0].kind, s, Some(p)), rest2, i2)
  {
  }

  lemma AndOrOne(toks: seq<Token>, input: seq<string>, env: Env, s: Cmd, rest: seq<Token>, i: seq<string>)
    requires ParsePipeline(toks, input, env) == Done(s, rest, i)
    requires rest == [] || (rest[0].kind != SepAnd && rest[0].kind != SepOr)
    ensures ParseAndOr(toks, input, env) == Done(s, rest, i)
  {
  }

  lemma AndOrMore(toks: seq<Token>, input: seq<string>, env: Env, s: Cmd, rest: seq<Token>, i: seq<string>,
                  p: Cmd, rest2: seq<Token>, i2: seq<string>)
    requires ParsePipeline(toks, input, env) == Done(s, rest, i)
    requires rest != [] && (rest[0].kind == SepAnd || rest[0].kind == SepOr)
    requires ParseAndOr(rest[1..], i, env) == Done(p, rest2, i2)
    ensures ParseAndOr(toks, input, env) == Done(Node(rest[0].kind, s, Some(p)), rest2, i2)
  {
  }

  lemma CommandOne(toks: seq<Token>, input: seq<string>, env: Env, s: Cmd, rest: seq<Token>, i: seq<string>)
    requires ParseAndOr(toks, input, env) == Done(s, rest, i)
    requires rest == [] || (rest[0].kind != SepEnd && rest[0].kind != SepBg)
    ensures ParseCommand(toks, input, env) == Done(s, rest, i)
  {
  }

  lemma CommandMore(toks: seq<Token>, input: seq<string>, env: Env, s: Cmd, rest: seq<Token>, i: seq<string>,
                    p: Cmd, rest2: seq<Token>, i2: seq<string>)
    requires ParseAndOr(toks, input, env) == Done(s, rest, i)
    requires rest != [] && (rest[0].kind == SepEnd || rest[0].kind == SepBg)
    requires rest[1..] != [] && rest[1].kind != ParRight
    requires ParseCommand(rest[1..], i, env) == Done(p, rest2, i2)
    ensures ParseCommand(toks, input, env) == Done(Node(rest[0].kind, s, Some(p)), rest2, i2)
  {
  }

  lemma CommandLast(toks: seq<Token>, input: seq<string>, env: Env, s: Cmd, rest: seq<Token>, i: seq<string>)
    requires ParseAndOr(toks, input, env) == Done(s, rest, i)
    requires rest != [] && (rest[0].kind == SepEnd || rest[0].kind == SepBg)
    requires rest[1..] == [] || rest[1].kind == ParRight
    ensures ParseCommand(toks, input, env) == Done(Node(rest[0].kind, s, None), rest[1..], i)
  {
  }

  /** A command that uses every token and passes the pipe check is the
      result of parse. */
  lemma ParseWhole(toks: seq<Token>, input: seq<string>, env: Env, c: Cmd, i: seq<string>)
    requires toks != [] && ParseCommand(toks, input, env) == Done(c, [], i)
    requires PipesComplete(c) && CheckMultipleRedirection(Some(c))
    ensures Parse(toks, input, env) == Parsed(Some(c), i)
  {
  }

  lemma {:induction false} WordsOnly(ws: seq<Token>, more: seq<Token>, argv: seq<string>, rs: Redirs, input: seq<string>, env: Env)
    requires AllSimple(ws) && EndsSimple(more)
    ensures SimpleArgs(ws + more, argv, rs, input, env) == Done(Args(argv + Texts(ws), rs), more, input)
    decreases |ws|
  {
    if ws == [] {
      assert ws + more == more && argv + Texts(ws) == argv;
      ArgsEnd(more, argv, rs, input, env);
    } else {
      WordsOnly(ws[1..], more, argv + [ws[0].text], rs, input, env);
      WordsOnlyStep(ws, more, argv, rs, input, env);
    }
  }

  lemma WordsOnlyStep(ws: seq<Token>, more: seq<Token>, argv: seq<string>, rs: Redirs, input: seq<string>, env: Env)
    requires ws != [] && ws[0].kind == Simple
    requires SimpleArgs(ws[1..] + more, argv + [ws[0].text], rs, input, env)
          == Done(Args(argv + [ws[0].text] + Texts(ws[1..]), rs), more, input)
    ensures SimpleArgs(ws + more, argv, rs, input, env) == Done(Args(argv + Texts(ws), rs), more, input)
  {
    ConsTail(ws, more);
    ArgsWord(ws + more, argv, rs, input, env);
    TextsCons(ws, argv);
  }

  lemma ConsTail(ws: seq<Token>, more: seq<Token>)
    requires ws != []
    ensures (ws + more)[0] == ws[0] && (ws + more)[1..] == ws[1..] + more
  {
  }

  lemma TextsCons(ws: seq<Token>, argv: seq<string>)
    requires ws != []
    ensures argv + [ws[0].text] + Texts(ws[1..]) == argv + Texts(ws)
  {
  }

  /** Words read with none before them. */
  lemma WordsFromStart(ws: seq<Token>, more: seq<Token>, rs: Redirs, input: seq<string>, env: Env)
    requires AllSimple(ws) && EndsSimple(more)
    ensures SimpleArgs(ws + more, [], rs, input, env) == Done(Args(Texts(ws), rs), more, input)
  {
    WordsOnly(ws, more, [], rs, input, env);
    EmptyPrefix(Texts(ws));
  }

  lemma EmptyPrefix<T>(s: seq<T>)
    ensures [] + s == s
  {
  }

  /** A stage that starts with a word is a simple command. */
  lemma StageSimple(toks: seq<Token>, input: seq<string>, env: Env)
    requires toks != [] && toks[0].kind == Simple
    ensures ParseStage(toks, input, env) == SimpleStage(toks, NoRedirs, input, env)
  {
    NoRedirections(toks, NoRedirs, input, env);
  }

  /** Words without redirections make a SIMPLE stage holding them. */
  lemma WordsStage(ws: seq<Token>, more: seq<Token>, input: seq<string>, env: Env)
    requires ws != [] && AllSimple(ws) && EndsSimple(more)
    ensures ParseStage(ws + more, input, env) == Done(SimpleNode(Texts(ws)), more, input)
  {
    var toks := ws + more;
    assert toks[0] == ws[0];
    StageSimple(toks, input, env);
    WordsFromStart(ws, more, NoRedirs, input, env);
    assert SimpleCommand(toks, NoRedirs, input, env) == Done(Args(Texts(ws), NoRedirs), more, input);
  }

  /** A token that continues neither a pipeline, an and-or nor a command. */
  predicate EndsCommand(rest: seq<Token>) {
    rest == [] || !(IsPipe(rest[0].kind) || rest[0].kind in {SepAnd, SepOr, SepEnd, SepBg})
  }

  /** A stage with nothing after it that joins it to more is a whole command. */
  lemma StageIsCommand(toks: seq<Token>, input: seq<string>, env: Env)
    requires ParseStage(toks, input, env).Done? && EndsCommand(ParseStage(toks, input, env).rest)
    ensures ParseCommand(toks, input, env) == ParseStage(toks, input, env)
  {
    var r := ParseStage(toks, input, env);
    PipelineOne(toks, input, env, r.value, r.rest, r.input);
    AndOrOne(toks, input, env, r.value, r.rest, r.input);
    CommandOne(toks, input, env, r.value, r.rest, r.input);
  }

  /** Simple commands pass the pipe check on their own. */
  lemma SimpleChecks(argv: seq<string>)
    ensures PipesComplete(SimpleNode(argv)) && CheckMultipleRedirection(Some(SimpleNode(argv)))
  {
  }

  /** A line of plain words parses to one SIMPLE command with those words. */
  lemma PlainCommand(ws: seq<Token>, input: seq<string>, env: Env)
    requires ws != [] && AllSimple(ws)
    ensures Parse(ws, input, env) == Parsed(Some(SimpleNode(Texts(ws))), input)
  {
    WordsStage(ws, [], input, env);
    assert ws + [] == ws;
    StageIsCommand(ws, input, env);
    SimpleChecks(Texts(ws));
    ParseWhole(ws, input, env, SimpleNode(Texts(ws)), input);
  }

  /** One word before a token that ends a simple command is a stage. */
  lemma WordStage(w: string, toks: seq<Token>, input: seq<string>, env: Env)
    requires toks != [] && toks[0] == W(w) && EndsSimple(toks[1..])
    ensures ParseStage(toks, input, env) == Done(SimpleNode([w]), toks[1..], input)
  {
    StageSimple(toks, input, env);
    ArgsFirstWord(toks, NoRedirs, input, env);
    ArgsEnd(toks[1..], [w], NoRedirs, input, env);
    assert SimpleCommand(toks, NoRedirs, input, env) == Done(Args([w], NoRedirs), toks[1..], input);
  }

  /** `a | b |& c` nests to the right: a pipe node over a, whose right child
      is the pipe node over b and c. */
  lemma PipelineExample(input: seq<string>, env: Env)
    ensures Parse([W("a"), Token(Pipe, "|"), W("b"), Token(PipeErr, "|&"), W("c")], input, env)
         == Parsed(Some(Node(Pipe, SimpleNode(["a"]), Some(Node(PipeErr, SimpleNode(["b"]), Some(SimpleNode(["c"])))))), input)
  {
    var toks := [W("a"), Token(Pipe, "|"), W("b"), Token(PipeErr, "|&"), W("c")];
    var t1, t2, t3, t4 := toks[1..], toks[2..], toks[3..], toks[4..];
    PipelineTokens(toks, t1, t2, t3, t4);
    var a, b, c := SimpleNode(["a"]), SimpleNode(["b"]), SimpleNode(["c"]);
    WordStage("a", toks, input, env);
    WordStage("b", t2, input, env);
    WordStage("c", t4, input, env);
    PipelineOne(t4, input, env, c, [], input);
    var bc := Node(PipeErr, b, Some(c));
    PipelineMore(t2, input, env, b, t3, input, c, [], input);
    var tree := Node(Pipe, a, Some(bc));
    PipelineMore(toks, input, env, a, t1, input, bc, [], input);
    AndOrOne(toks, input, env, tree, [], input);
    CommandOne(toks, input, env, tree, [], input);
    PipeChecks(a, bc);
    ParseWhole(toks, input, env, tree, input);
  }

  lemma PipelineTokens(toks: seq<Token>, t1: seq<Token>, t2: seq<Token>, t3: seq<Token>, t4: seq<Token>)
    requires toks == [W("a"), Token(Pipe, "|"), W("b"), Token(PipeErr, "|&"), W("c")]
    requires t1 == toks[1..] && t2 == toks[2..] && t3 == toks[3..] && t4 == toks[4..]
    ensures toks[0] == W("a") && t2[0] == W("b") && t4[0] == W("c") && t4[1..] == []
    ensures toks[1..] == t1 && t2[1..] == t3 && t1[1..] == t2 && t3[1..] == t4
    ensures t1[0].kind == Pipe && t3[0].kind == PipeErr && EndsSimple(t1) && EndsSimple(t3) && EndsSimple([])
  {
  }

  lemma PipeChecks(a: Cmd, bc: Cmd)
    requires a == SimpleNode(["a"]) && bc == Node(PipeErr, SimpleNode(["b"]), Some(SimpleNode(["c"])))
    ensures PipesComplete(Node(Pipe, a, Some(bc))) && CheckMultipleRedirection(Some(Node(Pipe, a, Some(bc))))
  {
    SimpleChecks(["a"]);
    SimpleChecks(["b"]);
    SimpleChecks(["c"]);
    assert CheckMultipleRedirection(Some(bc));
  }

  /** `a && b ; c &`: `;` and `&` bind loosest, and a final `&` leaves the
      node without a right child. */
  lemma ListExample(input: seq<string>, env: Env)
    ensures Parse([W("a"), Token(SepAnd, "&&"), W("b"), Token(SepEnd, ";"), W("c"), Token(SepBg, "&")], input, env)
         == Parsed(Some(Node(SepEnd, Node(SepAnd, SimpleNode(["a"]), Some(SimpleNode(["b"]))),
                             Some(Node(SepBg, SimpleNode(["c"]), None)))), input)
  {
    var toks := [W("a"), Token(SepAnd, "&&"), W("b"), Token(SepEnd, ";"), W("c"), Token(SepBg, "&")];
    var t3, t4 := toks[3..], toks[4..];
    ListTokens(toks, t3, t4);
    var left := Node(SepAnd, SimpleNode(["a"]), Some(SimpleNode(["b"])));
    var right := Node(SepBg, SimpleNode(["c"]), None);
    ListLeft(toks, input, env);
    ListRight(t4, input, env);
    CommandMore(toks, input, env, left, t3, input, right, [], input);
    SimpleChecks(["a"]);
    SimpleChecks(["b"]);
    SimpleChecks(["c"]);
    assert CheckMultipleRedirection(Some(left)) && CheckMultipleRedirection(Some(right));
    ParseWhole(toks, input, env, Node(SepEnd, left, Some(right)), input);
  }

  lemma ListTokens(toks: seq<Token>, t3: seq<Token>, t4: seq<Token>)
    requires toks == [W("a"), Token(SepAnd, "&&"), W("b"), Token(SepEnd, ";"), W("c"), Token(SepBg, "&")]
    requires t3 == toks[3..] && t4 == toks[4..]
    ensures |toks| >= 4 && toks[0] == W("a") && toks[1].kind == SepAnd && toks[2] == W("b") && toks[3].kind == SepEnd
    ensures t3[0].kind == SepEnd && t3[1..] == t4 && t4[0].kind != ParRight
    ensures |t4| == 2 && t4[0] == W("c") && t4[1].kind == SepBg
  {
  }

  lemma ListLeft(toks: seq<Token>, input: seq<string>, env: Env)
    requires |toks| >= 4 && toks[0] == W("a") && toks[1].kind == SepAnd && toks[2] == W("b") && toks[3].kind == SepEnd
    ensures ParseAndOr(toks, input, env) == Done(Node(SepAnd, SimpleNode(["a"]), Some(SimpleNode(["b"]))), toks[3..], input)
  {
    var t1, t2 := toks[1..], toks[2..];
    assert t1[1..] == t2 && t1[0].kind == SepAnd && t2[0] == W("b") && t2[1..] == toks[3..];
    WordPipeline("a", toks, input, env);
    WordAndOr("b", t2, input, env);
    AndOrMore(toks, input, env, SimpleNode(["a"]), t1, input, SimpleNode(["b"]), toks[3..], input);
  }

  /** One word followed by a token that is not `|`, `|&`: a pipeline. */
  lemma WordPipeline(w: string, toks: seq<Token>, input: seq<string>, env: Env)
    requires |toks| >= 2 && toks[0] == W(w) && toks[1].kind in {SepAnd, SepOr, SepEnd, SepBg}
    ensures ParsePipeline(toks, input, env) == Done(SimpleNode([w]), toks[1..], input)
  {
    assert toks[1..][0] == toks[1];
    WordStage(w, toks, input, env);
    PipelineOne(toks, input, env, SimpleNode([w]), toks[1..], input);
  }

  /** One word followed by `;` or `&`: an and-or. */
  lemma WordAndOr(w: string, toks: seq<Token>, input: seq<string>, env: Env)
    requires |toks| >= 2 && toks[0] == W(w) && toks[1].kind in {SepEnd, SepBg}
    ensures ParseAndOr(toks, input, env) == Done(SimpleNode([w]), toks[1..], input)
  {
    WordPipeline(w, toks, input, env);
    assert toks[1..][0] == toks[1];
    AndOrOne(toks, input, env, SimpleNode([w]), toks[1..], input);
  }

  lemma ListRight(t4: seq<Token>, input: seq<string>, env: Env)
    requires |t4| == 2 && t4[0] == W("c") && t4[1].kind == SepBg
    ensures ParseCommand(t4, input, env) == Done(Node(SepBg, SimpleNode(["c"]), None), [], input)
  {
    var t5 := t4[1..];
    assert t5[1..] == [] && t5[0].kind == SepBg;
    WordAndOr("c", t4, input, env);
    CommandLast(t4, input, env, SimpleNode(["c"]), t5, input);
  }

  // ---------------------------------------------------------------------------
  // Redirections and subcommands in whole lines

  lemma ArgsRedirect(toks: seq<Token>, argv: seq<string>, rs: Redirs, input: seq<string>, env: Env,
                     rs': Redirs, rest: seq<Token>, i: seq<string>)
    requires toks != [] && IsRedirect(toks[0].kind)
    requires Redirections(toks, rs, input, env) == Done(rs', rest, i)
    ensures SimpleArgs(toks, argv, rs, input, env) == SimpleArgs(rest, argv, rs', i, env)
  {
  }

  /** After leading redirections, a word starts a simple command that takes
      them over. */
  lemma StageRedirected(toks: seq<Token>, input: seq<string>, env: Env, rs: Redirs, rest: seq<Token>, i: seq<string>)
    requires toks != [] && Redirections(toks, NoRedirs, input, env) == Done(rs, rest, i)
    requires rest != [] && rest[0].kind == Simple
    ensures ParseStage(toks, input, env) == SimpleStage(rest, rs, i, env)
  {
  }

  /** `> o ls < i`: redirections before and after the words both apply, and
      the words are only those that are not file names. */
  lemma RedirectionExample(input: seq<string>, env: Env)
    ensures Parse([Token(RedOut, ">"), W("o"), W("ls"), Token(RedIn, "<"), W("i")], input, env)
         == Parsed(Some(Cmd(Simple, ["ls"], RedIn, Some("i"), RedOut, Some("o"), None, None)), input)
  {
    var toks := [Token(RedOut, ">"), W("o"), W("ls"), Token(RedIn, "<"), W("i")];
    var t2, t3 := toks[2..], toks[3..];
    RedirectionTokens(toks, t2, t3);
    var rs1 := Redirs(None, Some(Redirection(RedOut, "o")));
    var rs2 := Redirs(Some(Redirection(RedIn, "i")), Some(Redirection(RedOut, "o")));
    SingleRedirection(toks, NoRedirs, input, env);
    SingleRedirection(t3, rs1, input, env);
    StageRedirected(toks, input, env, rs1, t2, input);
    ArgsFirstWord(t2, rs1, input, env);
    ArgsRedirect(t3, ["ls"], rs1, input, env, rs2, [], input);
    ArgsEnd([], ["ls"], rs2, input, env);
    var c := Cmd(Simple, ["ls"], RedIn, Some("i"), RedOut, Some("o"), None, None);
    assert SimpleCommand(t2, rs1, input, env) == Done(Args(["ls"], rs2), [], input);
    assert ParseStage(toks, input, env) == Done(c, [], input);
    StageIsCommand(toks, input, env);
    assert PipesComplete(c) && CheckMultipleRedirection(Some(c));
    ParseWhole(toks, input, env, c, input);
  }

  lemma RedirectionTokens(toks: seq<Token>, t2: seq<Token>, t3: seq<Token>)
    requires toks == [Token(RedOut, ">"), W("o"), W("ls"), Token(RedIn, "<"), W("i")]
    requires t2 == toks[2..] && t3 == toks[3..]
    ensures toks[0].kind == RedOut && toks[1] == W("o") && !IsRedirect(toks[2].kind) && toks[2..] == t2
    ensures t2[0] == W("ls") && t2[1..] == t3
    ensures |t3| == 2 && t3[0].kind == RedIn && t3[1] == W("i") && t3[2..] == []
  {
  }

  /** A stage that fails makes the whole line fail. */
  lemma StageFails(toks: seq<Token>, input: seq<string>, env: Env)
    requires toks != [] && ParseStage(toks, input, env).Fail?
    ensures Parse(toks, input, env).cmd.None?
  {
    assert ParsePipeline(toks, input, env).Fail?;
    assert ParseAndOr(toks, input, env).Fail?;
    assert ParseCommand(toks, input, env).Fail?;
  }

  /** `( a ; ) > f`: a command list in parentheses may end in `;` before the
      `)`, and redirections after the `)` apply to the SUBCMD node. */
  lemma SubCommandExample(input: seq<string>, env: Env)
    ensures Parse([Token(ParLeft, "("), W("a"), Token(SepEnd, ";"), Token(ParRight, ")"), Token(RedOut, ">"), W("f")], input, env)
         == Parsed(Some(Cmd(SubCmd, [], NoKind, None, RedOut, Some("f"), Some(Node(SepEnd, SimpleNode(["a"]), None)), None)), input)
  {
    var toks := [Token(ParLeft, "("), W("a"), Token(SepEnd, ";"), Token(ParRight, ")"), Token(RedOut, ">"), W("f")];
    var c := Cmd(SubCmd, [], NoKind, None, RedOut, Some("f"), Some(Node(SepEnd, SimpleNode(["a"]), None)), None);
    SubCommandStage(toks, input, env);
    StageIsCommand(toks, input, env);
    SimpleChecks(["a"]);
    assert PipesComplete(c) && CheckMultipleRedirection(Some(c));
    ParseWhole(toks, input, env, c, input);
  }

  lemma SubCommandStage(toks: seq<Token>, input: seq<string>, env: Env)
    requires toks == [Token(ParLeft, "("), W("a"), Token(SepEnd, ";"), Token(ParRight, ")"), Token(RedOut, ">"), W("f")]
    ensures ParseStage(toks, input, env)
         == Done(Cmd(SubCmd, [], NoKind, None, RedOut, Some("f"), Some(Node(SepEnd, SimpleNode(["a"]), None)), None), [], input)
  {
    var t3 := toks[3..];
    var inner := Node(SepEnd, SimpleNode(["a"]), None);
    SubCommandInner(toks[1..], input, env);
    assert toks[1..][2..] == t3;
    CloseToFile(inner, t3, input, env);
    StageParen(toks, input, env);
    SubCommandStep(toks, NoRedirs, input, env, inner, t3, input);
  }

  lemma CloseToFile(inner: Cmd, t3: seq<Token>, input: seq<string>, env: Env)
    requires inner == Node(SepEnd, SimpleNode(["a"]), None)
    requires t3 == [Token(ParRight, ")"), Token(RedOut, ">"), W("f")]
    ensures CloseSubCommand(inner, t3, NoRedirs, input, env)
         == Done(Cmd(SubCmd, [], NoKind, None, RedOut, Some("f"), Some(inner), None), [], input)
  {
    var t4 := t3[1..];
    assert |t4| == 2 && t4[0].kind == RedOut && t4[1] == W("f") && t4[2..] == [];
    SingleRedirection(t4, NoRedirs, input, env);
    CloseStep(inner, t3, NoRedirs, input, env, Redirs(None, Some(Redirection(RedOut, "f"))), [], input);
  }

  lemma StageParen(toks: seq<Token>, input: seq<string>, env: Env)
    requires toks != [] && toks[0].kind == ParLeft
    ensures ParseStage(toks, input, env) == SubCommand(toks, NoRedirs, input, env)
  {
    NoRedirections(toks, NoRedirs, input, env);
  }

  /** Tokens that do not start with a redirection leave the slots and the
      tokens as they are. */
  lemma NoRedirections(toks: seq<Token>, rs: Redirs, input: seq<string>, env: Env)
    requires toks == [] || !IsRedirect(toks[0].kind)
    ensures Redirections(toks, rs, input, env) == Done(rs, toks, input)
  {
  }

  lemma SubCommandStep(toks: seq<Token>, rs: Redirs, input: seq<string>, env: Env, inner: Cmd, rest: seq<Token>, i: seq<string>)
    requires toks != [] && toks[0].kind == ParLeft
    requires ParseCommand(toks[1..], input, env) == Done(inner, rest, i)
    ensures SubCommand(toks, rs, input, env) == CloseSubCommand(inner, rest, rs, i, env)
  {
  }

  lemma CloseStep(inner: Cmd, toks: seq<Token>, rs: Redirs, input: seq<string>, env: Env, rs2: Redirs, rest: seq<Token>, i: seq<string>)
    requires IsCommand(inner) && PipesComplete(inner)
    requires toks != [] && toks[0].kind == ParRight
    requires Redirections(toks[1..], rs, input, env) == Done(rs2, rest, i)
    ensures CloseSubCommand(inner, toks, rs, input, env)
         == Done(ApplyRedirection(EmptyCmd.(kind := SubCmd, left := Some(inner)), rs2), rest, i)
  {
  }

  lemma SubCommandInner(t1: seq<Token>, input: seq<string>, env: Env)
    requires t1 == [W("a"), Token(SepEnd, ";"), Token(ParRight, ")"), Token(RedOut, ">"), W("f")]
    ensures ParseCommand(t1, input, env) == Done(Node(SepEnd, SimpleNode(["a"]), None), t1[2..], input)
  {
    var t2 := t1[1..];
    assert t1[0] == W("a") && t2[0].kind == SepEnd && t2[1..] == t1[2..] && t2[1].kind == ParRight;
    WordAndOr("a", t1, input, env);
    CommandLast(t1, input, env, SimpleNode(["a"]), t2, input);
  }

  /** `( a`: without its `)` a subcommand fails, and so does the line. */
  lemma MissingParenExample(input: seq<string>, env: Env)
    ensures Parse([Token(ParLeft, "("), W("a")], input, env).cmd.None?
  {
    var toks := [Token(ParLeft, "("), W("a")];
    var t1 := toks[1..];
    SingleWordTokens(toks, t1);
    OneWordCommand("a", t1, input, env);
    StageParen(toks, input, env);
    UnclosedSubCommand(toks, NoRedirs, input, env);
    StageFails(toks, input, env);
  }

  /** A line of one word. */
  lemma OneWordCommand(w: string, toks: seq<Token>, input: seq<string>, env: Env)
    requires |toks| == 1 && toks[0] == W(w)
    ensures ParseCommand(toks, input, env) == Done(SimpleNode([w]), [], input)
  {
    assert toks[1..] == [];
    WordStage(w, toks, input, env);
    StageIsCommand(toks, input, env);
  }

  /** A subcommand whose inner command uses up every token has no `)`. */
  lemma UnclosedSubCommand(toks: seq<Token>, rs: Redirs, input: seq<string>, env: Env)
    requires toks != [] && toks[0].kind == ParLeft
    requires ParseCommand(toks[1..], input, env).Done? && ParseCommand(toks[1..], input, env).rest == []
    ensures SubCommand(toks, rs, input, env).Fail?
  {
  }

  lemma SingleWordTokens(toks: seq<Token>, t1: seq<Token>)
    requires toks == [Token(ParLeft, "("), W("a")] && t1 == toks[1..]
    ensures |t1| == 1 && t1[0] == W("a")
  {
  }

  // ---------------------------------------------------------------------------
  // checkMultipleRedirection

  /** The stages of a pipeline, left to right. */
  function Stages(c: Cmd): (s: seq<Cmd>)
    requires PipesComplete(c)
    ensures |s| >= 1 && forall i :: 0 <= i < |s| ==> PipesComplete(s[i])
    decreases c
  {
    if IsPipe(c.kind) then [c.left.value] + Stages(c.right.value) else [c]
  }

  /** Where two stages meet at a pipe, the first has no output redirection
      and the second no input redirection. */
  predicate PipeJointsFree(s: seq<Cmd>) {
    (forall i :: 0 <= i < |s| - 1 ==> s[i].toType == NoKind)
    && (forall i :: 1 <= i < |s| ==> s[i].fromType == NoKind)
  }

  predicate AllChecked(s: seq<Cmd>)
    requires forall i :: 0 <= i < |s| ==> PipesComplete(s[i])
  {
    forall i :: 0 <= i < |s| ==> CheckMultipleRedirection(Some(s[i]))
  }

  /** checkMultipleRedirection accepts a pipeline exactly when no stage is
      redirected on a side the pipe already connects, and every stage passes
      the check on its own (a subcommand holds pipelines of its own). */
  lemma {:induction false} PipelineCheck(c: Cmd)
    requires IsPipeline(c) && PipesComplete(c)
    ensures CheckMultipleRedirection(Some(c)) <==> PipeJointsFree(Stages(c)) && AllChecked(Stages(c))
    decreases c
  {
    if IsPipe(c.kind) {
      assert !IsStage(c);
      var l, r := c.left.value, c.right.value;
      assert IsStage(l) && IsPipeline(r) && PipesComplete(r) && PipesComplete(l);
      PipelineCheck(r);
      var sr := Stages(r);
      var s := Stages(c);
      assert s == [l] + sr;
      assert sr[0] == if IsPipe(r.kind) then r.left.value else r;
      assert CheckMultipleRedirection(Some(c)) == (l.toType == NoKind && sr[0].fromType == NoKind
        && CheckMultipleRedirection(Some(l)) && CheckMultipleRedirection(Some(r)));
      JointsCons(l, sr);
      CheckedCons(l, sr);
    } else {
      var s := Stages(c);
      assert s == [c] && s[0] == c;
      assert PipeJointsFree(s);
      assert AllChecked(s) <==> CheckMultipleRedirection(Some(c));
    }
  }

  /** No node of the tree redirects its input or its output. */
  predicate Unredirected(c: Cmd)
    decreases c
  {
    && c.fromType == NoKind && c.toType == NoKind
    && (c.left.Some? ==> Unredirected(c.left.value))
    && (c.right.Some? ==> Unredirected(c.right.value))
  }

  /** checkMultipleRedirection rejects only redirections: a command tree of
      any shape in which no node is redirected passes it. */
  lemma {:induction false} UnredirectedPasses(c: Cmd)
    requires PipesComplete(c) && Unredirected(c)
    ensures CheckMultipleRedirection(Some(c))
    decreases c
  {
    if c.left.Some? {
      UnredirectedPasses(c.left.value);
    }
    if c.right.Some? {
      UnredirectedPasses(c.right.value);
    }
    if IsPipe(c.kind) {
      var l, r := c.left.value, c.right.value;
      assert l.toType == NoKind;
      if IsPipe(r.kind) {
        assert Unredirected(r.left.value);
      }
    }
  }

  /** The joints of l in front of a non-empty pipeline: l's output and the
      next stage's input, then the joints of the rest. */
  lemma JointsCons(l: Cmd, sr: seq<Cmd>)
    requires sr != []
    ensures PipeJointsFree([l] + sr) <==> l.toType == NoKind && sr[0].fromType == NoKind && PipeJointsFree(sr)
  {
    var s := [l] + sr;
    if PipeJointsFree(s) {
      assert s[0] == l && s[1] == sr[0];
      forall i | 0 <= i < |sr| - 1 ensures sr[i].toType == NoKind {
        assert s[i + 1] == sr[i];
      }
      forall i | 1 <= i < |sr| ensures sr[i].fromType == NoKind {
        assert s[i + 1] == sr[i];
      }
    }
    if l.toType == NoKind && sr[0].fromType == NoKind && PipeJointsFree(sr) {
      forall i | 0 <= i < |s| - 1 ensures s[i].toType == NoKind {
        if i > 0 {
          assert s[i] == sr[i - 1];
        }
      }
      forall i | 1 <= i < |s| ensures s[i].fromType == NoKind {
        assert s[i] == sr[i - 1];
      }
    }
  }

  /** Every stage of l in front of sr passes exactly when l and all of sr do. */
  lemma CheckedCons(l: Cmd, sr: seq<Cmd>)
    requires PipesComplete(l) && forall i :: 0 <= i < |sr| ==> PipesComplete(sr[i])
    ensures forall i :: 0 <= i < |[l] + sr| ==> PipesComplete(([l] + sr)[i])
    ensures AllChecked([l] + sr) <==> CheckMultipleRedirection(Some(l)) && AllChecked(sr)
  {
    var s := [l] + sr;
    assert forall i :: 0 <= i < |sr| ==> s[i + 1] == sr[i];
    assert s[0] == l;
  }

  /** `a > f | b`: the output of a cannot go both to f and into the pipe. */
  lemma PipeConflictExample(input: seq<string>, env: Env)
    ensures Parse([W("a"), Token(RedOut, ">"), W("f"), Token(Pipe, "|"), W("b")], input, env).cmd.None?
  {
    var toks := [W("a"), Token(RedOut, ">"), W("f"), Token(Pipe, "|"), W("b")];
    var t1, t3, t4 := toks[1..], toks[3..], toks[4..];
    PipeConflictTokens(toks, t1, t3, t4);
    var a := Cmd(Simple, ["a"], NoKind, None, RedOut, Some("f"), None, None);
    var b := SimpleNode(["b"]);
    PipeConflictStage(toks, t1, t3, input, env);
    WordStage("b", t4, input, env);
    PipelineOne(t4, input, env, b, [], input);
    var tree := Node(Pipe, a, Some(b));
    PipelineMore(toks, input, env, a, t3, input, b, [], input);
    AndOrOne(toks, input, env, tree, [], input);
    CommandOne(toks, input, env, tree, [], input);
    assert !CheckMultipleRedirection(Some(tree));
  }

  /** `a > f` before a pipe: a SIMPLE stage with its output redirected. */
  lemma PipeConflictStage(toks: seq<Token>, t1: seq<Token>, t3: seq<Token>, input: seq<string>, env: Env)
    requires toks != [] && toks[0] == W("a") && toks[1..] == t1
    requires |t1| >= 2 && t1[0].kind == RedOut && t1[1] == W("f") && t1[2..] == t3
    requires t3 != [] && t3[0].kind == Pipe
    ensures ParseStage(toks, input, env) == Done(Cmd(Simple, ["a"], NoKind, None, RedOut, Some("f"), None, None), t3, input)
  {
    var rs := Redirs(None, Some(Redirection(RedOut, "f")));
    SingleRedirection(t1, NoRedirs, input, env);
    StageSimple(toks, input, env);
    ArgsFirstWord(toks, NoRedirs, input, env);
    ArgsRedirect(t1, ["a"], NoRedirs, input, env, rs, t3, input);
    ArgsEnd(t3, ["a"], rs, input, env);
    assert SimpleCommand(toks, NoRedirs, input, env) == Done(Args(["a"], rs), t3, input);
  }

  lemma PipeConflictTokens(toks: seq<Token>, t1: seq<Token>, t3: seq<Token>, t4: seq<Token>)
    requires toks == [W("a"), Token(RedOut, ">"), W("f"), Token(Pipe, "|"), W("b")]
    requires t1 == toks[1..] && t3 == toks[3..] && t4 == toks[4..]
    ensures toks[0] == W("a") && toks[1..] == t1 && t1[0].kind == RedOut && t1[1] == W("f") && t1[2..] == t3
    ensures t3[0].kind == Pipe && t3[1..] == t4 && t4[0] == W("b") && t4[1..] == []
    ensures EndsSimple([])
  {
  }

  // ---------------------------------------------------------------------------
  // A line of redirections only

  /** What parseStage does after its leading redirections, as parse.c:383 is
      written: it branches on the type of the next token, which it reads even
      when the redirections used up every token (a NULL token). None when the
      redirections themselves fail. */
  datatype StageStep = ReadsNullToken | OpensSubCmd | StartsSimple

  function StageStepAsWritten(toks: seq<Token>, input: seq<string>, env: Env): (s: Option<StageStep>)
    ensures s == Some(ReadsNullToken) <==>
      Redirections(toks, NoRedirs, input, env).Done? && Redirections(toks, NoRedirs, input, env).rest == []
  {
    match Redirections(toks, NoRedirs, input, env)
    case Fail(_) => None
    case Done(_, rest, _) =>
      if rest == [] then Some(ReadsNullToken)
      else if rest[0].kind == ParLeft then Some(OpensSubCmd)
      else Some(StartsSimple)
  }

  /** `< f` on its own: the source reads the type of a token that does not
      exist. */
  lemma RedirectionOnlyLine(input: seq<string>, env: Env)
    ensures StageStepAsWritten([Token(RedIn, "<"), W("f")], input, env) == Some(ReadsNullToken)
  {
    SingleRedirection([Token(RedIn, "<"), W("f")], NoRedirs, input, env);
  }

  /** In the model, a line whose leading redirections use up every token is
      rejected like any other malformed line. */
  lemma RedirectionsOnlyRejected(toks: seq<Token>, input: seq<string>, env: Env)
    requires toks != [] && Redirections(toks, NoRedirs, input, env).Done?
    requires Redirections(toks, NoRedirs, input, env).rest == []
    ensures ParseStage(toks, input, env).Fail? && Parse(toks, input, env).cmd.None?
  {
    StageFails(toks, input, env);
  }
}

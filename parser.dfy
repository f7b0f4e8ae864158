/**
 * parse.c: recursive descent from a token sequence to a command tree.
 *
 *   <command>  ::= <and-or> { (";" | "&") <and-or> } [";" | "&"]
 *   <and-or>   ::= <pipeline> { ("&&" | "||") <pipeline> }
 *   <pipeline> ::= <stage> { ("|" | "|&") <stage> }
 *   <stage>    ::= <redirect>* ( <simple> | "(" <command> ")" <redirect>* )
 *   <simple>   ::= SIMPLE { SIMPLE | <redirect> }
 *
 * Every parseX function returns the unconsumed tokens together with the
 * tree it built, or fails. Here documents read their lines from `input`
 * (the lines standard input would deliver) and expand them in `env`; the
 * unread lines are returned on success and on failure alike.
 */
module Parser {
  import opened Wrappers
  import opened Tokenizer
  import opened HereDoc

  // ---------------------------------------------------------------------------
  // Data

  /** A redirection: its operator and its file (or here-document text). */
  datatype Redirection = Redirection(kind: Kind, file: string)

  /** The stdin and stdout redirections collected for one stage; None is the
      source's NULL. */
  datatype Redirs = Redirs(redIn: Option<Redirection>, redOut: Option<Redirection>)

  const NoRedirs := Redirs(None, None)

  /** The CMD node. argc is |argv|; the NULL that ends the C argv array is
      implicit. */
  datatype Cmd = Cmd(
    kind: Kind,
    argv: seq<string>,
    fromType: Kind, fromFile: Option<string>,
    toType: Kind, toFile: Option<string>,
    left: Option<Cmd>, right: Option<Cmd>)

  /** mallocCMD: every field at its default. */
  const EmptyCmd := Cmd(NoKind, [], NoKind, None, NoKind, None, None, None)

  /** The words of a simple command with the redirections gathered so far. */
  datatype Args = Args(argv: seq<string>, redirs: Redirs)

  /** What a parse step gives back: failure (the NULL return), or a value and
      the tokens after it. Both carry the input lines still unread. */
  datatype Outcome<T> =
    | Fail(input: seq<string>)
    | Done(value: T, rest: seq<Token>, input: seq<string>)

  predicate IsInRedirect(k: Kind) {
    k == RedIn || k == RedHere
  }

  predicate IsOutRedirect(k: Kind) {
    k == RedOut || k == RedOutC || k == RedOutApp || k == RedOutAppC
    || k == RedErr || k == RedErrC || k == RedErrApp || k == RedErrAppC
  }

  predicate IsRedirect(k: Kind) {
    IsInRedirect(k) || IsOutRedirect(k)
  }

  predicate IsPipe(k: Kind) {
    k == Pipe || k == PipeErr
  }

  /** rest is what is left of toks after a prefix was consumed. */
  predicate SuffixOf(rest: seq<Token>, toks: seq<Token>) {
    rest == toks || (|rest| < |toks| && rest == toks[|toks| - |rest|..])
  }

  /** Each slot holds a redirection of its own direction. */
  predicate RedirsOk(rs: Redirs) {
    (rs.redIn.Some? ==> IsInRedirect(rs.redIn.value.kind))
    && (rs.redOut.Some? ==> IsOutRedirect(rs.redOut.value.kind))
  }

  lemma SuffixTrans(a: seq<Token>, b: seq<Token>, c: seq<Token>)
    requires SuffixOf(a, b) && SuffixOf(b, c)
    ensures SuffixOf(a, c)
  {
    if a != b && b != c {
      assert c[|c| - |b|..][|b| - |a|..] == c[|c| - |a|..];
    }
  }

  // ---------------------------------------------------------------------------
  // Redirections

  /** checkRedirection: consumes the redirections at the head of toks. */
  function Redirections(toks: seq<Token>, rs: Redirs, input: seq<string>, env: Env): (r: Outcome<Redirs>)
    ensures r.Done? ==> SuffixOf(r.rest, toks) && (r.rest == [] || !IsRedirect(r.rest[0].kind))
    ensures r.Done? && toks != [] && IsRedirect(toks[0].kind) ==> |r.rest| < |toks|
    ensures r.Done? && rs.redIn.Some? ==> r.value.redIn == rs.redIn
    ensures r.Done? && rs.redOut.Some? ==> r.value.redOut == rs.redOut
    ensures r.Done? && RedirsOk(rs) ==> RedirsOk(r.value)
    decreases |toks|
  {
    if toks == [] || !IsRedirect(toks[0].kind) then Done(rs, toks, input)
    else match OneRedirection(toks, rs, input, env)
      case Fail(i) => Fail(i)
      case Done(rs', rest, i) =>
        var r := Redirections(rest, rs', i, env);
        if r.Done? then
          SuffixTrans(r.rest, rest, toks);
          r
        else r
  }

  /** One pass of checkRedirection's loop, over the operator toks[0] and its
      operand: a second redirection of the same direction fails, and so does
      an operator without a SIMPLE token after it. `<` and the output
      operators take that token's text as the file; `<<` takes it as the
      terminating word of a here document read from input. */
  function OneRedirection(toks: seq<Token>, rs: Redirs, input: seq<string>, env: Env): (r: Outcome<Redirs>)
    requires toks != [] && IsRedirect(toks[0].kind)
    ensures r.Done? <==> (IsInRedirect(toks[0].kind) ==> rs.redIn.None?) && (IsOutRedirect(toks[0].kind) ==> rs.redOut.None?)
                         && |toks| >= 2 && toks[1].kind == Simple
    ensures r.Fail? ==> r.input == input
    ensures r.Done? ==> r.rest == toks[2..] && SuffixOf(r.rest, toks)
    ensures r.Done? && toks[0].kind != RedHere ==> r.input == input
    ensures r.Done? && IsInRedirect(toks[0].kind) ==>
      r.value.redOut == rs.redOut && r.value.redIn.Some? && r.value.redIn.value.kind == toks[0].kind
    ensures r.Done? && IsOutRedirect(toks[0].kind) ==>
      r.value.redIn == rs.redIn && r.value.redOut == Some(Redirection(toks[0].kind, toks[1].text))
    ensures r.Done? && toks[0].kind == RedIn ==> r.value.redIn == Some(Redirection(RedIn, toks[1].text)) && r.input == input
    ensures r.Done? && toks[0].kind == RedHere ==>
      var h := HereDocument(toks[1].text, input, env);
      r.value.redIn == Some(Redirection(RedHere, h.doc)) && r.input == h.rest
  {
    var k := toks[0].kind;
    if IsInRedirect(k) && rs.redIn.Some? then Fail(input)
    else if IsOutRedirect(k) && rs.redOut.Some? then Fail(input)
    else if |toks| < 2 || toks[1].kind != Simple then Fail(input)
    else if k == RedHere then
      var h := HereDocument(toks[1].text, input, env);
      Done(rs.(redIn := Some(Redirection(k, h.doc))), toks[2..], h.rest)
    else if k == RedIn then
      Done(rs.(redIn := Some(Redirection(k, toks[1].text))), toks[2..], input)
    else
      Done(rs.(redOut := Some(Redirection(k, toks[1].text))), toks[2..], input)
  }

  /** Redirections takes one operator and its operand, then goes on. */
  lemma RedirectionsStep(toks: seq<Token>, rs: Redirs, input: seq<string>, env: Env)
    requires toks != [] && IsRedirect(toks[0].kind)
    ensures var o := OneRedirection(toks, rs, input, env);
      Redirections(toks, rs, input, env) == if o.Fail? then Fail(o.input) else Redirections(o.rest, o.value, o.input, env)
  {
  }

  /** checkRedirection as the source runs it: a loop that advances tok and
      fills the two slots. */
  method CheckRedirection(toks: seq<Token>, rs: Redirs, input: seq<string>, env: Env) returns (r: Outcome<Redirs>)
    ensures r == Redirections(toks, rs, input, env)
  {
    var tok := toks;
    var redIn, redOut := rs.redIn, rs.redOut;
    var inp := input;
    while tok != [] && IsRedirect(tok[0].kind)
      invariant Redirections(toks, rs, input, env) == Redirections(tok, Redirs(redIn, redOut), inp, env)
      decreases |tok|
    {
      var kind := tok[0].kind;
      ghost var o := OneRedirection(tok, Redirs(redIn, redOut), inp, env);
      RedirectionsStep(tok, Redirs(redIn, redOut), inp, env);
      if IsInRedirect(kind) {
        if redIn.Some? {
          return Fail(inp);
        }
        if |tok| < 2 || tok[1].kind != Simple {
          return Fail(inp);
        }
        if kind == RedIn {
          redIn := Some(Redirection(kind, tok[1].text));
        } else {
          var doc, rest := ReadHereDocument(tok[1].text, inp, env);
          redIn := Some(Redirection(kind, doc));
          inp := rest;
        }
      } else {
        if redOut.Some? {
          return Fail(inp);
        }
        if |tok| < 2 || tok[1].kind != Simple {
          return Fail(inp);
        }
        redOut := Some(Redirection(kind, tok[1].text));
      }
      assert o.Done? && Redirs(redIn, redOut) == o.value && inp == o.input;
      tok := tok[2..];
    }
    return Done(Redirs(redIn, redOut), tok, inp);
  }

  /** applyRedirection: the collected redirections go into the command's
      from and to fields; an empty slot leaves its fields alone. */
  function ApplyRedirection(c: Cmd, rs: Redirs): (r: Cmd)
    ensures r.kind == c.kind && r.argv == c.argv && r.left == c.left && r.right == c.right
    ensures rs.redIn.Some? ==> r.fromType == rs.redIn.value.kind && r.fromFile == Some(rs.redIn.value.file)
    ensures rs.redIn.None? ==> r.fromType == c.fromType && r.fromFile == c.fromFile
    ensures rs.redOut.Some? ==> r.toType == rs.redOut.value.kind && r.toFile == Some(rs.redOut.value.file)
    ensures rs.redOut.None? ==> r.toType == c.toType && r.toFile == c.toFile
  {
    var c1 := if rs.redIn.Some? then c.(fromType := rs.redIn.value.kind, fromFile := Some(rs.redIn.value.file)) else c;
    if rs.redOut.Some? then c1.(toType := rs.redOut.value.kind, toFile := Some(rs.redOut.value.file)) else c1
  }

  // ---------------------------------------------------------------------------
  // Simple commands

  /** The loop of parseSimple from toks on, with the words read so far: a
      SIMPLE token adds a word, a redirection operator hands over to
      checkRedirection, anything else ends the command. */
  function SimpleArgs(toks: seq<Token>, argv: seq<string>, rs: Redirs, input: seq<string>, env: Env): (r: Outcome<Args>)
    ensures r.Done? ==> SuffixOf(r.rest, toks)
    ensures r.Done? ==> r.rest == [] || (r.rest[0].kind != Simple && !IsRedirect(r.rest[0].kind))
    ensures r.Done? ==> |argv| <= |r.value.argv|
    ensures r.Done? && toks != [] && toks[0].kind == Simple ==> |r.rest| < |toks| && |r.value.argv| > |argv|
    ensures r.Done? && toks != [] && IsRedirect(toks[0].kind) ==> |r.rest| < |toks|
    ensures r.Done? && RedirsOk(rs) ==> RedirsOk(r.value.redirs)
    decreases |toks|
  {
    if toks != [] && toks[0].kind == Simple then
      var r := SimpleArgs(toks[1..], argv + [toks[0].text], rs, input, env);
      if r.Done? then
        SuffixTrans(r.rest, toks[1..], toks);
        r
      else r
    else if toks != [] && IsRedirect(toks[0].kind) then
      match Redirections(toks, rs, input, env)
      case Fail(i) => Fail(i)
      case Done(rs', rest, i) =>
        var r := SimpleArgs(rest, argv, rs', i, env);
        if r.Done? then
          SuffixTrans(r.rest, rest, toks);
          r
        else r
    else Done(Args(argv, rs), toks, input)
  }

  /** parseSimple: a simple command must start with a SIMPLE token. */
  function SimpleCommand(toks: seq<Token>, rs: Redirs, input: seq<string>, env: Env): (r: Outcome<Args>)
    ensures r.Done? ==> |r.value.argv| > 0 && SuffixOf(r.rest, toks) && |r.rest| < |toks|
    ensures r.Done? ==> r.rest == [] || (r.rest[0].kind != Simple && !IsRedirect(r.rest[0].kind))
    ensures r.Done? && RedirsOk(rs) ==> RedirsOk(r.value.redirs)
  {
    if toks == [] || toks[0].kind != Simple then Fail(input)
    else SimpleArgs(toks, [], rs, input, env)
  }

  /** parseSimple as the source runs it: argv grows by one word per SIMPLE
      token (argc is its length). */
  method ParseSimple(toks: seq<Token>, rs: Redirs, input: seq<string>, env: Env) returns (r: Outcome<Args>)
    ensures r == SimpleCommand(toks, rs, input, env)
  {
    if toks == [] || toks[0].kind != Simple {
      return Fail(input);
    }
    var argv: seq<string> := [];
    var tok := toks;
    var cur := rs;
    var inp := input;
    while tok != [] && (tok[0].kind == Simple || IsRedirect(tok[0].kind))
      invariant SimpleCommand(toks, rs, input, env) == SimpleArgs(tok, argv, cur, inp, env)
      decreases |tok|
    {
      if tok[0].kind == Simple {
        argv := argv + [tok[0].text];
        tok := tok[1..];
      } else {
        var o := CheckRedirection(tok, cur, inp, env);
        if o.Fail? {
          return Fail(o.input);
        }
        cur, tok, inp := o.value, o.rest, o.input;
      }
    }
    return Done(Args(argv, cur), tok, inp);
  }

  // ---------------------------------------------------------------------------
  // The shape of a parsed command

  /** No words and no redirections: the fields of an operator node. */
  predicate Bare(c: Cmd) {
    c.argv == [] && c.fromType == NoKind && c.fromFile.None? && c.toType == NoKind && c.toFile.None?
  }

  /** A stage's redirection fields: set together, each of its own direction. */
  predicate RedirectionFields(c: Cmd) {
    (c.fromType == NoKind <==> c.fromFile.None?) && (c.fromType == NoKind || IsInRedirect(c.fromType))
    && (c.toType == NoKind <==> c.toFile.None?) && (c.toType == NoKind || IsOutRedirect(c.toType))
  }

  /** <stage>: a SIMPLE node with at least one word, or a SUBCMD node whose
      left child is a command. */
  predicate IsStage(c: Cmd)
    decreases c, 0
  {
    RedirectionFields(c) && c.right.None?
    && ((c.kind == Simple && |c.argv| > 0 && c.left.None?)
        || (c.kind == SubCmd && c.argv == [] && c.left.Some? && IsCommand(c.left.value)))
  }

  /** <pipeline>: a stage, or a pipe node with a stage on the left and a
      pipeline on the right. */
  predicate IsPipeline(c: Cmd)
    decreases c, 1
  {
    IsStage(c)
    || (IsPipe(c.kind) && Bare(c) && c.left.Some? && c.right.Some?
        && IsStage(c.left.value) && IsPipeline(c.right.value))
  }

  /** <and-or>: a pipeline, or an && / || node with a pipeline on the left
      and an and-or on the right. */
  predicate IsAndOr(c: Cmd)
    decreases c, 2
  {
    IsPipeline(c)
    || ((c.kind == SepAnd || c.kind == SepOr) && Bare(c) && c.left.Some? && c.right.Some?
        && IsPipeline(c.left.value) && IsAndOr(c.right.value))
  }

  /** <command>: an and-or, or a ; / & node with an and-or on the left and,
      optionally, a command on the right. */
  predicate IsCommand(c: Cmd)
    decreases c, 3
  {
    IsAndOr(c)
    || ((c.kind == SepEnd || c.kind == SepBg) && Bare(c) && c.left.Some?
        && IsAndOr(c.left.value) && (c.right.Some? ==> IsCommand(c.right.value)))
  }

  /** Every pipe node has both children, which checkMultipleRedirection
      relies on. */
  predicate PipesComplete(c: Cmd)
    decreases c
  {
    (IsPipe(c.kind) ==> c.left.Some? && c.right.Some?)
    && (c.left.Some? ==> PipesComplete(c.left.value))
    && (c.right.Some? ==> PipesComplete(c.right.value))
  }

  /** An operator node over left and right. */
  function Node(k: Kind, left: Cmd, right: Option<Cmd>): Cmd {
    EmptyCmd.(kind := k, left := Some(left), right := right)
  }

  // ---------------------------------------------------------------------------
  // Recursive descent

  lemma PipeNode(k: Kind, left: Cmd, right: Cmd)
    requires IsPipe(k) && IsStage(left) && PipesComplete(left) && IsPipeline(right) && PipesComplete(right)
    ensures IsPipeline(Node(k, left, Some(right))) && PipesComplete(Node(k, left, Some(right)))
  {
  }

  lemma AndOrNode(k: Kind, left: Cmd, right: Cmd)
    requires (k == SepAnd || k == SepOr) && IsPipeline(left) && PipesComplete(left)
    requires IsAndOr(right) && PipesComplete(right)
    ensures IsAndOr(Node(k, left, Some(right))) && PipesComplete(Node(k, left, Some(right)))
  {
    assert !IsPipeline(Node(k, left, Some(right)));
  }

  lemma ListNode(k: Kind, left: Cmd, right: Option<Cmd>)
    requires (k == SepEnd || k == SepBg) && IsAndOr(left) && PipesComplete(left)
    requires right.Some? ==> IsCommand(right.value) && PipesComplete(right.value)
    ensures IsCommand(Node(k, left, right)) && PipesComplete(Node(k, left, right))
  {
  }


  /** parseStage: leading redirections, then either `(` command `)` with
      more redirections, or a simple command. Redirections that consume every
      token leave no stage: that is a failure here (the source reads the type
      of a NULL token at this point). */
  function ParseStage(toks: seq<Token>, input: seq<string>, env: Env): (r: Outcome<Cmd>)
    ensures r.Done? ==> SuffixOf(r.rest, toks) && |r.rest| < |toks|
    ensures r.Done? ==> IsStage(r.value) && PipesComplete(r.value)
    decreases |toks|, 1
  {
    if toks == [] then Fail(input)
    else match Redirections(toks, NoRedirs, input, env)
      case Fail(i) => Fail(i)
      case Done(rs, rest, i) =>
        var r :=
          if rest == [] then Fail(i)
          else if rest[0].kind == ParLeft then SubCommand(rest, rs, i, env)
          else SimpleStage(rest, rs, i, env);
        if r.Done? then
          SuffixTrans(r.rest, rest, toks);
          r
        else r
  }

  /** The `(` command `)` branch of parseStage, with the redirections read
      before the `(`: a missing `)` or a failed inner command fails. */
  function SubCommand(toks: seq<Token>, rs: Redirs, input: seq<string>, env: Env): (r: Outcome<Cmd>)
    requires toks != [] && toks[0].kind == ParLeft
    ensures r.Done? ==> SuffixOf(r.rest, toks) && |r.rest| < |toks|
    ensures r.Done? && RedirsOk(rs) ==> IsStage(r.value) && PipesComplete(r.value)
    decreases |toks|, 0
  {
    match ParseCommand(toks[1..], input, env)
    case Fail(i) => Fail(i)
    case Done(inner, rest, i) =>
      var r := CloseSubCommand(inner, rest, rs, i, env);
      if r.Done? then
        SuffixTrans(r.rest, rest, toks[1..]);
        SuffixTrans(r.rest, toks[1..], toks);
        r
      else r
  }

  /** After the inner command of a SUBCMD: the `)` and the redirections
      after it, which join those read before the `(`. */
  function CloseSubCommand(inner: Cmd, toks: seq<Token>, rs: Redirs, input: seq<string>, env: Env): (r: Outcome<Cmd>)
    requires IsCommand(inner) && PipesComplete(inner)
    ensures r.Done? ==> SuffixOf(r.rest, toks) && |r.rest| < |toks|
    ensures r.Done? && RedirsOk(rs) ==> IsStage(r.value) && PipesComplete(r.value)
  {
    if toks == [] || toks[0].kind != ParRight then Fail(input)
    else match Redirections(toks[1..], rs, input, env)
      case Fail(i) => Fail(i)
      case Done(rs2, rest, i) =>
        SuffixTrans(rest, toks[1..], toks);
        var c := ApplyRedirection(EmptyCmd.(kind := SubCmd, left := Some(inner)), rs2);
        if RedirsOk(rs) then SubCmdStage(inner, rs2, c); Done(c, rest, i)
        else Done(c, rest, i)
  }

  lemma SubCmdStage(inner: Cmd, rs: Redirs, c: Cmd)
    requires IsCommand(inner) && PipesComplete(inner) && RedirsOk(rs)
    requires c == ApplyRedirection(EmptyCmd.(kind := SubCmd, left := Some(inner)), rs)
    ensures IsStage(c) && PipesComplete(c)
  {
    assert RedirectionFields(c);
  }

  /** The simple-command branch of parseStage: the redirections read so far
      continue into parseSimple, and all of them are applied. */
  function SimpleStage(toks: seq<Token>, rs: Redirs, input: seq<string>, env: Env): (r: Outcome<Cmd>)
    ensures r.Done? ==> SuffixOf(r.rest, toks) && |r.rest| < |toks|
    ensures r.Done? && RedirsOk(rs) ==> IsStage(r.value) && PipesComplete(r.value)
  {
    match SimpleCommand(toks, rs, input, env)
    case Fail(i) => Fail(i)
    case Done(args, rest, i) =>
      Done(ApplyRedirection(EmptyCmd.(kind := Simple, argv := args.argv), args.redirs), rest, i)
  }

  /** parsePipeline: a stage, and after `|` or `|&` a pipeline, which makes
      the tree right-nested. */
  function ParsePipeline(toks: seq<Token>, input: seq<string>, env: Env): (r: Outcome<Cmd>)
    ensures r.Done? ==> SuffixOf(r.rest, toks) && |r.rest| < |toks|
    ensures r.Done? ==> IsPipeline(r.value) && PipesComplete(r.value)
    decreases |toks|, 2
  {
    if toks == [] then Fail(input)
    else match ParseStage(toks, input, env)
      case Fail(i) => Fail(i)
      case Done(stage, rest, i) =>
        if rest == [] || !IsPipe(rest[0].kind) then Done(stage, rest, i)
        else match ParsePipeline(rest[1..], i, env)
          case Fail(i2) => Fail(i2)
          case Done(right, rest2, i2) =>
            SuffixTrans(rest2, rest[1..], rest);
            SuffixTrans(rest2, rest, toks);
            PipeNode(rest[0].kind, stage, right);
            Done(Node(rest[0].kind, stage, Some(right)), rest2, i2)
  }

  /** parseAndOr: a pipeline, and after `&&` or `||` an and-or. */
  function ParseAndOr(toks: seq<Token>, input: seq<string>, env: Env): (r: Outcome<Cmd>)
    ensures r.Done? ==> SuffixOf(r.rest, toks) && |r.rest| < |toks|
    ensures r.Done? ==> IsAndOr(r.value) && PipesComplete(r.value)
    decreases |toks|, 3
  {
    if toks == [] then Fail(input)
    else match ParsePipeline(toks, input, env)
      case Fail(i) => Fail(i)
      case Done(pipeline, rest, i) =>
        if rest == [] || (rest[0].kind != SepAnd && rest[0].kind != SepOr) then Done(pipeline, rest, i)
        else match ParseAndOr(rest[1..], i, env)
          case Fail(i2) => Fail(i2)
          case Done(right, rest2, i2) =>
            SuffixTrans(rest2, rest[1..], rest);
            SuffixTrans(rest2, rest, toks);
            AndOrNode(rest[0].kind, pipeline, right);
            Done(Node(rest[0].kind, pipeline, Some(right)), rest2, i2)
  }

  /** parseCommand: an and-or, and after `;` or `&` a command unless the
      tokens end or a `)` follows; then the node has no right child. */
  function ParseCommand(toks: seq<Token>, input: seq<string>, env: Env): (r: Outcome<Cmd>)
    ensures r.Done? ==> SuffixOf(r.rest, toks) && |r.rest| < |toks|
    ensures r.Done? ==> IsCommand(r.value) && PipesComplete(r.value)
    decreases |toks|, 4
  {
    if toks == [] then Fail(input)
    else match ParseAndOr(toks, input, env)
      case Fail(i) => Fail(i)
      case Done(andor, rest, i) =>
        if rest == [] || (rest[0].kind != SepEnd && rest[0].kind != SepBg) then Done(andor, rest, i)
        else
          var after := rest[1..];
          SuffixTrans(after, rest, toks);
          if after != [] && after[0].kind != ParRight then
            match ParseCommand(after, i, env)
            case Fail(i2) => Fail(i2)
            case Done(right, rest2, i2) =>
              SuffixTrans(rest2, after, toks);
              ListNode(rest[0].kind, andor, Some(right));
              Done(Node(rest[0].kind, andor, Some(right)), rest2, i2)
          else
            ListNode(rest[0].kind, andor, None);
            Done(Node(rest[0].kind, andor, None), after, i)
  }

  // ---------------------------------------------------------------------------
  // The whole line

  /** checkMultipleRedirection: a pipe already redirects the output of the
      stage on its left and the input of the stage on its right, so neither
      may carry a redirection of that direction too. */
  function CheckMultipleRedirection(root: Option<Cmd>): bool
    requires root.Some? ==> PipesComplete(root.value)
    decreases root
  {
    match root
    case None => true
    case Some(c) =>
      var here :=
        if IsPipe(c.kind) then
          var r := c.right.value;
          assert PipesComplete(r);
          c.left.value.toType == NoKind
          && (if IsPipe(r.kind) then r.left.value.fromType == NoKind else r.fromType == NoKind)
        else true;
      here && CheckMultipleRedirection(c.left) && CheckMultipleRedirection(c.right)
  }

  /** The result of parse: the command (None for the NULL return) and the
      input lines still unread. */
  datatype Parsed = Parsed(cmd: Option<Cmd>, input: seq<string>)

  /** parse: an empty token list gives nothing; otherwise the command must
      use every token and pass checkMultipleRedirection. */
  function Parse(toks: seq<Token>, input: seq<string>, env: Env): (r: Parsed)
    ensures r.cmd.Some? ==> toks != [] && IsCommand(r.cmd.value) && PipesComplete(r.cmd.value)
    ensures r.cmd.Some? ==> CheckMultipleRedirection(r.cmd)
    ensures r.cmd.Some? ==> ParseCommand(toks, input, env) == Done(r.cmd.value, [], r.input)
  {
    if toks == [] then Parsed(None, input)
    else match ParseCommand(toks, input, env)
      case Fail(i) => Parsed(None, i)
      case Done(c, rest, i) =>
        if rest != [] || !CheckMultipleRedirection(Some(c)) then Parsed(None, i)
        else Parsed(Some(c), i)
  }
}

/**
 * Here documents (parse.c): the expansion of one here-document line
 * (readHereDocLine) and the reading of the lines up to the terminating word
 * (readHereDocument). The environment that getenv consults is a map, and the
 * lines getLine would read from standard input are a sequence.
 */
module HereDoc {
  import opened StrBuffers

  /** The environment: variable name to value. */
  type Env = map<string, string>

  /** A line as getLine returns it when a newline ended it. */
  predicate EndsInNewline(s: string) {
    |s| > 0 && s[|s| - 1] == '\n'
  }

  /** What a here-document line may be: empty (nothing left) or ended by a
      newline. */
  predicate Expandable(s: string) {
    s == [] || EndsInNewline(s)
  }

  /** '_' or an ASCII letter: what may follow '$' to start a name. */
  predicate IsNameStart(c: char) {
    c == '_' || ('A' <= c <= 'Z') || ('a' <= c <= 'z')
  }

  /** '_' or an ASCII letter or digit: what may continue a name. */
  predicate IsNameChar(c: char) {
    IsNameStart(c) || ('0' <= c <= '9')
  }

  /** getenv: the value of name, or nothing when it is unset. */
  function EnvValue(env: Env, name: string): string {
    if name in env then env[name] else ""
  }

  /** The end of the run of name characters that starts at i. */
  function NameEnd(s: string, i: nat): (j: nat)
    requires i <= |s|
    ensures i <= j <= |s|
    ensures forall k :: i <= k < j ==> IsNameChar(s[k])
    ensures j == |s| || !IsNameChar(s[j])
    decreases |s| - i
  {
    if i < |s| && IsNameChar(s[i]) then NameEnd(s, i + 1) else i
  }

  /** A name inside a line ends before its newline. */
  lemma NameInside(s: string, i: nat)
    requires EndsInNewline(s) && i < |s|
    ensures NameEnd(s, i) < |s|
  {
    assert NameEnd(s, i) == |s| ==> IsNameChar(s[|s| - 1]);
  }

  /** Where the piece of line s that starts at i ends: `$NAME` runs up to
      and including the character after the name; `$x` and `\x` are two
      characters; any other character stands alone. */
  function ChunkEnd(s: string, i: nat): (j: nat)
    requires Expandable(s) && i < |s|
    ensures i < j <= |s|
  {
    if s[i] == '$' && IsNameStart(s[i + 1]) then
      NameInside(s, i + 2);
      NameEnd(s, i + 2) + 1
    else if s[i] == '$' || s[i] == '\\' then i + 2
    else i + 1
  }

  /** What the piece of line s that starts at i expands to:
      - `$NAME` becomes the value of NAME, and the character that ends the
        name is copied as it is, without interpretation;
      - `$` followed by anything else is copied together with that character;
      - `\$` and `\\` become `$` and `\`; any other `\x` is copied whole;
      - every other character is copied. */
  function ChunkOut(s: string, i: nat, env: Env): string
    requires Expandable(s) && i < |s|
  {
    if s[i] == '$' then
      if IsNameStart(s[i + 1]) then
        NameInside(s, i + 2);
        var j := NameEnd(s, i + 2);
        EnvValue(env, s[i + 1..j]) + [s[j]]
      else ['$', s[i + 1]]
    else if s[i] == '\\' then
      if s[i + 1] == '$' || s[i + 1] == '\\' then [s[i + 1]] else ['\\', s[i + 1]]
    else [s[i]]
  }

  /** The expansion of line s from index i on, piece by piece. */
  function ExpandFrom(s: string, i: nat, env: Env): string
    requires Expandable(s) && i <= |s|
    decreases |s| - i, 1
  {
    if i == |s| then [] else ExpandPiece(s, i, env)
  }

  /** The piece at i, expanded, followed by the expansion of the rest. */
  function ExpandPiece(s: string, i: nat, env: Env): string
    requires Expandable(s) && i < |s|
    decreases |s| - i, 0
  {
    ChunkOut(s, i, env) + ExpandFrom(s, ChunkEnd(s, i), env)
  }

  /** The expansion from i is the piece at i followed by the expansion after
      it. */
  lemma ExpandStep(s: string, i: nat, env: Env)
    requires Expandable(s) && i < |s|
    ensures ExpandFrom(s, i, env) == ChunkOut(s, i, env) + ExpandFrom(s, ChunkEnd(s, i), env)
  {
  }

  /** The expansion of a whole line. */
  function Expand(s: string, env: Env): string
    requires Expandable(s)
  {
    ExpandFrom(s, 0, env)
  }

  /** readHereDocLine: walks the line with index c and appends its expansion
      to doc, one character at a time. */
  method ReadHereDocLine(line: string, doc: StrBuffer, env: Env)
    requires EndsInNewline(line) && doc.Valid()
    modifies doc, doc.str
    ensures doc.Valid()
    ensures doc.Contents() == old(doc.Contents()) + Expand(line, env)
    ensures doc.str == old(doc.str) || fresh(doc.str)
  {
    var c := 0;
    while c < |line|
      invariant c <= |line| && doc.Valid()
      invariant doc.str == old(doc.str) || fresh(doc.str)
      invariant doc.Contents() + ExpandFrom(line, c, env) == old(doc.Contents()) + Expand(line, env)
      decreases |line| - c
    {
      c := ExpandAt(line, c, doc, env);
    }
  }

  /** One pass of the switch in readHereDocLine: the character at c and
      whatever it governs, up to index next. */
  method ExpandAt(line: string, c: nat, doc: StrBuffer, env: Env) returns (next: nat)
    requires EndsInNewline(line) && c < |line| && doc.Valid()
    modifies doc, doc.str
    ensures c < next <= |line| && doc.Valid()
    ensures doc.str == old(doc.str) || fresh(doc.str)
    ensures next == ChunkEnd(line, c)
    ensures doc.Contents() == old(doc.Contents()) + ChunkOut(line, c, env)
    ensures doc.Contents() + ExpandFrom(line, next, env) == old(doc.Contents()) + ExpandFrom(line, c, env)
  {
    if line[c] == '$' && IsNameStart(line[c + 1]) {
      next := ExpandVariable(line, c, doc, env);
    } else if line[c] == '$' {
      next := ExpandDollar(line, c, doc, env);
    } else if line[c] == '\\' {
      next := ExpandBackslash(line, c, doc, env);
    } else {
      ghost var before := doc.Contents();
      doc.Append(line[c]);
      next := c + 1;
      assert ExpandFrom(line, c, env) == [line[c]] + ExpandFrom(line, next, env);
      Associative(before, [line[c]], ExpandFrom(line, next, env));
    }
  }

  /** A `$` that does not start a name is copied with the character after
      it. */
  method ExpandDollar(line: string, c: nat, doc: StrBuffer, env: Env) returns (next: nat)
    requires EndsInNewline(line) && c + 1 < |line| && line[c] == '$' && !IsNameStart(line[c + 1])
    requires doc.Valid()
    modifies doc, doc.str
    ensures c < next <= |line| && doc.Valid()
    ensures doc.str == old(doc.str) || fresh(doc.str)
    ensures next == c + 2 == ChunkEnd(line, c)
    ensures doc.Contents() == old(doc.Contents()) + ['$', line[c + 1]] == old(doc.Contents()) + ChunkOut(line, c, env)
    ensures doc.Contents() + ExpandFrom(line, next, env) == old(doc.Contents()) + ExpandFrom(line, c, env)
  {
    ghost var before := doc.Contents();
    doc.Append('$');
    doc.Append(line[c + 1]);
    next := c + 2;
    ghost var out := ['$', line[c + 1]];
    assert doc.Contents() == before + out;
    assert ExpandFrom(line, c, env) == out + ExpandFrom(line, next, env);
    Associative(before, out, ExpandFrom(line, next, env));
  }

  /** The `\\` case: `\\$` and `\\\\` drop the backslash, any other escape is
      copied whole. */
  method ExpandBackslash(line: string, c: nat, doc: StrBuffer, env: Env) returns (next: nat)
    requires EndsInNewline(line) && c + 1 < |line| && line[c] == '\\'
    requires doc.Valid()
    modifies doc, doc.str
    ensures c < next <= |line| && doc.Valid()
    ensures doc.str == old(doc.str) || fresh(doc.str)
    ensures next == c + 2 == ChunkEnd(line, c)
    ensures line[c + 1] == '$' || line[c + 1] == '\\' ==> doc.Contents() == old(doc.Contents()) + [line[c + 1]]
    ensures line[c + 1] != '$' && line[c + 1] != '\\' ==> doc.Contents() == old(doc.Contents()) + ['\\', line[c + 1]]
    ensures doc.Contents() == old(doc.Contents()) + ChunkOut(line, c, env)
    ensures doc.Contents() + ExpandFrom(line, next, env) == old(doc.Contents()) + ExpandFrom(line, c, env)
  {
    ghost var before := doc.Contents();
    ghost var out: string;
    if line[c + 1] != '$' && line[c + 1] != '\\' {
      doc.Append('\\');
      doc.Append(line[c + 1]);
      out := ['\\', line[c + 1]];
    } else {
      doc.Append(line[c + 1]);
      out := [line[c + 1]];
    }
    next := c + 2;
    assert doc.Contents() == before + out;
    assert ExpandFrom(line, c, env) == out + ExpandFrom(line, next, env);
    Associative(before, out, ExpandFrom(line, next, env));
  }

  lemma Associative(a: string, b: string, c: string)
    ensures (a + b) + c == a + (b + c)
  {
  }

  /** The `$NAME` case: the name is gathered, its value appended, then the
      character that ended the name. */
  method ExpandVariable(line: string, c: nat, doc: StrBuffer, env: Env) returns (next: nat)
    requires EndsInNewline(line) && c + 1 < |line| && line[c] == '$' && IsNameStart(line[c + 1])
    requires doc.Valid()
    modifies doc, doc.str
    ensures c < next <= |line| && doc.Valid()
    ensures doc.str == old(doc.str) || fresh(doc.str)
    ensures next == NameEnd(line, c + 2) + 1 == ChunkEnd(line, c)
    ensures doc.Contents() == old(doc.Contents()) + (EnvValue(env, line[c + 1..next - 1]) + [line[next - 1]])
    ensures doc.Contents() == old(doc.Contents()) + ChunkOut(line, c, env)
    ensures doc.Contents() + ExpandFrom(line, next, env) == old(doc.Contents()) + ExpandFrom(line, c, env)
  {
    ghost var before := doc.Contents();
    var name, p := ReadName(line, c + 1);
    var value := EnvValue(env, name);
    AppendThen(doc, value, line[p]);
    next := p + 1;
    VariableStep(line, c, p, env, before, doc.Contents());
  }

  /** Appends the characters of s, then c. */
  method AppendThen(doc: StrBuffer, s: string, c: char)
    requires doc.Valid()
    modifies doc, doc.str
    ensures doc.Valid()
    ensures doc.Contents() == old(doc.Contents()) + (s + [c])
    ensures doc.str == old(doc.str) || fresh(doc.str)
  {
    AppendAll(doc, s);
    doc.Append(c);
    Associative(old(doc.Contents()), s, [c]);
  }

  /** Appending the value of the name after a `$`, then the character
      after the name, moves the expansion past that piece. */
  lemma VariableStep(line: string, c: nat, p: nat, env: Env, before: string, after: string)
    requires EndsInNewline(line) && c + 1 < |line| && line[c] == '$' && IsNameStart(line[c + 1])
    requires p == NameEnd(line, c + 2) && p < |line|
    requires after == before + (EnvValue(env, line[c + 1..p]) + [line[p]])
    ensures after + ExpandFrom(line, p + 1, env) == before + ExpandFrom(line, c, env)
  {
    var out := EnvValue(env, line[c + 1..p]) + [line[p]];
    assert ChunkOut(line, c, env) == out;
    ExpandStep(line, c, env);
    Associative(before, out, ExpandFrom(line, p + 1, env));
  }

  /** The loop over the characters of a name: the first one at start, the
      rest while they are '_' or alphanumeric. */
  method ReadName(line: string, start: nat) returns (name: string, p: nat)
    requires EndsInNewline(line) && 0 < start < |line| && line[start - 1] == '$' && IsNameStart(line[start])
    ensures p == NameEnd(line, start + 1) == ChunkEnd(line, start - 1) - 1
    ensures p < |line| && name == line[start..p]
  {
    name := [line[start]];
    p := start + 1;
    while IsNameChar(line[p])
      invariant start < p < |line| && name == line[start..p]
      invariant forall k :: start < k < p ==> IsNameChar(line[k])
      decreases |line| - p
    {
      name := name + [line[p]];
      p := p + 1;
    }
    NameEndAt(line, start + 1, p);
  }

  lemma {:induction false} NameEndAt(s: string, i: nat, j: nat)
    requires i <= j <= |s|
    requires forall k :: i <= k < j ==> IsNameChar(s[k])
    requires j == |s| || !IsNameChar(s[j])
    ensures NameEnd(s, i) == j
    decreases j - i
  {
    if i < j {
      NameEndAt(s, i + 1, j);
    }
  }

  /** Appends every character of s to doc, in order. */
  method AppendAll(doc: StrBuffer, s: string)
    requires doc.Valid()
    modifies doc, doc.str
    ensures doc.Valid()
    ensures doc.Contents() == old(doc.Contents()) + s
    ensures doc.str == old(doc.str) || fresh(doc.str)
  {
    var p := 0;
    while p < |s|
      invariant p <= |s| && doc.Valid()
      invariant doc.str == old(doc.str) || fresh(doc.str)
      invariant doc.Contents() == old(doc.Contents()) + s[..p]
    {
      doc.Append(s[p]);
      p := p + 1;
      assert s[..p] == s[..p - 1] + [s[p - 1]];
    }
    assert s[..p] == s;
  }

  /** The result of reading a here document: its text and the lines left
      unread. */
  datatype HereText = HereText(doc: string, rest: seq<string>)

  /** readHereDocument after the word: lines are expanded and gathered until
      the input runs out, a line lacks its newline, or a line is the word
      itself followed by a newline. The line that stops the reading is
      consumed and not part of the document. */
  function HereDocument(word: string, input: seq<string>, env: Env): (r: HereText)
    ensures |r.rest| <= |input|
    ensures input != [] ==> |r.rest| < |input|
    decreases |input|
  {
    if input == [] then HereText([], [])
    else if !EndsInNewline(input[0]) || input[0] == word + "\n" then HereText([], input[1..])
    else
      var r := HereDocument(word, input[1..], env);
      HereText(Expand(input[0], env) + r.doc, r.rest)
  }

  /** The lines a here document leaves unread are the last lines of the
      input: reading only ever takes lines from the front. */
  lemma {:induction false} HereDocumentRest(word: string, input: seq<string>, env: Env)
    ensures var r := HereDocument(word, input, env);
      r.rest == input[|input| - |r.rest|..]
    decreases |input|
  {
    if input != [] && EndsInNewline(input[0]) && input[0] != word + "\n" {
      HereDocumentRest(word, input[1..], env);
      var r := HereDocument(word, input[1..], env);
      assert input[1..][|input| - 1 - |r.rest|..] == input[|input| - |r.rest|..];
    }
  }

  /** The line that ends a here document: one without its newline, or the
      word itself followed by a newline. */
  predicate Stops(word: string, line: string) {
    !EndsInNewline(line) || line == word + "\n"
  }

  /** One line of the here document: a line that stops the reading
      contributes nothing; any other line contributes its expansion. */
  lemma HereDocumentStep(word: string, input: seq<string>, k: nat, env: Env)
    requires k < |input|
    ensures Stops(word, input[k]) ==> HereDocument(word, input[k..], env) == HereText([], input[k + 1..])
    ensures !Stops(word, input[k]) ==>
      HereDocument(word, input[k..], env)
      == HereText(Expand(input[k], env) + HereDocument(word, input[k + 1..], env).doc,
                  HereDocument(word, input[k + 1..], env).rest)
  {
    assert input[k..][0] == input[k];
    assert input[k..][1..] == input[k + 1..];
  }

  /** readHereDocument: the loop over input lines, each expanded into a
      growing buffer; the document is the buffer's final string. */
  method ReadHereDocument(word: string, input: seq<string>, env: Env) returns (doc: string, rest: seq<string>)
    ensures HereText(doc, rest) == HereDocument(word, input, env)
  {
    var buf := new StrBuffer();
    var k := 0;
    var done := false;
    while k < |input| && !done
      invariant k <= |input| && buf.Valid() && fresh(buf.str)
      invariant HereDocument(word, input, env) == Gathered(buf.Contents(), word, input[k..], done, env)
      decreases |input| - k, !done
    {
      ghost var before := buf.Contents();
      HereDocumentStep(word, input, k, env);
      done := ReadBodyLine(word, input[k], buf, env);
      if !done {
        Associative(before, Expand(input[k], env), HereDocument(word, input[k + 1..], env).doc);
      }
      k := k + 1;
    }
    if !done {
      assert input[k..] == [];
    }
    doc := buf.str[..buf.len];
    rest := input[k..];
  }

  /** The document read so far followed by what the rest of the input adds,
      or, once reading has stopped, that document and the unread lines. */
  function Gathered(sofar: string, word: string, input: seq<string>, done: bool, env: Env): HereText {
    if done then HereText(sofar, input)
    else
      var r := HereDocument(word, input, env);
      HereText(sofar + r.doc, r.rest)
  }

  /** The body of the reading loop for one line: a line that stops the
      reading is dropped, any other is expanded into buf. */
  method ReadBodyLine(word: string, line: string, buf: StrBuffer, env: Env) returns (stop: bool)
    requires buf.Valid()
    modifies buf, buf.str
    ensures buf.Valid() && (buf.str == old(buf.str) || fresh(buf.str))
    ensures stop == Stops(word, line)
    ensures stop ==> buf.Contents() == old(buf.Contents())
    ensures !stop ==> buf.Contents() == old(buf.Contents()) + Expand(line, env)
  {
    var here := word + "\n";
    if |line| == 0 || line[|line| - 1] != '\n' || line == here {
      return true;
    }
    ReadHereDocLine(line, buf, env);
    return false;
  }
}

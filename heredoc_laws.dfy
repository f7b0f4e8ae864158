/**
 * Laws of here-document expansion (readHereDocLine) and reading
 * (readHereDocument).
 */
module HereDocLaws {
  import opened HereDoc

  /** A line without backslashes in which no '$' is followed by a name is
      copied unchanged: a lone '$' is copied with the character after it. */
  lemma {:induction false} NothingToExpand(s: string, i: nat, env: Env)
    requires Expandable(s) && i <= |s|
    requires forall k :: i <= k < |s| ==> s[k] != '\\'
    requires forall k :: i <= k < |s| - 1 && s[k] == '$' ==> !IsNameStart(s[k + 1])
    ensures ExpandFrom(s, i, env) == s[i..]
    decreases |s| - i
  {
    if i < |s| {
      var j := ChunkEnd(s, i);
      NothingToExpand(s, j, env);
      assert s[i..] == s[i..j] + s[j..];
    }
  }

  /** `$NAME` followed by a character c that cannot continue the name is
      replaced by the value of NAME (nothing when unset), and c is copied
      as it is, even when c is '$' or '\'. */
  lemma Variable(s: string, i: nat, name: string, env: Env)
    requires Expandable(s) && |name| > 0 && i + |name| + 1 < |s|
    requires s[i] == '$' && s[i + 1..i + 1 + |name|] == name
    requires IsNameStart(name[0]) && forall k :: 0 <= k < |name| ==> IsNameChar(name[k])
    requires !IsNameChar(s[i + 1 + |name|])
    ensures ExpandFrom(s, i, env)
         == EnvValue(env, name) + [s[i + 1 + |name|]] + ExpandFrom(s, i + |name| + 2, env)
  {
    VariableChunk(s, i, name, env);
  }

  /** The piece that starts at such a `$`. */
  lemma VariableChunk(s: string, i: nat, name: string, env: Env)
    requires Expandable(s) && |name| > 0 && i + |name| + 1 < |s|
    requires s[i] == '$' && s[i + 1..i + 1 + |name|] == name
    requires IsNameStart(name[0]) && forall k :: 0 <= k < |name| ==> IsNameChar(name[k])
    requires !IsNameChar(s[i + 1 + |name|])
    ensures ChunkEnd(s, i) == i + |name| + 2
    ensures ChunkOut(s, i, env) == EnvValue(env, name) + [s[i + 1 + |name|]]
  {
    var j := i + 1 + |name|;
    assert s[i + 1] == name[0];
    forall k | i + 2 <= k < j ensures IsNameChar(s[k]) {
      assert s[k] == name[k - i - 1];
    }
    NameEndAt(s, i + 2, j);
  }

  /** A price is not a variable: `$1` and a final `$` are copied. */
  lemma LoneDollarExample(env: Env)
    ensures Expand("$1 or $\n", env) == "$1 or $\n"
  {
    NothingToExpand("$1 or $\n", 0, env);
  }

  /** A variable set in the environment is substituted. */
  lemma SubstituteExample()
    ensures Expand("$HOME/x\n", map["HOME" := "/root"]) == "/root/x\n"
  {
    var s := "$HOME/x\n";
    var env := map["HOME" := "/root"];
    Variable(s, 0, "HOME", env);
    NothingToExpand(s, 6, env);
    assert s[6..] == "x\n";
  }

  /** An unset variable expands to nothing. */
  lemma UnsetExample()
    ensures Expand("$NOPE.\n", map[]) == ".\n"
  {
    var s := "$NOPE.\n";
    Variable(s, 0, "NOPE", map[]);
    NothingToExpand(s, 6, map[]);
    assert s[6..] == "\n";
  }

  /** The character that ends a name is not interpreted: in `$A$B` only A
      is substituted. */
  lemma AdjacentVariables()
    ensures Expand("$A$B\n", map["A" := "1", "B" := "2"]) == "1$B\n"
  {
    var s := "$A$B\n";
    var env := map["A" := "1", "B" := "2"];
    Variable(s, 0, "A", env);
    NothingToExpand(s, 3, env);
    assert s[3..] == "B\n";
  }

  /** `\$` and `\\` lose their backslash; `\n` (backslash, letter) keeps it. */
  lemma EscapeExample(env: Env)
    ensures Expand("\\$\\\\\\n\n", env) == "$\\\\n\n"
  {
    var s := "\\$\\\\\\n\n";
    assert ExpandFrom(s, 0, env) == "$" + ExpandFrom(s, 2, env);
    assert ExpandFrom(s, 2, env) == "\\" + ExpandFrom(s, 4, env);
    assert ExpandFrom(s, 4, env) == "\\n" + ExpandFrom(s, 6, env);
    assert ExpandFrom(s, 6, env) == "\n";
  }

  /** The expansion of a line still ends in its newline: the newline is
      always copied last. */
  lemma {:induction false} KeepsNewline(s: string, i: nat, env: Env)
    requires EndsInNewline(s) && i < |s|
    ensures EndsInNewline(ExpandFrom(s, i, env))
    decreases |s| - i
  {
    var j := ChunkEnd(s, i);
    if j < |s| {
      KeepsNewline(s, j, env);
    } else {
      assert ExpandFrom(s, j, env) == [];
    }
  }

  /** Expanding line after line is expanding the lines joined: no escape
      or variable reaches across a newline. */
  lemma {:induction false} ExpandConcat(a: string, b: string, i: nat, env: Env)
    requires EndsInNewline(a) && Expandable(b) && i <= |a|
    ensures Expandable(a + b)
    ensures ExpandFrom(a + b, i, env) == ExpandFrom(a, i, env) + Expand(b, env)
    decreases |a| - i
  {
    var s := a + b;
    assert EndsInNewline(s) by {
      if b != [] { assert s[|s| - 1] == b[|b| - 1]; } else { assert s == a; }
    }
    if i == |a| {
      assert EndsWith(s, |a|, b) by {
        forall j | 0 <= j < |b| ensures s[|a| + j] == b[j] {}
      }
      ShiftFrom(s, |a|, b, 0, env);
    } else {
      var j := ChunkEnd(a, i);
      assert StartsWith(s, a) by {
        forall k | 0 <= k < |a| ensures s[k] == a[k] {}
      }
      ChunkPrefix(s, a, i, env);
      ExpandConcat(a, b, j, env);
      Associative(ChunkOut(a, i, env), ExpandFrom(a, j, env), Expand(b, env));
    }
  }

  /** a is the start of s. */
  predicate StartsWith(s: string, a: string) {
    |a| <= |s| && forall k :: 0 <= k < |a| ==> s[k] == a[k]
  }

  /** b is the end of s, from index d on. */
  predicate EndsWith(s: string, d: nat, b: string) {
    |s| == d + |b| && forall k :: 0 <= k < |b| ==> s[d + k] == b[k]
  }

  /** A piece that starts inside a line ends inside it, whatever follows. */
  lemma ChunkPrefix(s: string, a: string, i: nat, env: Env)
    requires EndsInNewline(a) && Expandable(s) && StartsWith(s, a) && i < |a|
    ensures ChunkEnd(s, i) == ChunkEnd(a, i)
    ensures ChunkOut(s, i, env) == ChunkOut(a, i, env)
  {
    if a[i] == '$' && IsNameStart(a[i + 1]) {
      VariablePrefix(s, a, i, env);
    } else {
      PlainPrefix(s, a, i, env);
    }
  }

  lemma VariablePrefix(s: string, a: string, i: nat, env: Env)
    requires EndsInNewline(a) && Expandable(s) && StartsWith(s, a) && i + 1 < |a|
    requires a[i] == '$' && IsNameStart(a[i + 1])
    ensures ChunkEnd(s, i) == ChunkEnd(a, i)
    ensures ChunkOut(s, i, env) == ChunkOut(a, i, env)
  {
    assert s[i] == a[i] && s[i + 1] == a[i + 1];
    NamePrefix(s, a, i);
    var j := NameEnd(a, i + 2);
    assert ChunkOut(a, i, env) == EnvValue(env, a[i + 1..j]) + [a[j]];
  }

  lemma PlainPrefix(s: string, a: string, i: nat, env: Env)
    requires EndsInNewline(a) && Expandable(s) && StartsWith(s, a) && i < |a|
    requires !(a[i] == '$' && IsNameStart(a[i + 1]))
    ensures ChunkEnd(s, i) == ChunkEnd(a, i)
    ensures ChunkOut(s, i, env) == ChunkOut(a, i, env)
  {
    assert s[i] == a[i];
    if a[i] == '$' || a[i] == '\\' {
      assert s[i + 1] == a[i + 1];
    }
  }

  /** The name after a `$` of a, seen in s. */
  lemma NamePrefix(s: string, a: string, i: nat)
    requires EndsInNewline(a) && StartsWith(s, a) && i + 1 < |a| && a[i] == '$' && IsNameStart(a[i + 1])
    ensures var j := NameEnd(a, i + 2);
      NameEnd(s, i + 2) == j < |a| && s[i + 1..j] == a[i + 1..j] && s[j] == a[j]
  {
    NameEndPrefix(s, a, i + 2);
    var j := NameEnd(a, i + 2);
    assert s[i + 1..j] == a[i + 1..j];
  }

  lemma {:induction false} NameEndPrefix(s: string, a: string, i: nat)
    requires EndsInNewline(a) && StartsWith(s, a) && i < |a|
    ensures NameEnd(s, i) == NameEnd(a, i) < |a|
    decreases |a| - i
  {
    assert s[i] == a[i];
    if IsNameChar(a[i]) {
      NameEndPrefix(s, a, i + 1);
    }
  }

  /** Past index d, expanding s is expanding its end b. */
  lemma {:induction false} ShiftFrom(s: string, d: nat, b: string, k: nat, env: Env)
    requires Expandable(s) && Expandable(b) && EndsWith(s, d, b) && k <= |b|
    ensures ExpandFrom(s, d + k, env) == ExpandFrom(b, k, env)
    decreases |b| - k
  {
    if k < |b| {
      ShiftFrom(s, d, b, ChunkEnd(b, k), env);
      ShiftStep(s, d, b, k, env);
    }
  }

  /** One piece of the shift: if the expansions agree after the piece of b
      at k, they agree from k. */
  lemma ShiftStep(s: string, d: nat, b: string, k: nat, env: Env)
    requires Expandable(s) && Expandable(b) && EndsWith(s, d, b) && k < |b|
    requires ExpandFrom(s, d + ChunkEnd(b, k), env) == ExpandFrom(b, ChunkEnd(b, k), env)
    ensures ExpandFrom(s, d + k, env) == ExpandFrom(b, k, env)
  {
    ChunkShift(s, d, b, k, env);
  }

  /** A piece of b is the same piece of s, moved by d. */
  lemma ChunkShift(s: string, d: nat, b: string, k: nat, env: Env)
    requires Expandable(s) && Expandable(b) && EndsWith(s, d, b) && k < |b|
    ensures ChunkEnd(s, d + k) == d + ChunkEnd(b, k)
    ensures ChunkOut(s, d + k, env) == ChunkOut(b, k, env)
  {
    if b[k] == '$' && IsNameStart(b[k + 1]) {
      VariableShift(s, d, b, k, env);
    } else {
      PlainShift(s, d, b, k, env);
    }
  }

  lemma VariableShift(s: string, d: nat, b: string, k: nat, env: Env)
    requires Expandable(s) && Expandable(b) && EndsWith(s, d, b) && k + 1 < |b|
    requires b[k] == '$' && IsNameStart(b[k + 1])
    ensures ChunkEnd(s, d + k) == d + ChunkEnd(b, k)
    ensures ChunkOut(s, d + k, env) == ChunkOut(b, k, env)
  {
    assert s[d + k] == b[k] && s[d + k + 1] == b[k + 1];
    NameShift(s, d, b, k);
    var j := NameEnd(b, k + 2);
    assert ChunkOut(b, k, env) == EnvValue(env, b[k + 1..j]) + [b[j]];
  }

  lemma PlainShift(s: string, d: nat, b: string, k: nat, env: Env)
    requires Expandable(s) && Expandable(b) && EndsWith(s, d, b) && k < |b|
    requires !(b[k] == '$' && IsNameStart(b[k + 1]))
    ensures ChunkEnd(s, d + k) == d + ChunkEnd(b, k)
    ensures ChunkOut(s, d + k, env) == ChunkOut(b, k, env)
  {
    assert s[d + k] == b[k];
    if b[k] == '$' || b[k] == '\\' {
      assert s[d + k + 1] == b[k + 1];
    }
  }

  /** The name after a `$` of b, seen in s. */
  lemma NameShift(s: string, d: nat, b: string, k: nat)
    requires Expandable(b) && EndsWith(s, d, b) && k + 1 < |b| && b[k] == '$' && IsNameStart(b[k + 1])
    ensures var j := NameEnd(b, k + 2);
      j < |b| && NameEnd(s, d + k + 2) == d + j
      && s[d + k + 1..d + j] == b[k + 1..j] && s[d + j] == b[j]
  {
    NameEndShift(s, d, b, k + 2);
    var j := NameEnd(b, k + 2);
    NameInside(b, k + 2);
    assert s[d + k + 1..d + j] == b[k + 1..j];
  }

  lemma {:induction false} NameEndShift(s: string, d: nat, b: string, k: nat)
    requires EndsWith(s, d, b) && k <= |b|
    ensures NameEnd(s, d + k) == d + NameEnd(b, k)
    decreases |b| - k
  {
    if k < |b| {
      assert s[d + k] == b[k];
      if IsNameChar(b[k]) {
        NameEndShift(s, d, b, k + 1);
      }
    }
  }

  /** The lines of a here document, joined. */
  function Join(lines: seq<string>): string {
    if lines == [] then [] else lines[0] + Join(lines[1..])
  }

  lemma {:induction false} JoinExpandable(lines: seq<string>)
    requires forall k :: 0 <= k < |lines| ==> EndsInNewline(lines[k])
    ensures Expandable(Join(lines))
  {
    if lines != [] {
      JoinExpandable(lines[1..]);
    }
  }

  /** A here document: the body lines (each with its newline, none equal to
      the word) followed by the word on a line of its own. The document is
      the expansion of the body and the lines after the word are left for
      the shell. */
  lemma {:induction false} HereDocumentText(word: string, body: seq<string>, after: seq<string>, env: Env)
    requires forall k :: 0 <= k < |body| ==> EndsInNewline(body[k]) && body[k] != word + "\n"
    ensures Expandable(Join(body))
    ensures HereDocument(word, body + [word + "\n"] + after, env) == HereText(Expand(Join(body), env), after)
    decreases |body|
  {
    JoinExpandable(body);
    var input := body + [word + "\n"] + after;
    if body == [] {
      assert input[0] == word + "\n" && input[1..] == after;
    } else {
      assert input[0] == body[0];
      assert input[1..] == body[1..] + [word + "\n"] + after;
      HereDocumentText(word, body[1..], after, env);
      JoinExpandable(body[1..]);
      ExpandConcat(body[0], Join(body[1..]), 0, env);
    }
  }

  /** Without the terminating word the document runs to the end of the
      input and nothing is left. */
  lemma {:induction false} HereDocumentUnterminated(word: string, body: seq<string>, env: Env)
    requires forall k :: 0 <= k < |body| ==> EndsInNewline(body[k]) && body[k] != word + "\n"
    ensures Expandable(Join(body))
    ensures HereDocument(word, body, env) == HereText(Expand(Join(body), env), [])
    decreases |body|
  {
    JoinExpandable(body);
    if body != [] {
      HereDocumentUnterminated(word, body[1..], env);
      JoinExpandable(body[1..]);
      ExpandConcat(body[0], Join(body[1..]), 0, env);
    }
  }
}

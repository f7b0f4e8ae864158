/**
 * Laws of the tokenizer (tokenize.c): how the special-token table is
 * searched, what blanks, comments, quotes and escapes do, and what every
 * token of a successful result looks like.
 */
module TokenizerLaws {
  import opened Wrappers
  import opened Tokenizer

  // ---------------------------------------------------------------------------
  // The special-token table

  /** The table's ordering rule: no entry is a prefix of an entry after it. */
  lemma TableOrdered()
    ensures forall i, j :: 0 <= i < j < |STok| ==> !StartsWith(STok[j].text, STok[i].text)
  {
    forall i, j | 0 <= i < j < |STok| ensures !StartsWith(STok[j].text, STok[i].text) {
      EntryLaterNotExtended(i, j);
    }
  }

  lemma EntryLaterNotExtended(i: nat, j: nat)
    requires i < j < |STok|
    ensures !StartsWith(STok[j].text, STok[i].text)
  {
    if STok[i].text[0] == STok[j].text[0] {
      SameStartNotExtended(i, j);
    }
  }

  /** Entries sharing their first character: each pair is told apart by its
      length or by the first position where the two texts differ. */
  lemma SameStartNotExtended(i: nat, j: nat)
    requires i < j < |STok| && STok[i].text[0] == STok[j].text[0]
    ensures !StartsWith(STok[j].text, STok[i].text)
  {
    if i == 0 && j == 1 {
      assert |STok[1].text| < |STok[0].text|;
    } else if i == 2 && j == 3 {
      assert |STok[3].text| < |STok[2].text|;
    } else if i == 2 && j == 4 {
      assert |STok[4].text| < |STok[2].text|;
    } else if i == 2 && j == 5 {
      assert |STok[5].text| < |STok[2].text|;
    } else if i == 2 && j == 6 {
      assert |STok[6].text| < |STok[2].text|;
    } else if i == 2 && j == 7 {
      assert |STok[7].text| < |STok[2].text|;
    } else if i == 2 && j == 8 {
      assert |STok[8].text| < |STok[2].text|;
    } else if i == 2 && j == 9 {
      assert |STok[9].text| < |STok[2].text|;
    } else if i == 3 && j == 4 {
      assert STok[4].text[2] != STok[3].text[2];
    } else if i == 3 && j == 5 {
      assert |STok[5].text| < |STok[3].text|;
    } else if i == 3 && j == 6 {
      assert STok[6].text[1] != STok[3].text[1];
    } else if i == 3 && j == 7 {
      assert |STok[7].text| < |STok[3].text|;
    } else if i == 3 && j == 8 {
      assert |STok[8].text| < |STok[3].text|;
    } else if i == 3 && j == 9 {
      assert |STok[9].text| < |STok[3].text|;
    } else if i == 4 && j == 5 {
      assert |STok[5].text| < |STok[4].text|;
    } else if i == 4 && j == 6 {
      assert STok[6].text[1] != STok[4].text[1];
    } else if i == 4 && j == 7 {
      assert |STok[7].text| < |STok[4].text|;
    } else if i == 4 && j == 8 {
      assert |STok[8].text| < |STok[4].text|;
    } else if i == 4 && j == 9 {
      assert |STok[9].text| < |STok[4].text|;
    } else if i == 5 && j == 6 {
      assert STok[6].text[1] != STok[5].text[1];
    } else if i == 5 && j == 7 {
      assert STok[7].text[1] != STok[5].text[1];
    } else if i == 5 && j == 8 {
      assert STok[8].text[1] != STok[5].text[1];
    } else if i == 5 && j == 9 {
      assert |STok[9].text| < |STok[5].text|;
    } else if i == 6 && j == 7 {
      assert |STok[7].text| < |STok[6].text|;
    } else if i == 6 && j == 8 {
      assert |STok[8].text| < |STok[6].text|;
    } else if i == 6 && j == 9 {
      assert |STok[9].text| < |STok[6].text|;
    } else if i == 7 && j == 8 {
      assert STok[8].text[1] != STok[7].text[1];
    } else if i == 7 && j == 9 {
      assert |STok[9].text| < |STok[7].text|;
    } else if i == 8 && j == 9 {
      assert |STok[9].text| < |STok[8].text|;
    } else if i == 11 && j == 12 {
      assert |STok[12].text| < |STok[11].text|;
    } else if i == 13 && j == 14 {
      assert STok[14].text[1] != STok[13].text[1];
    } else if i == 13 && j == 15 {
      assert |STok[15].text| < |STok[13].text|;
    } else if i == 14 && j == 15 {
      assert |STok[15].text| < |STok[14].text|;
    }
  }

  /** Every entry begins with one of the special start characters. */
  lemma EntriesStartSpecial()
    ensures forall i :: 0 <= i < |STok| ==> |STok[i].text| > 0 && STok[i].text[0] in SpecialStarts
  {
  }

  /** Because of the ordering rule, the first matching entry is the longest
      one: a longer operator is never split into a shorter one. */
  lemma FirstMatchIsLongest(s: string, j: nat)
    requires FirstSpecial(s).Some? && j < |STok| && StartsWith(s, STok[j].text)
    ensures |STok[j].text| <= |STok[FirstSpecial(s).value].text|
  {
    var i := FirstSpecial(s).value;
    MatchFromIsFirst(s, 0);
    TableOrdered();
  }

  /** A character that begins no special token matches no entry. */
  lemma NoSpecialMatch(s: string)
    requires |s| > 0 && s[0] !in SpecialStarts
    ensures FirstSpecial(s) == None
  {
    EntriesStartSpecial();
  }

  /** ">>&!" is found as one token, ahead of the shorter entries after it. */
  lemma LongestRedirection()
    ensures FirstSpecial(">>&!") == Some(2) && STok[2] == Entry(">>&!", RedErrAppC)
  {
    var s := ">>&!";
    assert s[0] != STok[0].text[1] && s[0] != STok[1].text[0];
    assert MatchFrom(s, 0) == MatchFrom(s, 1) == MatchFrom(s, 2);
    assert s[..4] == STok[2].text;
  }

  /** "|&" is a stderr pipe, not a pipe followed by a background sign. */
  lemma ErrorPipe()
    ensures FirstSpecial("|&") == Some(14) && STok[14] == Entry("|&", PipeErr)
  {
    var s := "|&";
    forall k | 0 <= k < 14 ensures !StartsWith(s, STok[k].text) {
      assert STok[k].text[0] != '|' || |STok[k].text| > 2 || STok[k].text[1] != '&';
    }
    assert StartsWith(s, STok[14].text);
    Lookup(s, 14);
  }

  /** The search finds entry i when i starts s and no earlier entry does. */
  lemma Lookup(s: string, i: nat)
    requires i < |STok| && StartsWith(s, STok[i].text)
    requires forall k :: 0 <= k < i ==> !StartsWith(s, STok[k].text)
    ensures FirstSpecial(s) == Some(i)
  {
    SkipNonMatching(s, 0, i);
  }

  /** The search passes over entries that do not start s. */
  lemma {:induction false} SkipNonMatching(s: string, i: nat, j: nat)
    requires i <= j <= |STok|
    requires forall k :: i <= k < j ==> !StartsWith(s, STok[k].text)
    ensures MatchFrom(s, i) == MatchFrom(s, j)
    decreases j - i
  {
    if i < j {
      SkipNonMatching(s, i + 1, j);
    }
  }

  // ---------------------------------------------------------------------------
  // Blanks and comments

  /** Blanks between tokens are skipped and produce nothing. */
  lemma {:induction false} SkipBlanks(line: string, p: nat, k: nat, meta: set<char>)
    requires p + k <= |line| && meta <= SpecialStarts
    requires forall m :: p <= m < p + k ==> IsSpace(line[m])
    ensures TokensFrom(line, p, meta) == TokensFrom(line, p + k, meta)
    decreases k
  {
    if k > 0 {
      SkipBlanks(line, p + 1, k - 1, meta);
    }
  }

  /** A line of blanks only has no tokens (the source returns NULL). */
  lemma BlankLine(line: string, meta: set<char>)
    requires meta <= SpecialStarts
    requires forall m :: 0 <= m < |line| ==> IsSpace(line[m])
    ensures Tokens(line, meta) == Some([])
  {
    SkipBlanks(line, 0, |line|, meta);
  }

  /** A '#' where a token would begin starts a comment: the rest of the line
      is ignored, quotes included, and the words before it are kept. */
  lemma CommentLine(a: string, rest: string, meta: set<char>)
    requires meta <= SpecialStarts && PlainWords(a, meta)
    ensures Tokens(a, meta).Some?
    ensures Tokens(a + "#" + rest, meta) == Tokens(a, meta)
  {
    var line := a + ("#" + rest);
    assert a + "#" + rest == line;
    PlainPrefix(a, "#" + rest, 0, meta);
    assert line[|a|] == '#';
    assert TokensFrom(line, |a|, meta) == Some([]);
    assert TokensFrom(a, 0, meta).value + [] == TokensFrom(a, 0, meta).value;
  }

  /** The commented line of blanks only has no tokens. */
  lemma CommentOnlyLine(blanks: string, rest: string, meta: set<char>)
    requires meta <= SpecialStarts
    requires forall m :: 0 <= m < |blanks| ==> IsSpace(blanks[m])
    ensures Tokens(blanks + "#" + rest, meta) == Some([])
  {
    CommentLine(blanks, rest, meta);
    BlankLine(blanks, meta);
  }

  // ---------------------------------------------------------------------------
  // Words: quotes and escapes

  /** Inside a quote, every character up to the matching quote is copied
      verbatim, blanks, operators, backslashes and the other quote included;
      the closing quote is dropped. */
  lemma {:induction false} QuotedVerbatim(line: string, p: nat, n: nat, q: char, acc: string, meta: set<char>)
    requires p + n < |line| && meta <= SpecialStarts
    requires line[p + n] == q && forall m :: p <= m < p + n ==> line[m] != q
    ensures ScanWord(line, p, Some(q), acc, meta) == ScanWord(line, p + n + 1, None, acc + line[p..p + n], meta)
    decreases n
  {
    if n == 0 {
      QuoteCloses(line, p, q, acc, meta);
      EmptySlice(acc, line, p);
    } else {
      QuoteCopies(line, p, q, acc, meta);
      QuotedVerbatim(line, p + 1, n - 1, q, acc + [line[p]], meta);
      SliceCons(acc, line, p, n);
    }
  }

  /** The matching quote ends the quoted part and is dropped. */
  lemma QuoteCloses(line: string, p: nat, q: char, acc: string, meta: set<char>)
    requires p < |line| && meta <= SpecialStarts && line[p] == q
    ensures ScanWord(line, p, Some(q), acc, meta) == ScanWord(line, p + 1, None, acc, meta)
  {
  }

  /** Any other character inside the quote is copied. */
  lemma QuoteCopies(line: string, p: nat, q: char, acc: string, meta: set<char>)
    requires p < |line| && meta <= SpecialStarts && line[p] != q
    ensures ScanWord(line, p, Some(q), acc, meta) == ScanWord(line, p + 1, Some(q), acc + [line[p]], meta)
  {
  }

  lemma EmptySlice(acc: string, line: string, p: nat)
    requires p <= |line|
    ensures acc + line[p..p] == acc
  {
    assert line[p..p] == [];
  }

  lemma SliceCons(acc: string, line: string, p: nat, n: nat)
    requires p < p + n <= |line|
    ensures (acc + [line[p]]) + line[p + 1..p + n] == acc + line[p..p + n]
  {
    assert line[p..p + n] == [line[p]] + line[p + 1..p + n];
  }

  /** A quote that is never closed runs to the end of the line and leaves
      the word open. */
  lemma {:induction false} QuoteRunsOut(line: string, p: nat, q: char, acc: string, meta: set<char>)
    requires p <= |line| && meta <= SpecialStarts
    requires forall m :: p <= m < |line| ==> line[m] != q
    ensures ScanWord(line, p, Some(q), acc, meta) == WordScan(acc + line[p..], |line|, true)
    decreases |line| - p
  {
    if p == |line| {
      assert acc + line[p..] == acc;
    } else {
      QuoteRunsOut(line, p + 1, q, acc + [line[p]], meta);
      assert (acc + [line[p]]) + line[p + 1..] == acc + line[p..];
    }
  }

  /** An unterminated quote makes tokenize fail ("Unterminated string"),
      and the tokens already read before it are given up as well. */
  lemma UnterminatedQuote(a: string, q: char, s: string, meta: set<char>)
    requires meta <= SpecialStarts && PlainWords(a, meta)
    requires IsQuote(q) && q !in s
    ensures Tokens(a + [q] + s, meta) == None
  {
    assert a + [q] + s == a + ([q] + s);
    PlainPrefix(a, [q] + s, 0, meta);
    QuoteAfter(a, q, s, meta);
  }

  lemma QuoteAfter(a: string, q: char, s: string, meta: set<char>)
    requires meta <= SpecialStarts && IsQuote(q) && q !in s
    ensures TokensFrom(a + ([q] + s), |a|, meta) == None
  {
    var line := a + ([q] + s);
    assert line[|a|] == q && line[|a| + 1..] == s;
    QuoteAtToken(line, |a|, meta);
  }

  /** A quote where a token would begin that is not closed before the end of
      the line makes the rest of the line fail. */
  lemma QuoteAtToken(line: string, p: nat, meta: set<char>)
    requires meta <= SpecialStarts && p < |line| && IsQuote(line[p])
    requires line[p] !in line[p + 1..]
    ensures TokensFrom(line, p, meta) == None
  {
    var q := line[p];
    forall m | p + 1 <= m < |line| ensures line[m] != q {
      assert line[m] == line[p + 1..][m - p - 1];
    }
    assert line[p..][0] == q;
    NoSpecialMatch(line[p..]);
    TokensFromWord(line, p, meta);
    assert ScanWord(line, p, None, [], meta) == ScanWord(line, p + 1, Some(q), [], meta);
    QuoteRunsOut(line, p + 1, q, [], meta);
  }

  /** Characters a word copies as they are. */
  predicate Plain(c: char, meta: set<char>) {
    !IsSpace(c) && c !in meta && !IsQuote(c) && c != '\\'
  }

  /** A line prefix of plain words separated by blanks, ending in a blank (or
      empty), so that the next character is where a token would begin. */
  predicate PlainWords(a: string, meta: set<char>) {
    && (forall m :: 0 <= m < |a| ==> IsSpace(a[m]) || (Plain(a[m], meta) && a[m] !in SpecialStarts && a[m] != '#'))
    && (a == [] || IsSpace(a[|a| - 1]))
  }

  /** The first blank at or after p. */
  function WordEnd(a: string, p: nat): (e: nat)
    requires p < |a| && IsSpace(a[|a| - 1])
    ensures p <= e < |a| && IsSpace(a[e])
    ensures forall m :: p <= m < e ==> !IsSpace(a[m])
    decreases |a| - p
  {
    if IsSpace(a[p]) then p else WordEnd(a, p + 1)
  }

  /** Tokenizing a + x tokenizes the plain words of a as they stand, then goes
      on at |a| as if a were not there: nothing reaches across the blank
      that ends a. */
  lemma {:induction false} PlainPrefix(a: string, x: string, p: nat, meta: set<char>)
    requires meta <= SpecialStarts && PlainWords(a, meta) && p <= |a|
    ensures TokensFrom(a, p, meta).Some?
    ensures TokensFrom(a + x, p, meta) == PrependAll(TokensFrom(a, p, meta).value, TokensFrom(a + x, |a|, meta))
    decreases |a| - p
  {
    var line := a + x;
    if p == |a| {
      assert TokensFrom(a, p, meta) == Some([]);
      PrependNothing(TokensFrom(line, |a|, meta));
    } else if IsSpace(a[p]) {
      assert line[p] == a[p];
      PlainPrefix(a, x, p + 1, meta);
    } else {
      var e := WordEnd(a, p);
      PlainWordOf(a, x, p, e, meta);
      PlainPrefix(a, x, e, meta);
      PrependCons(Token(Simple, a[p..e]), TokensFrom(a, e, meta).value, TokensFrom(line, |a|, meta));
    }
  }

  /** The word of a starting at p is the same in a and in a + x. */
  lemma PlainWordOf(a: string, x: string, p: nat, e: nat, meta: set<char>)
    requires meta <= SpecialStarts && PlainWords(a, meta) && p < e < |a|
    requires IsSpace(a[e]) && forall m :: p <= m < e ==> !IsSpace(a[m])
    ensures TokensFrom(a, p, meta) == Prepend(Token(Simple, a[p..e]), TokensFrom(a, e, meta))
    ensures TokensFrom(a + x, p, meta) == Prepend(Token(Simple, a[p..e]), TokensFrom(a + x, e, meta))
  {
    var line := a + x;
    PlainWordAt(a, p, e, meta);
    assert forall m :: p <= m <= e ==> line[m] == a[m];
    PlainWordAt(line, p, e, meta);
    assert line[p..e] == a[p..e];
  }

  /** A run of plain characters from p up to a blank at e is one word. */
  lemma PlainWordAt(line: string, p: nat, e: nat, meta: set<char>)
    requires meta <= SpecialStarts && p < e < |line| && IsSpace(line[e])
    requires forall m :: p <= m < e ==> Plain(line[m], meta) && line[m] !in SpecialStarts && line[m] != '#'
    ensures TokensFrom(line, p, meta) == Prepend(Token(Simple, line[p..e]), TokensFrom(line, e, meta))
  {
    PlainRun(line, p, e - p, [], meta);
    assert [] + line[p..e] == line[p..e];
    assert ScanWord(line, p, None, [], meta) == WordScan(line[p..e], e, false);
    assert line[p..][0] == line[p];
    NoSpecialMatch(line[p..]);
    TokensFromWord(line, p, meta);
  }

  lemma PrependNothing(r: Option<seq<Token>>)
    ensures PrependAll([], r) == r
  {
    if r.Some? {
      assert [] + r.value == r.value;
    }
  }

  lemma PrependCons(t: Token, ts: seq<Token>, r: Option<seq<Token>>)
    ensures PrependAll([t] + ts, r) == Prepend(t, PrependAll(ts, r))
  {
    if r.Some? {
      assert [t] + ts + r.value == [t] + (ts + r.value);
    }
  }

  /** A run of plain characters is copied as it is, up to a blank or a
      meta character. */
  lemma {:induction false} PlainRun(line: string, p: nat, n: nat, acc: string, meta: set<char>)
    requires p + n <= |line| && meta <= SpecialStarts
    requires forall m :: p <= m < p + n ==> Plain(line[m], meta)
    requires p + n == |line| || IsSpace(line[p + n]) || line[p + n] in meta
    ensures ScanWord(line, p, None, acc, meta) == WordScan(acc + line[p..p + n], p + n, false)
    decreases n
  {
    if n == 0 {
      assert acc + line[p..p] == acc;
    } else {
      PlainRun(line, p + 1, n - 1, acc + [line[p]], meta);
      assert (acc + [line[p]]) + line[p + 1..p + n] == acc + line[p..p + n];
    }
  }

  /** A word of plain characters is one SIMPLE token holding that word. */
  lemma PlainWord(w: string, meta: set<char>)
    requires meta <= SpecialStarts && |w| > 0
    requires w[0] !in SpecialStarts && w[0] != '#'
    requires forall m :: 0 <= m < |w| ==> Plain(w[m], meta)
    ensures Tokens(w, meta) == Some([Token(Simple, w)])
  {
    assert w[0..] == w && w[0..|w|] == w;
    NoSpecialMatch(w);
    TokensFromWord(w, 0, meta);
    PlainRun(w, 0, |w|, [], meta);
    assert [] + w[0..|w|] == w;
    assert ScanWord(w, 0, None, [], meta) == WordScan(w, |w|, false);
    assert TokensFrom(w, |w|, meta) == Some([]);
    assert [Token(Simple, w)] + [] == [Token(Simple, w)];
  }

  /** A backslash takes the next character literally, even a blank or a
      quote, and is itself dropped. */
  lemma EscapedBlank(meta: set<char>)
    requires meta <= SpecialStarts
    ensures Tokens("a\\ b", meta) == Some([Token(Simple, "a b")])
  {
    var line := "a\\ b";
    assert line[0..] == line;
    NoSpecialMatch(line);
    TokensFromWord(line, 0, meta);
    EscapedBlankWord(meta);
    assert TokensFrom(line, 4, meta) == Some([]);
    assert [Token(Simple, "a b")] + [] == [Token(Simple, "a b")];
  }

  lemma EscapedBlankWord(meta: set<char>)
    requires meta <= SpecialStarts
    ensures ScanWord("a\\ b", 0, None, [], meta) == WordScan("a b", 4, false)
  {
    var line := "a\\ b";
    assert ScanWord(line, 0, None, [], meta) == ScanWord(line, 1, None, "a", meta);
    assert ScanWord(line, 1, None, "a", meta) == ScanWord(line, 3, None, "a ", meta);
    assert ScanWord(line, 3, None, "a ", meta) == WordScan("a b", 4, false);
  }

  /** A backslash before a newline is kept, and the newline then ends the
      word. */
  lemma EscapedNewline(meta: set<char>)
    requires meta <= SpecialStarts
    ensures Tokens("a\\\n", meta) == Some([Token(Simple, "a\\")])
  {
    var line := "a\\\n";
    assert line[0..] == line;
    NoSpecialMatch(line);
    TokensFromWord(line, 0, meta);
    assert ScanWord(line, 0, None, [], meta) == ScanWord(line, 1, None, "a", meta);
    assert ScanWord(line, 1, None, "a", meta) == ScanWord(line, 2, None, "a\\", meta);
    assert ScanWord(line, 2, None, "a\\", meta) == WordScan("a\\", 2, false);
    assert TokensFrom(line, 2, meta) == TokensFrom(line, 3, meta) == Some([]);
    assert [Token(Simple, "a\\")] + [] == [Token(Simple, "a\\")];
  }

  // ---------------------------------------------------------------------------
  // Shape of the result

  /** A token the table search can produce. */
  predicate IsTableToken(t: Token) {
    exists i :: 0 <= i < |STok| && STok[i] == Entry(t.text, t.kind)
  }

  /** Every token is either a SIMPLE word or a verbatim entry of the table;
      in particular tokenize never produces SUBCMD or NONE. */
  lemma {:induction false} TokenShapes(line: string, p: nat, meta: set<char>)
    requires p <= |line| && meta <= SpecialStarts
    requires TokensFrom(line, p, meta).Some?
    ensures forall t :: t in TokensFrom(line, p, meta).value ==> t.kind == Simple || IsTableToken(t)
    ensures forall t :: t in TokensFrom(line, p, meta).value ==> t.kind != NoKind && t.kind != SubCmd
    decreases |line| - p, 1
  {
    if p == |line| || line[p] == '#' {
    } else if IsSpace(line[p]) {
      TokenShapes(line, p + 1, meta);
    } else {
      TokenShapesAtToken(line, p, meta);
    }
  }

  lemma {:induction false} TokenShapesAtToken(line: string, p: nat, meta: set<char>)
    requires p < |line| && meta <= SpecialStarts && !IsSpace(line[p]) && line[p] != '#'
    requires TokensFrom(line, p, meta).Some?
    ensures forall t :: t in TokensFrom(line, p, meta).value ==> t.kind == Simple || IsTableToken(t)
    ensures forall t :: t in TokensFrom(line, p, meta).value ==> t.kind != NoKind && t.kind != SubCmd
    decreases |line| - p, 0
  {
    match FirstSpecial(line[p..])
    case Some(i) =>
      TokensFromSpecial(line, p, meta, i);
      EntriesStartSpecial();
      TokenShapes(line, p + |STok[i].text|, meta);
      assert STok[i] == Entry(STok[i].text, STok[i].kind);
      NoTableKindIsSpecial(i);
    case None =>
      TokensFromWord(line, p, meta);
      NotSpecialStart(line[p..]);
      var w := ScanWord(line, p, None, [], meta);
      TokenShapes(line, w.end, meta);
  }

  lemma NoTableKindIsSpecial(i: nat)
    requires i < |STok|
    ensures STok[i].kind != Simple && STok[i].kind != NoKind && STok[i].kind != SubCmd
  {
  }

  /** Every token consumes at least one character, so a line has at most as
      many tokens as characters. */
  lemma {:induction false} TokenCountBound(line: string, p: nat, meta: set<char>)
    requires p <= |line| && meta <= SpecialStarts
    requires TokensFrom(line, p, meta).Some?
    ensures |TokensFrom(line, p, meta).value| <= |line| - p
    decreases |line| - p, 1
  {
    if p == |line| || line[p] == '#' {
    } else if IsSpace(line[p]) {
      TokenCountBound(line, p + 1, meta);
    } else {
      TokenCountAtToken(line, p, meta);
    }
  }

  lemma {:induction false} TokenCountAtToken(line: string, p: nat, meta: set<char>)
    requires p < |line| && meta <= SpecialStarts && !IsSpace(line[p]) && line[p] != '#'
    requires TokensFrom(line, p, meta).Some?
    ensures |TokensFrom(line, p, meta).value| <= |line| - p
    decreases |line| - p, 0
  {
    match FirstSpecial(line[p..])
    case Some(i) =>
      TokensFromSpecial(line, p, meta, i);
      EntriesStartSpecial();
      TokenCountBound(line, p + |STok[i].text|, meta);
    case None =>
      TokensFromWord(line, p, meta);
      NotSpecialStart(line[p..]);
      var w := ScanWord(line, p, None, [], meta);
      TokenCountBound(line, w.end, meta);
  }

  /** tokenize fails only on a quote: a line without quote characters
      always yields a token list. */
  lemma {:induction false} NoQuoteNoFailure(line: string, p: nat, meta: set<char>)
    requires p <= |line| && meta <= SpecialStarts
    requires forall m :: p <= m < |line| ==> !IsQuote(line[m])
    ensures TokensFrom(line, p, meta).Some?
    decreases |line| - p, 1
  {
    if p == |line| || line[p] == '#' {
    } else if IsSpace(line[p]) {
      NoQuoteNoFailure(line, p + 1, meta);
    } else {
      NoQuoteAtToken(line, p, meta);
    }
  }

  lemma {:induction false} NoQuoteAtToken(line: string, p: nat, meta: set<char>)
    requires p < |line| && meta <= SpecialStarts && !IsSpace(line[p]) && line[p] != '#'
    requires forall m :: p <= m < |line| ==> !IsQuote(line[m])
    ensures TokensFrom(line, p, meta).Some?
    decreases |line| - p, 0
  {
    match FirstSpecial(line[p..])
    case Some(i) =>
      TokensFromSpecial(line, p, meta, i);
      EntriesStartSpecial();
      NoQuoteNoFailure(line, p + |STok[i].text|, meta);
    case None =>
      TokensFromWord(line, p, meta);
      NotSpecialStart(line[p..]);
      WordClosed(line, p, [], meta);
      var w := ScanWord(line, p, None, [], meta);
      NoQuoteNoFailure(line, w.end, meta);
  }

  /** Without quote characters a word never ends with a quote open. */
  lemma {:induction false} WordClosed(line: string, p: nat, acc: string, meta: set<char>)
    requires p <= |line| && meta <= SpecialStarts
    requires forall m :: p <= m < |line| ==> !IsQuote(line[m])
    ensures !ScanWord(line, p, None, acc, meta).open
    decreases |line| - p
  {
    if p < |line| {
      var c := line[p];
      if c == '\\' && p + 1 < |line| {
        if line[p + 1] == '\n' {
          WordClosed(line, p + 1, acc + [c], meta);
        } else {
          WordClosed(line, p + 2, acc + [line[p + 1]], meta);
        }
      } else if c !in meta && !IsSpace(c) {
        WordClosed(line, p + 1, acc + [c], meta);
      }
    }
  }
}

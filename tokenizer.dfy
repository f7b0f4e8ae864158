/**
 * tokenize.c: a command line becomes a sequence of typed tokens. Blanks
 * separate tokens, '#' at a token start ends the line, the special-token
 * table is tried first-entry-first, and everything else is a word (SIMPLE
 * token) with its quotes removed and its backslash escapes applied.
 */
module Tokenizer {
  import opened Wrappers

  /** The token and command types used by the tokenizer and the parser. */
  datatype Kind =
    | NoKind | Simple | SubCmd
    | Pipe | PipeErr
    | SepAnd | SepOr | SepEnd | SepBg
    | ParLeft | ParRight
    | RedIn | RedHere
    | RedOut | RedOutC | RedOutApp | RedOutAppC
    | RedErr | RedErrC | RedErrApp | RedErrAppC

  datatype Token = Token(kind: Kind, text: string)

  /** One row of the special-token table; its length is |text|. */
  datatype Entry = Entry(text: string, kind: Kind)

  /** Row i of the special-token table, in the source's order: an entry
      that is a prefix of another comes after it. */
  function SpecialEntry(i: nat): Entry
    requires i < 18
  {
    match i
    case 0 => Entry("<<", RedHere)
    case 1 => Entry("<", RedIn)
    case 2 => Entry(">>&!", RedErrAppC)
    case 3 => Entry(">>&", RedErrApp)
    case 4 => Entry(">>!", RedOutAppC)
    case 5 => Entry(">>", RedOutApp)
    case 6 => Entry(">&!", RedErrC)
    case 7 => Entry(">&", RedErr)
    case 8 => Entry(">!", RedOutC)
    case 9 => Entry(">", RedOut)
    case 10 => Entry(";", SepEnd)
    case 11 => Entry("&&", SepAnd)
    case 12 => Entry("&", SepBg)
    case 13 => Entry("||", SepOr)
    case 14 => Entry("|&", PipeErr)
    case 15 => Entry("|", Pipe)
    case 16 => Entry("(", ParLeft)
    case _ => Entry(")", ParRight)
  }

  function SpecialTokenTable(): (t: seq<Entry>)
    ensures |t| == 18 && forall i :: 0 <= i < 18 ==> t[i] == SpecialEntry(i)
  {
    seq(18, i requires 0 <= i < 18 => SpecialEntry(i))
  }

  const STok: seq<Entry> := SpecialTokenTable()

  /** Every special token is one to four characters long. */
  lemma EntryLength(i: nat)
    requires i < |STok|
    ensures 0 < |STok[i].text| <= 4
  {
  }

  /** The characters that begin a special token. The metacharacter set that
      ends a word must lie inside it, or the tokenizer could stop on a
      character it can neither match nor copy. */
  const SpecialStarts: set<char> := {'<', '>', ';', '&', '|', '(', ')'}

  /** C's isspace in the "C" locale. */
  predicate IsSpace(c: char) {
    c == ' ' || c == '\t' || c == '\n' || c == '\U{000B}' || c == '\U{000C}' || c == '\r'
  }

  predicate IsQuote(c: char) {
    c == '\'' || c == '"'
  }

  /** strncmp(s, p, |p|) == 0 */
  predicate StartsWith(s: string, p: string) {
    |p| <= |s| && s[..|p|] == p
  }

  /** The table search from entry i on: the index of the first entry whose
      text starts s. */
  function MatchFrom(s: string, i: nat): (r: Option<nat>)
    requires i <= |STok|
    ensures r.Some? ==> i <= r.value < |STok| && StartsWith(s, STok[r.value].text)
    decreases |STok| - i, s
  {
    if i == |STok| then None
    else if StartsWith(s, STok[i].text) then Some(i)
    else MatchFrom(s, i + 1)
  }

  function FirstSpecial(s: string): Option<nat> {
    MatchFrom(s, 0)
  }

  /** The search returns the first matching entry at or after i, and None
      only when no entry from i on matches. */
  lemma {:induction false} MatchFromIsFirst(s: string, i: nat)
    requires i <= |STok|
    ensures MatchFrom(s, i).Some? ==> forall j :: i <= j < MatchFrom(s, i).value ==> !StartsWith(s, STok[j].text)
    ensures MatchFrom(s, i).None? ==> forall j :: i <= j < |STok| ==> !StartsWith(s, STok[j].text)
    decreases |STok| - i
  {
    if i < |STok| && !StartsWith(s, STok[i].text) {
      MatchFromIsFirst(s, i + 1);
    }
  }

  /** The result of scanning one word: its text after quote removal and
      escapes, where the scan stopped, and whether a quote was left open. */
  datatype WordScan = WordScan(text: string, end: nat, open: bool)

  /** The inner loop of tokenize from position p, with the quote that is open
      (if any) and the text copied so far. */
  function ScanWord(line: string, p: nat, inQuote: Option<char>, acc: string, meta: set<char>): (r: WordScan)
    requires p <= |line| && meta <= SpecialStarts
    ensures p <= r.end <= |line|
    ensures r.open ==> r.end == |line|
    ensures inQuote.None? && p < |line| && !IsSpace(line[p]) && line[p] !in SpecialStarts ==> r.end > p
    decreases |line| - p
  {
    if p == |line| then WordScan(acc, p, inQuote.Some?)
    else
      var c := line[p];
      if inQuote == Some(c) then ScanWord(line, p + 1, None, acc, meta)
      else if inQuote.Some? then ScanWord(line, p + 1, inQuote, acc + [c], meta)
      else if IsQuote(c) then ScanWord(line, p + 1, Some(c), acc, meta)
      else if c == '\\' && p + 1 < |line| then
        if line[p + 1] == '\n' then ScanWord(line, p + 1, None, acc + [c], meta)
        else ScanWord(line, p + 2, None, acc + [line[p + 1]], meta)
      else if c !in meta && !IsSpace(c) then ScanWord(line, p + 1, None, acc + [c], meta)
      else WordScan(acc, p, false)
  }

  /** A word scan extends the text it was given, and adds no more characters
      than it consumes: quotes and escaping backslashes are dropped. */
  lemma {:induction false} ScanWordText(line: string, p: nat, inQuote: Option<char>, acc: string, meta: set<char>)
    requires p <= |line| && meta <= SpecialStarts
    ensures var r := ScanWord(line, p, inQuote, acc, meta);
      |acc| <= |r.text| && r.text[..|acc|] == acc && |r.text| - |acc| <= r.end - p
    decreases |line| - p
  {
    if p < |line| {
      var c := line[p];
      if inQuote == Some(c) {
        ScanWordText(line, p + 1, None, acc, meta);
      } else if inQuote.Some? {
        ScanWordText(line, p + 1, inQuote, acc + [c], meta);
      } else if IsQuote(c) {
        ScanWordText(line, p + 1, Some(c), acc, meta);
      } else if c == '\\' && p + 1 < |line| {
        if line[p + 1] == '\n' {
          ScanWordText(line, p + 1, None, acc + [c], meta);
        } else {
          ScanWordText(line, p + 2, None, acc + [line[p + 1]], meta);
        }
      } else if c !in meta && !IsSpace(c) {
        ScanWordText(line, p + 1, None, acc + [c], meta);
      }
    }
  }

  /** Puts t in front of a token list, or keeps the failure. */
  function Prepend(t: Token, rest: Option<seq<Token>>): Option<seq<Token>> {
    match rest
    case None => None
    case Some(ts) => Some([t] + ts)
  }

  /** Puts ts in front of a token list, or keeps the failure. */
  function PrependAll(ts: seq<Token>, rest: Option<seq<Token>>): Option<seq<Token>> {
    match rest
    case None => None
    case Some(us) => Some(ts + us)
  }

  lemma NotSpecialStart(s: string)
    requires |s| > 0 && FirstSpecial(s).None?
    ensures s[0] !in SpecialStarts
  {
    MatchFromIsFirst(s, 0);
    assert !StartsWith(s, STok[1].text) && !StartsWith(s, STok[9].text) && !StartsWith(s, STok[10].text);
    assert !StartsWith(s, STok[12].text) && !StartsWith(s, STok[15].text);
    assert !StartsWith(s, STok[16].text) && !StartsWith(s, STok[17].text);
  }

  /** The tokens of line from position p on, or None for an unterminated
      quote. */
  function TokensFrom(line: string, p: nat, meta: set<char>): Option<seq<Token>>
    requires p <= |line| && meta <= SpecialStarts
    decreases |line| - p
  {
    if p == |line| then Some([])
    else if IsSpace(line[p]) then TokensFrom(line, p + 1, meta)
    else if line[p] == '#' then Some([])
    else match FirstSpecial(line[p..])
      case Some(i) =>
        Prepend(Token(STok[i].kind, STok[i].text), TokensFrom(line, p + |STok[i].text|, meta))
      case None =>
        NotSpecialStart(line[p..]);
        var w := ScanWord(line, p, None, [], meta);
        if w.open then None
        else Prepend(Token(Simple, w.text), TokensFrom(line, w.end, meta))
  }

  /** tokenize: the token list of a whole line. The source returns NULL both
      for an unterminated quote and for a line without tokens; here those
      are None and Some([]). */
  function Tokens(line: string, meta: set<char>): Option<seq<Token>>
    requires meta <= SpecialStarts
  {
    TokensFrom(line, 0, meta)
  }

  lemma PrependAllSnoc(ts: seq<Token>, t: Token, rest: Option<seq<Token>>)
    ensures PrependAll(ts + [t], rest) == PrependAll(ts, Prepend(t, rest))
  {
    if rest.Some? {
      assert ts + [t] + rest.value == ts + ([t] + rest.value);
    }
  }

  /** The table search of tokenize: the index of the first matching entry,
      or |STok| when none matches. */
  method MatchSpecial(s: string) returns (i: nat)
    ensures i <= |STok|
    ensures i < |STok| <==> FirstSpecial(s).Some?
    ensures i < |STok| ==> FirstSpecial(s) == Some(i)
  {
    i := 0;
    while i < |STok|
      invariant i <= |STok|
      invariant MatchFrom(s, i) == FirstSpecial(s)
    {
      if StartsWith(s, STok[i].text) {
        return;
      }
      i := i + 1;
    }
  }

  /** The word loop of tokenize from position start: the text is written
      through index q into a buffer of its own while inQuote tracks the open
      quote. */
  method CopyWord(line: string, start: nat, meta: set<char>) returns (w: WordScan)
    requires start <= |line| && meta <= SpecialStarts
    ensures w == ScanWord(line, start, None, [], meta)
  {
    var text := new char[|line| - start];
    var p := start;
    var q := 0;
    var inQuote: Option<char> := None;
    ghost var copied: string := [];
    while p < |line|
      invariant start <= p <= |line| && q <= p - start && q == |copied|
      invariant text[..q] == copied
      invariant ScanWord(line, p, inQuote, copied, meta) == ScanWord(line, start, None, [], meta)
    {
      var c := line[p];
      if inQuote == Some(c) {
        assert ScanWord(line, p, inQuote, copied, meta) == ScanWord(line, p + 1, None, copied, meta);
        inQuote := None;
      } else if inQuote.Some? {
        assert ScanWord(line, p, inQuote, copied, meta) == ScanWord(line, p + 1, inQuote, copied + [c], meta);
        text[q] := c;
        q := q + 1;
        copied := copied + [c];
      } else if IsQuote(c) {
        assert ScanWord(line, p, inQuote, copied, meta) == ScanWord(line, p + 1, Some(c), copied, meta);
        inQuote := Some(c);
      } else if c == '\\' && p + 1 < |line| {
        if line[p + 1] == '\n' {
          assert ScanWord(line, p, inQuote, copied, meta) == ScanWord(line, p + 1, None, copied + [c], meta);
          text[q] := c;
        } else {
          assert ScanWord(line, p, inQuote, copied, meta) == ScanWord(line, p + 2, None, copied + [line[p + 1]], meta);
          p := p + 1;
          text[q] := line[p];
        }
        copied := copied + [text[q]];
        q := q + 1;
      } else if c !in meta && !IsSpace(c) {
        assert ScanWord(line, p, inQuote, copied, meta) == ScanWord(line, p + 1, None, copied + [c], meta);
        text[q] := c;
        q := q + 1;
        copied := copied + [c];
      } else {
        break;
      }
      p := p + 1;
    }
    w := WordScan(text[..q], p, inQuote.Some?);
  }

  lemma TokensFromSpecial(line: string, p: nat, meta: set<char>, i: nat)
    requires p < |line| && meta <= SpecialStarts
    requires !IsSpace(line[p]) && line[p] != '#' && FirstSpecial(line[p..]) == Some(i)
    ensures i < |STok| && p + |STok[i].text| <= |line|
    ensures TokensFrom(line, p, meta)
         == Prepend(Token(STok[i].kind, STok[i].text), TokensFrom(line, p + |STok[i].text|, meta))
  {}

  lemma TokensFromWord(line: string, p: nat, meta: set<char>)
    requires p < |line| && meta <= SpecialStarts
    requires !IsSpace(line[p]) && line[p] != '#' && FirstSpecial(line[p..]).None?
    ensures var w := ScanWord(line, p, None, [], meta);
      TokensFrom(line, p, meta) == if w.open then None else Prepend(Token(Simple, w.text), TokensFrom(line, w.end, meta))
  {}

  // One pass of tokenize's loop, for each kind of character at p.

  lemma SpacePass(line: string, p: nat, meta: set<char>, toks: seq<Token>)
    requires p < |line| && meta <= SpecialStarts && IsSpace(line[p])
    ensures PrependAll(toks, TokensFrom(line, p, meta)) == PrependAll(toks, TokensFrom(line, p + 1, meta))
  {}

  lemma SpecialPass(line: string, p: nat, meta: set<char>, toks: seq<Token>, i: nat)
    requires p < |line| && meta <= SpecialStarts
    requires !IsSpace(line[p]) && line[p] != '#' && FirstSpecial(line[p..]) == Some(i)
    ensures i < |STok| && p < p + |STok[i].text| <= |line|
    ensures PrependAll(toks, TokensFrom(line, p, meta))
         == PrependAll(toks + [Token(STok[i].kind, STok[i].text)], TokensFrom(line, p + |STok[i].text|, meta))
  {
    TokensFromSpecial(line, p, meta, i);
    EntryLength(i);
    PrependAllSnoc(toks, Token(STok[i].kind, STok[i].text), TokensFrom(line, p + |STok[i].text|, meta));
  }

  lemma WordPass(line: string, p: nat, meta: set<char>, toks: seq<Token>, w: WordScan)
    requires p < |line| && meta <= SpecialStarts
    requires !IsSpace(line[p]) && line[p] != '#' && FirstSpecial(line[p..]).None?
    requires w == ScanWord(line, p, None, [], meta)
    ensures w.open ==> TokensFrom(line, p, meta) == None
    ensures !w.open ==> p < w.end <= |line|
    ensures !w.open ==>
      PrependAll(toks, TokensFrom(line, p, meta)) == PrependAll(toks + [Token(Simple, w.text)], TokensFrom(line, w.end, meta))
  {
    TokensFromWord(line, p, meta);
    NotSpecialStart(line[p..]);
    PrependAllSnoc(toks, Token(Simple, w.text), TokensFrom(line, w.end, meta));
  }

  lemma StartEmpty(line: string, meta: set<char>)
    requires meta <= SpecialStarts
    ensures Tokens(line, meta) == PrependAll([], TokensFrom(line, 0, meta))
  {
    if TokensFrom(line, 0, meta).Some? {
      assert [] + TokensFrom(line, 0, meta).value == TokensFrom(line, 0, meta).value;
    }
  }

  /** tokenize as the source runs it: the index p walks the line and tokens are
      appended at the tail of the list. */
  method Tokenize(line: string, meta: set<char>) returns (r: Option<seq<Token>>)
    requires meta <= SpecialStarts
    ensures r == Tokens(line, meta)
  {
    var toks: seq<Token> := [];
    var p := 0;
    StartEmpty(line, meta);
    while p < |line|
      invariant p <= |line|
      invariant Tokens(line, meta) == PrependAll(toks, TokensFrom(line, p, meta))
    {
      if IsSpace(line[p]) {
        SpacePass(line, p, meta, toks);
        p := p + 1;
        continue;
      } else if line[p] == '#' {
        break;
      }

      var i := MatchSpecial(line[p..]);
      if i < |STok| {
        SpecialPass(line, p, meta, toks, i);
        toks := toks + [Token(STok[i].kind, STok[i].text)];
        p := p + |STok[i].text|;
        continue;
      }

      var w := CopyWord(line, p, meta);
      WordPass(line, p, meta, toks, w);
      if w.open {
        return None;
      }
      toks := toks + [Token(Simple, w.text)];
      p := w.end;
    }
    assert TokensFrom(line, p, meta) == Some([]);
    assert toks + [] == toks;
    r := Some(toks);
  }
}

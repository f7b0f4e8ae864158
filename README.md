# eggshell front end, modelled in Dafny

This project models the text-processing core of the eggshell shell, and the
laws that hold of it:

- the Eggshell whitespace code. The encoder `toWhitespace` writes each ASCII
  character as seven spaces and tabs. The decoder `getwc` reads one
  character back.
- the tokenizer `tokenize` and its special-token table `STok`.
- the recursive-descent parser of `parse.c`. This covers redirections, here
  documents with `$NAME` expansion, simple commands, stages, pipelines,
  and-or lists, command lists and the pipe/redirection conflict check.
- the growable string buffer (`strBuffer.c`) and the string stack
  (`stack.c`).

Where the source changes state step by step, it is modelled imperatively:

- `ToWhitespace`, `GetWc`, `Tokenize`, `CheckRedirection`, `ParseSimple` and
  `ReadHereDocLine` are methods with loops. Each is proved equal to a pure
  specification function.
- The buffer and the stack are classes over arrays.

The recursive parsing functions and `checkMultipleRedirection` are functions.
The laws are lemmas about the specification functions.

Files:

| file | module | models |
|---|---|---|
| wrappers.dfy | Wrappers | `Option` (a NULL result) |
| whitespace.dfy, whitespace_laws.dfy | Whitespace, WhitespaceLaws | toWhitespace.py, getwc.c |
| strbuffer.dfy | StrBuffers | strBuffer.c |
| stack.dfy | Stacks | stack.c |
| tokenizer.dfy, tokenizer_laws.dfy | Tokenizer, TokenizerLaws | tokenize.c |
| heredoc.dfy, heredoc_laws.dfy | HereDoc, HereDocLaws | readHereDocLine and readHereDocument in parse.c |
| parser.dfy, parser_laws.dfy | Parser, ParserLaws | the rest of parse.c; the CMD defaults of mallocCMD in main.c |

## Model

| member | source | states |
|---|---|---|
| Whitespace.ToWhitespace | toWhitespace.py:14-33 | The nested mask loop gives exactly `Encode(st)`. That is None as soon as any character lies outside 0..127, with no partial output. Otherwise it is the seven-symbol blocks of the characters, in input order. |
| Whitespace.EncodeChar | toWhitespace.py:18-31 | One character's block has exactly seven symbols, one per mask 0x40 .. 0x01. |
| Whitespace.GetWc | getwc.c:22-45 | The decoding loop returns `Decode(input)`: the decoded value or EOF, and how many symbols it took. |
| WhitespaceLaws.EncodeLength | toWhitespace.py:17-31 | An ASCII string of n characters encodes to exactly 7·n symbols. |
| WhitespaceLaws.EncodeAlphabet | toWhitespace.py:27-30 | Every output symbol is a space or a tab. |
| WhitespaceLaws.EncodeConcat | toWhitespace.py:16-33 | Encoding s + t gives the encoding of s followed by that of t. |
| WhitespaceLaws.EncodeBlock | toWhitespace.py:17-31 | Input character i owns output positions 7i .. 7i+6, and they hold its block. |
| WhitespaceLaws.EncodeCharSpelled | toWhitespace.py:26-31 | Symbol k of a block is selected by mask 0x40 >> k: a space for a 1 bit, a tab for a 0 bit. |
| WhitespaceLaws.BlockIsBinaryNumeral | toWhitespace.py:18-31 | Read as a binary numeral, most significant first (space 1, tab 0), a character's block is its code point. |
| WhitespaceLaws.EncodeEmpty | toWhitespace.py:16-33 | The empty string encodes to the empty string. |
| WhitespaceLaws.EncodeExtremes | toWhitespace.py:26-31 | Code point 0 is seven tabs; 127 is seven spaces. |
| WhitespaceLaws.EncodeLetterA | toWhitespace.py:26-31 | 'A' (0x41) is a space, five tabs, a space. |
| WhitespaceLaws.EncodeTwoLetters | toWhitespace.py:16-33 | "AB" is the block of 'A' followed by the block of 'B'. |
| WhitespaceLaws.EncodeRejects | toWhitespace.py:22-24 | One character outside 0..127, at any position, makes the result None. |
| WhitespaceLaws.EncodeRejectsExample | toWhitespace.py:22-24 | The result is None whether the bad character comes after or before a valid one. |
| WhitespaceLaws.DecodeOutcome | getwc.c:27-44 | Both directions: EOF exactly when the stream ends or shows a non-space, non-tab symbol within seven symbols. A success takes exactly seven symbols and lies in 0..127. |
| WhitespaceLaws.DecodeWhitespaceSucceeds | getwc.c:27-38 | Any stream that starts with seven spaces or tabs decodes without error. |
| WhitespaceLaws.DecodeGathers | getwc.c:34-37 | The decoded value is the OR of the masks at the positions holding a space. |
| WhitespaceLaws.EncodeDecoded | getwc.c:27-44 | Round trip, decoder first: a block of seven spaces and tabs is the encoding of the character decoded from it. |
| WhitespaceLaws.DecodeEncoded | getwc.c:27-44 | Round trip, encoder first: decoding the block of c, whatever follows it, gives c and consumes exactly seven symbols. |
| WhitespaceLaws.DecodeAllEncoded | getwc.c:22-45 | Decoding an encoded string one character at a time gives back its code points. |
| StrBuffers.StrBuffer.constructor | strBuffer.c:17-34 | A new buffer is empty, with size 10 and the terminator at index 0. |
| StrBuffers.StrBuffer.Append | strBuffer.c:42-54 | The contents become the old contents plus c, and len grows by one. The size doubles exactly when len + 1 == size. Room for the terminator is kept. |
| StrBuffers.StrBuffer.Grow | strBuffer.c:56-62 | The size doubles; len and the contents are unchanged. |
| StrBuffers.StrBuffer.Shrink | strBuffer.c:64-70 | The size becomes len + 1; the contents and the terminator are kept. |
| Stacks.Stack.constructor | stack.c:19-27 | A new stack is empty, with room for 10 elements. |
| Stacks.Stack.Push | stack.c:39-50 | The contents become the old contents plus s, and dataLen grows by one. A full stack doubles dataSize first. |
| Stacks.Stack.Pop | stack.c:52-63 | On a non-empty stack: the top element, and the contents without it. On an empty stack: None, with nothing changed. |
| Stacks.PushThenPop | stack.c:39-63 | Last in, first out: a push then a pop returns s and restores the previous contents and length. |
| Tokenizer.Tokenize | tokenize.c:50-142 | The scanning loop returns `Tokens(line, meta)`. That is the token list, or None for an unterminated quote. |
| Tokenizer.MatchSpecial | tokenize.c:77-82 | The table loop stops at the first entry that starts the input, or at the end of the table when none does. |
| Tokenizer.CopyWord | tokenize.c:92-131 | The in-place word copy through q gives the same text, end and open-quote flag as `ScanWord`. |
| Tokenizer.MatchFromIsFirst | tokenize.c:77-82 | The search result is the first matching entry; None means no entry matches. |
| Tokenizer.ScanWord | tokenize.c:95-129 | A word scan stays within the line, and a word left open runs to its end. A word that starts on a plain character consumes at least one character. |
| Tokenizer.ScanWordText | tokenize.c:95-129 | A word scan only adds to the text it was given. It never adds more characters than it consumes, because quotes and escaping backslashes are dropped. |
| TokenizerLaws.TableOrdered | tokenize.c:20-43 | No table entry is a prefix of an entry after it. |
| TokenizerLaws.EntriesStartSpecial | tokenize.c:24-43 | Every entry is non-empty and starts with one of `<>;&\|()`. |
| TokenizerLaws.FirstMatchIsLongest | tokenize.c:77-82 | The first matching entry is the longest matching one, so an operator is never split. |
| TokenizerLaws.NoSpecialMatch | tokenize.c:77-92 | A character that starts no operator matches no entry, so a word begins there. |
| TokenizerLaws.LongestRedirection | tokenize.c:27-34 | `>>&!` is matched as RED_ERR_APP_C. |
| TokenizerLaws.ErrorPipe | tokenize.c:36-40 | `\|&` is matched as PIPE_ERR, not as a pipe followed by `&`. |
| TokenizerLaws.Lookup | tokenize.c:77-82 | Entry i is found when it starts the input and no earlier entry does. |
| TokenizerLaws.SkipBlanks | tokenize.c:61-65 | Blanks between tokens produce nothing. |
| TokenizerLaws.BlankLine | tokenize.c:59-65 | A line of blanks has no tokens. |
| TokenizerLaws.CommentLine | tokenize.c:59-69 | A `#` where a token would start ends the line, quotes included. Any plain words and blanks before it keep their tokens. |
| TokenizerLaws.CommentOnlyLine | tokenize.c:59-69 | Blanks followed by a `#` give no tokens. |
| TokenizerLaws.PlainPrefix | tokenize.c:59-139 | Tokenizing a + x gives the tokens of a, then carries on at the end of a as if a were not there, when a is plain words and blanks ending in a blank. |
| TokenizerLaws.QuotedVerbatim | tokenize.c:97-108 | Inside quotes, everything up to the matching quote is copied verbatim. The quotes are dropped. |
| TokenizerLaws.QuoteRunsOut | tokenize.c:95-108 | A quote that is never closed runs to the end of the line and leaves the word open. |
| TokenizerLaws.UnterminatedQuote | tokenize.c:95-138 | A quote that opens where a token would start and is never closed makes the whole result None. That holds after any plain words and blanks, and the tokens read before the quote are given up. |
| TokenizerLaws.PlainRun | tokenize.c:120-128 | Plain characters are copied up to a blank or a metacharacter. |
| TokenizerLaws.PlainWord | tokenize.c:92-131 | A word of plain characters is one SIMPLE token with that text. |
| TokenizerLaws.EscapedBlank | tokenize.c:109-119 | `a\ b` is the one word `a b`: the backslash is dropped and the blank is kept. |
| TokenizerLaws.EscapedNewline | tokenize.c:109-114 | A backslash before a newline is kept, and the newline ends the word. |
| TokenizerLaws.TokenShapes | tokenize.c:84-92 | Every token is a SIMPLE word or a verbatim table entry, never NONE or SUBCMD. |
| TokenizerLaws.TokenCountBound | tokenize.c:59-139 | A line has at most as many tokens as characters. |
| TokenizerLaws.NoQuoteNoFailure | tokenize.c:133-138 | A line without quote characters always gives a token list. |
| TokenizerLaws.WordClosed | tokenize.c:105-108 | Without quote characters, a word never ends with a quote open. |
| HereDoc.ReadHereDocLine | parse.c:56-132 | The buffer's contents become the old contents plus `Expand(line, env)`. |
| HereDoc.ExpandAt | parse.c:62-130 | One pass of the switch appends `ChunkOut(line, c)`, the expansion of exactly one piece, and moves to `ChunkEnd(line, c)`, the end of that piece. |
| HereDoc.ExpandVariable | parse.c:66-111 | A `$` followed by a name start appends the name's value (empty when unset) and then the character after the name. The step moves just past that character, which is the end of the piece. |
| HereDoc.ExpandDollar | parse.c:66-83 | A `$` not followed by `_` or a letter appends exactly `$` and the character after it. The step moves two characters on, to the end of that piece. |
| HereDoc.ExpandBackslash | parse.c:113-125 | Before `$` or a second backslash, the first backslash is dropped and only the second character is appended. Before any other character, both are appended. The step moves two characters on, to the end of that piece. |
| HereDoc.AppendAll | parse.c:96-103 | The characters of the variable's value are appended after the old contents, in order. |
| HereDoc.ReadName | parse.c:70-94 | The name is the run of `_` and alphanumerics after the `$`, ending where `NameEnd` says. |
| HereDoc.NameEnd | parse.c:86-94 | The name ends at the first character that is not `_` or alphanumeric. |
| HereDoc.ChunkEnd | parse.c:62-130 | Every piece of the line is non-empty and ends inside the line. |
| HereDoc.HereDocument | parse.c:137-174 | Reading takes at least one line from a non-empty input and never adds lines. |
| HereDoc.HereDocumentRest | parse.c:150-168 | The unread lines are the last lines of the input, in order. |
| HereDoc.ReadHereDocument | parse.c:137-174 | The line loop gives exactly `HereDocument(word, input, env)`. |
| HereDoc.ReadBodyLine | parse.c:158-167 | A stopping line leaves the buffer alone; any other line appends its expansion. |
| HereDocLaws.NothingToExpand | parse.c:66-129 | A line without `\`, and without a `$` before a name start, is copied unchanged. |
| HereDocLaws.Variable | parse.c:66-111 | `$NAME c` becomes the value of NAME (empty when unset) followed by c, copied as it is. |
| HereDocLaws.LoneDollarExample | parse.c:74-83 | `$1 or $` is copied unchanged. |
| HereDocLaws.SubstituteExample | parse.c:96-103 | With HOME=/root, `$HOME/x` becomes `/root/x`. |
| HereDocLaws.UnsetExample | parse.c:96-108 | An unset variable expands to nothing. |
| HereDocLaws.AdjacentVariables | parse.c:105-108 | In `$A$B`, only A is substituted: the `$` ending the name is copied uninterpreted. |
| HereDocLaws.EscapeExample | parse.c:113-125 | `\$` and `\\` lose the backslash; `\n` (backslash, letter) keeps it. |
| HereDocLaws.KeepsNewline | parse.c:53-58 | The expansion of a line still ends in its newline. |
| HereDocLaws.ExpandConcat | parse.c:156-168 | Expanding line after line is expanding the joined lines: nothing reaches across a newline. |
| HereDocLaws.HereDocumentText | parse.c:150-168 | Body lines followed by the word on a line of its own: the document is the expanded body. The lines after the word stay unread. |
| HereDocLaws.HereDocumentUnterminated | parse.c:156-168 | Without the word, the document runs to the end of the input. |
| Parser.Redirections | parse.c:189-251 | Only a suffix of the tokens is left, and it does not start with a redirection. A slot once filled keeps its redirection. Each slot holds a redirection of its own direction. |
| Parser.OneRedirection | parse.c:194-246 | Both directions: one redirection succeeds exactly when its slot is free and a SIMPLE token follows. `<` and the output operators take that token as the file; `<<` takes the expanded here document and advances the input. |
| Parser.CheckRedirection | parse.c:189-251 | The loop over `*tok`, `*redIn` and `*redOut` gives exactly `Redirections`. |
| Parser.ApplyRedirection | parse.c:256-268 | A filled slot sets its type and file fields. An empty slot leaves them, and every other field is unchanged. |
| Parser.SimpleArgs | parse.c:333-355 | The words read so far stay a prefix of argv. The command stops at a token that is neither SIMPLE nor a redirection. |
| Parser.SimpleCommand | parse.c:320-358 | A simple command has at least one word and consumes at least one token. |
| Parser.ParseSimple | parse.c:320-358 | The argv-growing loop gives exactly `SimpleCommand`. |
| Parser.ParseStage | parse.c:364-439 | A stage consumes at least one token. The result is a SIMPLE node with words, or a SUBCMD node over a command, with redirection fields of the right direction. |
| Parser.SubCommand | parse.c:383-416 | `(` command `)` gives a SUBCMD stage whose left child is a command. |
| Parser.CloseSubCommand | parse.c:398-415 | The `)` and the redirections after it complete the SUBCMD stage. |
| Parser.SimpleStage | parse.c:418-438 | A simple command with the redirections read before it is a SIMPLE stage. |
| Parser.ParsePipeline | parse.c:442-485 | The result is a stage, or a pipe node with a stage on the left and a pipeline on the right. |
| Parser.ParseAndOr | parse.c:488-531 | The result is a pipeline, or a `&&`/`\|\|` node over a pipeline and an and-or. |
| Parser.ParseCommand | parse.c:534-579 | The result is an and-or, or a `;`/`&` node over an and-or and an optional command. |
| Parser.Parse | parse.c:582-603 | A command is returned only for a non-empty token list. It is a well-formed command tree that passes the pipe check, and parseCommand produced it using every token. |
| ParserLaws.RedirectionsCount | parse.c:189-251 | Reading redirections consumes no word. Each slot is filled exactly when one operator of its direction was read, and at most one per direction is ever accepted. |
| ParserLaws.DuplicateInputFails | parse.c:196-199 | Two input redirections (`<` or `<<`, in any order) one after the other always fail, whatever slots were already filled. |
| ParserLaws.DuplicateOutputFails | parse.c:225-228 | Two output redirections one after the other always fail, whatever slots were already filled. |
| ParserLaws.SingleRedirection | parse.c:200-246 | One redirection followed by a non-redirection fills exactly its slot. |
| ParserLaws.MissingFileFails | parse.c:205-240 | An operator not followed by a SIMPLE token fails. |
| ParserLaws.SimpleArgsWords | parse.c:333-355 | argv is the words written, in order, without redirection operands. The slots are filled as in RedirectionsCount. |
| ParserLaws.SimpleCommandWords | parse.c:320-358 | parseSimple's argv is `Words(toks)`, and it starts with the leading SIMPLE token. |
| ParserLaws.PipelineOne | parse.c:458-463 | A stage not followed by `\|` or `\|&` is the whole pipeline, with the same tokens and input left over. |
| ParserLaws.PipelineMore | parse.c:464-484 | A stage followed by `\|` or `\|&` becomes a node of that operator's kind, with the stage on the left and the pipeline after the operator on the right. |
| ParserLaws.AndOrOne | parse.c:504-509 | A pipeline not followed by `&&` or `\|\|` is the whole and-or. |
| ParserLaws.AndOrMore | parse.c:510-530 | A pipeline followed by `&&` or `\|\|` becomes a node of that operator's kind, with the pipeline on the left and the and-or after the operator on the right. |
| ParserLaws.CommandOne | parse.c:551-556 | An and-or not followed by `;` or `&` is the whole command. |
| ParserLaws.CommandMore | parse.c:557-578 | An and-or followed by `;` or `&` and then by more than `)` becomes a node of that operator's kind, with the command after it as its right child. |
| ParserLaws.CommandLast | parse.c:557-578 | A `;` or `&` at the end of the tokens, or before `)`, gives a node of its kind with no right child. The `)` is left unread. |
| ParserLaws.ParseWhole | parse.c:582-603 | A command that parseCommand builds from every token, and that passes the pipe check, is the result of parse. With the contract of `Parse`, this is an if-and-only-if. |
| ParserLaws.PlainCommand | parse.c:582-603 | A line of plain words parses to one SIMPLE command holding those words. |
| ParserLaws.StageIsCommand | parse.c:442-579 | A stage followed by no operator is the whole command. |
| ParserLaws.PipelineExample | parse.c:442-485 | `a \| b \|& c` gives PIPE(a, PIPE_ERR(b, c)): right-nested, each node typed by its operator. |
| ParserLaws.ListExample | parse.c:488-579 | `a && b ; c &` gives SEP_END(SEP_AND(a, b), SEP_BG(c)), and the final `&` has no right child. |
| ParserLaws.RedirectionExample | parse.c:364-439 | `> o ls < i` is `ls` with stdin from i and stdout to o. Redirections before and between words both apply. |
| ParserLaws.SubCommandExample | parse.c:383-416 | `( a ; ) > f` is a SUBCMD over SEP_END(a), with stdout redirected to f. |
| ParserLaws.MissingParenExample | parse.c:383-396 | `( a` without `)` is rejected. |
| ParserLaws.StageFails | parse.c:442-579 | A failing first stage makes the whole line fail. |
| ParserLaws.PipelineCheck | parse.c:273-302 | Both directions: checkMultipleRedirection accepts a pipeline exactly when no stage is redirected on a side a pipe connects, and every stage passes on its own. |
| ParserLaws.UnredirectedPasses | parse.c:273-302 | checkMultipleRedirection rejects only redirections: a command tree of any shape with no redirected node passes it. |
| ParserLaws.PipeConflictExample | parse.c:273-302 | `a > f \| b` is rejected. |
| ParserLaws.StageStepAsWritten | parse.c:373-383 | As written, parseStage reads the next token's type even when the redirections used every token. |
| ParserLaws.RedirectionOnlyLine | parse.c:373-383 | For `< f`, the as-written step reads a NULL token. |
| ParserLaws.RedirectionsOnlyRejected | parse.c:364-439 | In the model, a line whose leading redirections use every token is rejected. |

## Left out

- Input and output: the `__main__` block of toWhitespace.py, the stderr messages and the exit status. The error exit at toWhitespace.py:22-24 is the result None.
- The stream of getwc is a sequence of characters. EOF is the value -1, and the consumed count stands for the stream position.
- Memory management is not modelled: malloc or realloc failure, `free`, `freeCMD`, `freeList`, `freeStack`, `freeStrBuffer`. `strdup` copies are string values.
- METACHAR and the token-type constants live in parse.h, which is not part of this model.
  - The metacharacter set is a parameter `meta`, required to lie within the characters that start a table entry.
  - The token types form the enumeration `Kind`.
- Tokenize: the source returns NULL both for an unterminated quote and for a line without tokens. The model returns None and Some([]) respectively.
- Lines hold no NUL character; C strings end at the first NUL.
- Lines are sequences of Dafny `char`s, while tokenize.c and parse.c work on C bytes.
  - IsSpace, IsNameStart and IsNameChar are the "C" locale's `isspace`, `isalpha` and `isalnum` on ASCII. A character above 0x7F is never a blank or a name character in the model. In C, passing such a byte, negative as a signed `char`, to those functions is undefined.
  - Lengths, as in TokenCountBound and ScanWordText, count characters, not bytes. The two agree on ASCII lines.
- StrBuffers.StrBuffer.Append, StrBuffers.StrBuffer.Grow, Stacks.Stack.Push: `size`, `len`, `dataSize` and `dataLen` are `unsigned int` (strBuffer.h:15-16, stack.h:17-18). The model uses unbounded naturals, so it does not capture `size * 2` or `dataSize * 2` wrapping around past 2^32. That would take a buffer of more than 2^31 characters or stack entries.
- The token list is a sequence, not a linked list. `CMD` is a datatype value, not a struct updated in place. ApplyRedirection: returns the updated node instead of writing its fields. No CMD node is shared in the source, so no aliasing is lost.
- Here documents read their lines from a sequence `input`, standing for what getLine would return from stdin. `getenv` is an environment map `env`.
- The assert at parse.c:58 reads `line[strlen(line-2)]`, which is not a valid test. The model uses the intended precondition instead: the line ends in a newline.
- On a failed parse, the model returns the input lines still unread. It makes no claim about that count against the source beyond what the functions compute.
- process.c, builtinCommands.c, getLine.c and the REPL and printers of main.c are not part of this model. Of main.c, only the CMD defaults of mallocCMD (main.c:60-76) are used, as `EmptyCmd`.

## Findings

| source | as written | input that shows it | evidently intended | confidence | as-written member | corrected member |
|---|---|---|---|---|---|---|
| parse.c:383 | After the leading redirections, parseStage reads `tok->type` without checking that a token is left. | The tokens of `< f` (RED_IN, SIMPLE "f"): checkRedirection consumes both, so `tok` is NULL at line 383. | Such a line is rejected as a parse error, like any other stage without a command. | high; not executed | ParserLaws.StageStepAsWritten, ParserLaws.RedirectionOnlyLine | Parser.ParseStage, ParserLaws.RedirectionsOnlyRejected |

/**
 * The Eggshell whitespace code: every ASCII character is written as seven
 * whitespace symbols, most significant of its seven low bits first, a space
 * for a 1 bit and a tab for a 0 bit.
 *
 * The encoder (toWhitespace.py) and the decoder of one character (getwc.c)
 * are both loops; each is a method here, proved equal to a pure
 * specification function, and the laws of the code are lemmas about those
 * functions.
 */
module Whitespace {
  import opened Wrappers

  /** The value getwc returns when it cannot decode a character. */
  const EOF: int := -1

  /** Python's `ord(c)` is the character's code point. */
  predicate IsAscii(c: char) {
    0 <= c as int <= 127
  }

  predicate AllAscii(s: string) {
    forall i :: 0 <= i < |s| ==> IsAscii(s[i])
  }

  predicate IsWhitespaceSymbol(c: char) {
    c == ' ' || c == '\t'
  }

  /** The mask checked at step k (k = 0..6): 0x40, 0x20, ..., 0x01; 0 once all
      seven steps are done. */
  function Mask(k: nat): bv8
    requires k <= 7
  {
    0x40 >> k
  }

  /** The mask is zero exactly after the seventh step, and each step halves
      it. */
  lemma MaskStep(k: nat)
    requires k <= 7
    ensures (Mask(k) == 0) == (k == 7)
    ensures k < 7 ==> Mask(k) >> 1 == Mask(k + 1)
  {
    match k
    case 0 => case 1 => case 2 => case 3 => case 4 => case 5 => case 6 => case 7 =>
  }

  /** The symbol emitted for the bit of code point c selected by mask. */
  function Symbol(c: char, mask: bv8): char
    requires IsAscii(c)
  {
    if mask & (c as int as bv8) == 0 then '\t' else ' '
  }

  /** The seven symbols of one character, one per mask 0x40 .. 0x01. */
  function EncodeChar(c: char): (r: string)
    requires IsAscii(c)
    ensures |r| == 7
  {
    seq(7, k requires 0 <= k < 7 => Symbol(c, Mask(k)))
  }

  /** The first k + 1 symbols of a block are the first k and symbol k. */
  lemma EncodeCharPrefix(c: char, k: nat)
    requires IsAscii(c) && k < 7
    ensures EncodeChar(c)[..k + 1] == EncodeChar(c)[..k] + [Symbol(c, Mask(k))]
  {
    var e := EncodeChar(c);
    assert e[k] == Symbol(c, Mask(k));
    assert e[..k + 1] == e[..k] + [e[k]];
  }

  /** The encoding of an all-ASCII string: the blocks of its characters in
      input order. */
  function EncodeAscii(s: string): string
    requires AllAscii(s)
  {
    if s == [] then [] else EncodeAscii(s[..|s| - 1]) + EncodeChar(s[|s| - 1])
  }

  /** toWhitespace: the whole encoding, or None (the source's exit with status 1)
      as soon as one character is outside 0..127; no partial output. */
  function Encode(s: string): Option<string> {
    if AllAscii(s) then Some(EncodeAscii(s)) else None
  }

  /** toWhitespace as the source runs it: an outer loop over the characters, an
      inner loop shifting the mask right from 0x40. */
  method ToWhitespace(st: string) returns (r: Option<string>)
    ensures r == Encode(st)
  {
    var whiteSt: string := [];
    var i := 0;
    while i < |st|
      invariant 0 <= i <= |st|
      invariant AllAscii(st[..i])
      invariant whiteSt == EncodeAscii(st[..i])
    {
      var c := st[i];
      var cInt := c as int;
      if cInt > 127 || cInt < 0 {
        assert !AllAscii(st) by { assert !IsAscii(st[i]); }
        return None;
      }
      ghost var before := whiteSt;
      var mask: bv8 := 0x40;
      ghost var k := 0;
      while mask > 0
        invariant 0 <= k <= 7 && mask == Mask(k)
        invariant whiteSt == before + EncodeChar(c)[..k]
        decreases 7 - k
      {
        MaskStep(k);
        if mask & (cInt as bv8) == 0 {
          whiteSt := whiteSt + ['\t'];
        } else {
          whiteSt := whiteSt + [' '];
        }
        EncodeCharPrefix(c, k);
        mask := mask >> 1;
        k := k + 1;
      }
      MaskStep(k);
      assert st[..i + 1][..i] == st[..i];
      i := i + 1;
    }
    assert st[..i] == st;
    r := Some(whiteSt);
  }

  /** getwc from step k on, with the bits gathered so far in outchar: the
      decoded value (or EOF) and how many symbols were taken from the stream.
      A symbol that is not whitespace has been read, so it counts as consumed;
      end of input consumes nothing more. */
  function DecodeFrom(input: seq<char>, k: nat, outchar: bv8): (int, nat)
    requires k <= 7
    decreases 7 - k
  {
    if k == 7 then (outchar as int, 7)
    else if k >= |input| then (EOF, k)
    else if !IsWhitespaceSymbol(input[k]) then (EOF, k + 1)
    else DecodeFrom(input, k + 1, if input[k] == ' ' then outchar | Mask(k) else outchar)
  }

  /** getwc: decode one character from the front of the stream. */
  function Decode(input: seq<char>): (int, nat) {
    DecodeFrom(input, 0, 0)
  }

  /** getwc as the source runs it: mask i runs 0x40 .. 0x01, each step reads
      one symbol; a space ORs the mask into the result. */
  method GetWc(input: seq<char>) returns (c: int, consumed: nat)
    ensures (c, consumed) == Decode(input)
  {
    var outchar: bv8 := 0;
    var i: bv8 := 0x40;
    consumed := 0;
    while i != 0
      invariant consumed <= 7 && i == Mask(consumed)
      invariant DecodeFrom(input, consumed, outchar) == Decode(input)
      decreases 7 - consumed
    {
      MaskStep(consumed);
      if consumed >= |input| {
        return EOF, consumed;
      }
      var sym := input[consumed];
      consumed := consumed + 1;
      if !IsWhitespaceSymbol(sym) {
        return EOF, consumed;
      } else if sym == ' ' {
        outchar := outchar | i;
      }
      i := i >> 1;
    }
    MaskStep(consumed);
    c := outchar as int;
  }

  /** Decoding a stream character by character until getwc gives EOF. */
  function DecodeAll(input: seq<char>): seq<int>
    decreases |input|
  {
    var (c, n) := Decode(input);
    if c == EOF || n == 0 || n > |input| then [] else [c] + DecodeAll(input[n..])
  }

  function Codes(s: string): seq<int> {
    seq(|s|, i requires 0 <= i < |s| => s[i] as int)
  }
}

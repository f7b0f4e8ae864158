/**
 * Laws of the whitespace code: the length, alphabet, block and concatenation
 * laws of the encoder (toWhitespace.py), the outcome and range of the
 * decoder (getwc.c), and the two round trips between them.
 */
module WhitespaceLaws {
  import opened Wrappers
  import opened Whitespace

  // ---------------------------------------------------------------------------
  // Encoder

  lemma {:induction false} EncodeLength(s: string)
    requires AllAscii(s)
    ensures |EncodeAscii(s)| == 7 * |s|
  {
    if s != [] {
      EncodeLength(s[..|s| - 1]);
    }
  }

  lemma {:induction false} EncodeAlphabet(s: string)
    requires AllAscii(s)
    ensures forall j :: 0 <= j < |EncodeAscii(s)| ==> IsWhitespaceSymbol(EncodeAscii(s)[j])
  {
    if s != [] {
      EncodeAlphabet(s[..|s| - 1]);
    }
  }

  /** Encoding is compositional: the code of s + t is the code of s followed by
      the code of t. */
  lemma {:induction false} EncodeConcat(s: string, t: string)
    requires AllAscii(s) && AllAscii(t)
    ensures AllAscii(s + t)
    ensures EncodeAscii(s + t) == EncodeAscii(s) + EncodeAscii(t)
  {
    if t == [] {
      assert s + t == s;
    } else {
      var u, init, last := s + t, t[..|t| - 1], t[|t| - 1];
      assert u[..|u| - 1] == s + init;
      assert u[|u| - 1] == last;
      EncodeConcat(s, init);
      assert EncodeAscii(u) == (EncodeAscii(s) + EncodeAscii(init)) + EncodeChar(last);
      assert (EncodeAscii(s) + EncodeAscii(init)) + EncodeChar(last)
          == EncodeAscii(s) + (EncodeAscii(init) + EncodeChar(last));
    }
  }

  /** The code of a non-empty string is the block of its first character
      followed by the code of the rest. */
  lemma EncodeFront(s: string)
    requires AllAscii(s) && s != []
    ensures AllAscii(s[1..])
    ensures EncodeAscii(s) == EncodeChar(s[0]) + EncodeAscii(s[1..])
  {
    var c := [s[0]];
    assert s == c + s[1..];
    EncodeConcat(c, s[1..]);
    assert c[..0] == [];
    assert EncodeAscii(c) == EncodeChar(s[0]);
  }

  /** Character i of the input owns exactly output positions 7i .. 7i+6. */
  lemma {:induction false} EncodeBlock(s: string, i: nat)
    requires AllAscii(s) && i < |s|
    ensures |EncodeAscii(s)| == 7 * |s|
    ensures EncodeAscii(s)[7 * i .. 7 * i + 7] == EncodeChar(s[i])
  {
    EncodeLength(s);
    assert s == s[..i] + [s[i]] + s[i + 1..];
    assert AllAscii(s[..i]) && AllAscii([s[i]]) && AllAscii(s[i + 1..]);
    EncodeConcat(s[..i], [s[i]]);
    EncodeConcat(s[..i] + [s[i]], s[i + 1..]);
    EncodeLength(s[..i]);
    assert [s[i]][..0] == [];
    assert EncodeAscii([s[i]]) == EncodeChar(s[i]);
  }

  lemma EncodeCharSpelled(c: char)
    requires IsAscii(c)
    ensures EncodeChar(c) == [Symbol(c, 0x40), Symbol(c, 0x20), Symbol(c, 0x10), Symbol(c, 0x08),
                              Symbol(c, 0x04), Symbol(c, 0x02), Symbol(c, 0x01)]
  {
    MaskValues();
  }

  /** The seven masks, 0x40 down to 0x01. */
  lemma MaskValues()
    ensures Mask(0) == 0x40 && Mask(1) == 0x20 && Mask(2) == 0x10 && Mask(3) == 0x08
    ensures Mask(4) == 0x04 && Mask(5) == 0x02 && Mask(6) == 0x01
  {
  }

  /** Reading a block as a binary numeral, most significant symbol first, a
      space for 1 and a tab for 0: an independent statement of the bit order. */
  function Numeral(w: seq<char>): bv8 {
    if w == [] then 0 else Shifted(Numeral(w[..|w| - 1]), w[|w| - 1])
  }

  function BitValue(x: char): bv8 {
    if x == ' ' then 1 else 0
  }

  function Shifted(n: bv8, x: char): bv8 {
    (n << 1) | BitValue(x)
  }

  lemma NumeralSeven(x: seq<char>)
    requires |x| == 7
    ensures Numeral(x) == Shifted(Shifted(Shifted(Shifted(Shifted(Shifted(BitValue(x[0]), x[1]), x[2]), x[3]), x[4]), x[5]), x[6])
  {
    assert x[..1][..0] == [];
    assert Numeral(x[..1]) == BitValue(x[0]);
    assert x[..2][..1] == x[..1];
    assert Numeral(x[..2]) == Shifted(Numeral(x[..1]), x[1]);
    assert x[..3][..2] == x[..2];
    assert Numeral(x[..3]) == Shifted(Numeral(x[..2]), x[2]);
    assert x[..4][..3] == x[..3];
    assert Numeral(x[..4]) == Shifted(Numeral(x[..3]), x[3]);
    assert x[..5][..4] == x[..4];
    assert Numeral(x[..5]) == Shifted(Numeral(x[..4]), x[4]);
    assert x[..6][..5] == x[..5];
    assert Numeral(x[..6]) == Shifted(Numeral(x[..5]), x[5]);
    assert x[..7] == x;
  }

  /** The seven symbols of a character are its seven low bits, most
      significant first: read back as a binary numeral they give its code. */
  lemma BlockIsBinaryNumeral(c: char)
    requires IsAscii(c)
    ensures Numeral(EncodeChar(c)) == c as int as bv8
  {
    EncodeCharSpelled(c);
    NumeralSeven(EncodeChar(c));
  }

  lemma EncodeEmpty()
    ensures Encode("") == Some("")
  {}

  /** Code point 0 is seven tabs; 127 is seven spaces. */
  lemma EncodeExtremes()
    ensures EncodeChar(0 as char) == "\t\t\t\t\t\t\t"
    ensures EncodeChar(127 as char) == "       "
  {
    EncodeCharSpelled(0 as char);
    EncodeCharSpelled(127 as char);
  }

  /** 'A' is 0x41 = 1000001 in binary: space, five tabs, space. */
  lemma EncodeLetterA()
    ensures Encode("A") == Some(" \t\t\t\t\t ")
  {
    EncodeCharSpelled('A');
    assert "A"[..0] == [];
    assert EncodeAscii("A") == EncodeChar('A');
  }

  lemma EncodeTwoLetters()
    ensures Encode("AB") == Some(" \t\t\t\t\t  \t\t\t\t \t")
  {
    EncodeLetterA();
    EncodeCharSpelled('B');
    assert EncodeChar('B') == " \t\t\t\t \t";
    assert AllAscii("AB");
    assert "AB"[..1] == "A";
    assert EncodeAscii("A") == " \t\t\t\t\t ";
    assert EncodeAscii("AB") == EncodeAscii("A") + EncodeChar('B');
    assert " \t\t\t\t\t " + " \t\t\t\t \t" == " \t\t\t\t\t  \t\t\t\t \t";
  }

  /** One character outside 0..127 anywhere makes the whole call fail, and
      nothing is produced for the valid characters before it. */
  lemma EncodeRejects(s: string, i: nat)
    requires i < |s| && !IsAscii(s[i])
    ensures Encode(s) == None
  {}

  lemma EncodeRejectsExample()
    ensures Encode("A" + [200 as char]) == None
    ensures Encode([200 as char] + "A") == None
  {
    EncodeRejects("A" + [200 as char], 1);
    EncodeRejects([200 as char] + "A", 0);
  }

  // ---------------------------------------------------------------------------
  // Decoder

  /** Position j of the stream stops the decoder: input ends there, or the
      symbol there is neither a space nor a tab. */
  predicate StopsAt(input: seq<char>, j: nat) {
    j >= |input| || !IsWhitespaceSymbol(input[j])
  }

  lemma {:induction false} DecodeFromOutcome(input: seq<char>, k: nat, outchar: bv8)
    requires k <= 7 && k <= |input| && outchar < 0x80
    ensures var (c, n) := DecodeFrom(input, k, outchar);
      && (c == EOF <==> exists j :: k <= j < 7 && StopsAt(input, j))
      && (c != EOF ==> n == 7 && 0 <= c <= 127)
      && (c == EOF ==> && k <= n <= 7 && n <= |input|
                       && (forall j :: k <= j < n - 1 ==> !StopsAt(input, j))
                       && (n < |input| ==> 1 <= n && StopsAt(input, n - 1)))
    decreases 7 - k
  {
    if k < 7 && k < |input| && IsWhitespaceSymbol(input[k]) {
      var next := if input[k] == ' ' then outchar | Mask(k) else outchar;
      assert next < 0x80 by {
        assert Mask(k) <= 0x40;
      }
      DecodeFromOutcome(input, k + 1, next);
      var (c, n) := DecodeFrom(input, k, outchar);
      if c != EOF {
        forall j | k <= j < 7 ensures !StopsAt(input, j) {
          if j > k {
            assert !StopsAt(input, j);
          }
        }
      }
    } else if k < 7 {
      assert StopsAt(input, k);
    }
  }

  /** getwc fails (gives EOF) exactly when the stream ends, or shows a symbol
      other than space or tab, within its first seven symbols; it has then
      consumed the symbols up to and including the offending one, or all of a
      stream that ran out. A successful result takes exactly seven symbols
      and lies in 0..127. */
  lemma DecodeOutcome(input: seq<char>)
    ensures var (c, n) := Decode(input);
      && (c == EOF <==> exists j :: 0 <= j < 7 && StopsAt(input, j))
      && (c != EOF ==> n == 7 && 0 <= c <= 127)
      && (c == EOF ==> && n <= 7 && n <= |input|
                       && (forall j :: 0 <= j < n - 1 ==> !StopsAt(input, j))
                       && (n < |input| ==> 1 <= n && StopsAt(input, n - 1)))
  {
    DecodeFromOutcome(input, 0, 0);
  }

  /** Any stream that starts with seven spaces or tabs decodes without error. */
  lemma DecodeWhitespaceSucceeds(input: seq<char>)
    requires |input| >= 7 && forall k :: 0 <= k < 7 ==> IsWhitespaceSymbol(input[k])
    ensures Decode(input).0 != EOF && Decode(input).1 == 7
  {
    DecodeOutcome(input);
  }

  /** The bits set by the spaces among symbols k..6 of a block. */
  function BitsFrom(w: seq<char>, k: nat): bv8
    requires |w| >= 7 && k <= 7
    decreases 7 - k
  {
    if k == 7 then 0 else (if w[k] == ' ' then Mask(k) else 0) | BitsFrom(w, k + 1)
  }

  lemma {:induction false} DecodeFromGathers(w: seq<char>, k: nat, outchar: bv8)
    requires |w| >= 7 && k <= 7 && forall j :: 0 <= j < 7 ==> IsWhitespaceSymbol(w[j])
    ensures DecodeFrom(w, k, outchar) == ((outchar | BitsFrom(w, k)) as int, 7)
    decreases 7 - k
  {
    if k < 7 {
      DecodeFromGathers(w, k + 1, if w[k] == ' ' then outchar | Mask(k) else outchar);
    }
  }

  /** The bits a well-formed block sets, as the decoder gathers them. */
  function BlockBits(w: seq<char>): bv8
    requires |w| >= 7
  {
    (if w[0] == ' ' then 0x40 else 0) | ((if w[1] == ' ' then 0x20 else 0) | ((if w[2] == ' ' then 0x10 else 0)
    | ((if w[3] == ' ' then 0x08 else 0) | ((if w[4] == ' ' then 0x04 else 0) | ((if w[5] == ' ' then 0x02 else 0)
    | ((if w[6] == ' ' then 0x01 else 0) | 0))))))
  }

  lemma DecodeGathers(w: seq<char>)
    requires |w| >= 7 && forall k :: 0 <= k < 7 ==> IsWhitespaceSymbol(w[k])
    ensures Decode(w) == (BlockBits(w) as int, 7)
  {
    DecodeFromGathers(w, 0, 0);
    BitsFromBlock(w);
  }

  lemma BitsFromBlock(w: seq<char>)
    requires |w| >= 7
    ensures BitsFrom(w, 0) == BlockBits(w)
  {
    MaskValues();
    assert BitsFrom(w, 6) == (if w[6] == ' ' then 0x01 else 0) | 0;
    assert BitsFrom(w, 5) == (if w[5] == ' ' then 0x02 else 0) | BitsFrom(w, 6);
    assert BitsFrom(w, 4) == (if w[4] == ' ' then 0x04 else 0) | BitsFrom(w, 5);
    assert BitsFrom(w, 3) == (if w[3] == ' ' then 0x08 else 0) | BitsFrom(w, 4);
    assert BitsFrom(w, 2) == (if w[2] == ' ' then 0x10 else 0) | BitsFrom(w, 3);
    assert BitsFrom(w, 1) == (if w[1] == ' ' then 0x20 else 0) | BitsFrom(w, 2);
    assert BitsFrom(w, 0) == (if w[0] == ' ' then 0x40 else 0) | BitsFrom(w, 1);
  }

  lemma CharBridge(v: bv8)
    requires v < 0x80
    ensures (v as int as char) as int as bv8 == v
  {}

  lemma BlockBitsSymbols(w: seq<char>, c: char)
    requires |w| >= 7 && forall k :: 0 <= k < 7 ==> IsWhitespaceSymbol(w[k])
    requires IsAscii(c) && c as int as bv8 == BlockBits(w)
    ensures [Symbol(c, 0x40), Symbol(c, 0x20), Symbol(c, 0x10), Symbol(c, 0x08),
             Symbol(c, 0x04), Symbol(c, 0x02), Symbol(c, 0x01)] == w[..7]
  {
    assert w[..7] == [w[0], w[1], w[2], w[3], w[4], w[5], w[6]];
  }

  /** Round trip, decoder first: a block of seven spaces and tabs is the code
      of the character getwc reads from it, so a space sets the mask bit of
      its step and a tab leaves it clear. */
  lemma EncodeDecoded(w: seq<char>)
    requires |w| >= 7 && forall k :: 0 <= k < 7 ==> IsWhitespaceSymbol(w[k])
    ensures Decode(w).1 == 7 && 0 <= Decode(w).0 <= 127
    ensures EncodeChar(Decode(w).0 as char) == w[..7]
  {
    DecodeGathers(w);
    var b := BlockBits(w);
    CharBridge(b);
    var c := b as int as char;
    EncodeCharSpelled(c);
    BlockBitsSymbols(w, c);
  }

  /** Round trip, encoder first: getwc reads back exactly the character whose
      block starts the stream, and consumes exactly that block. */
  lemma DecodeEncoded(c: char, rest: seq<char>)
    requires IsAscii(c)
    ensures Decode(EncodeChar(c) + rest) == (c as int, 7)
  {
    var w := EncodeChar(c) + rest;
    EncodeCharSpelled(c);
    assert w[0] == Symbol(c, 0x40) && w[1] == Symbol(c, 0x20) && w[2] == Symbol(c, 0x10);
    assert w[3] == Symbol(c, 0x08) && w[4] == Symbol(c, 0x04) && w[5] == Symbol(c, 0x02);
    assert w[6] == Symbol(c, 0x01);
    DecodeGathers(w);
    var v := c as int as bv8;
    ByteBits(v);
    assert BlockBits(w) == v;
    IntBridge(c as int);
  }

  lemma IntBridge(n: int)
    requires 0 <= n < 0x80
    ensures (n as bv8) as int == n
  {
    assert n % 256 == n;
  }

  /** A byte below 0x80 is the union of its seven low bits. */
  lemma ByteBits(v: bv8)
    requires v < 0x80
    ensures v == (if 0x40 & v == 0 then 0 else 0x40) | ((if 0x20 & v == 0 then 0 else 0x20)
               | ((if 0x10 & v == 0 then 0 else 0x10) | ((if 0x08 & v == 0 then 0 else 0x08)
               | ((if 0x04 & v == 0 then 0 else 0x04) | ((if 0x02 & v == 0 then 0 else 0x02)
               | ((if 0x01 & v == 0 then 0 else 0x01) | 0))))))
  {
  }

  lemma CodesFront(s: string)
    requires s != []
    ensures Codes(s) == [s[0] as int] + Codes(s[1..])
  {
    assert |Codes(s)| == |[s[0] as int] + Codes(s[1..])|;
    forall i | 0 <= i < |s| ensures Codes(s)[i] == ([s[0] as int] + Codes(s[1..]))[i] {
      if i > 0 {
        assert s[1..][i - 1] == s[i];
      }
    }
  }

  /** Decoding a whole encoded string character by character gives back the
      code points of the string. */
  lemma {:induction false} DecodeAllEncoded(s: string)
    requires AllAscii(s)
    ensures DecodeAll(EncodeAscii(s)) == Codes(s)
  {
    if s == [] {
      assert Decode([]) == (EOF, 0);
    } else {
      var c, t := s[0], s[1..];
      EncodeFront(s);
      var e := EncodeAscii(s);
      DecodeEncoded(c, EncodeAscii(t));
      assert e[7..] == EncodeAscii(t);
      DecodeAllEncoded(t);
      CodesFront(s);
    }
  }
}

/**
 * The growable NUL-terminated string of strBuffer.c: a character array `str`
 * of `size` slots holding `len` characters followed by the terminator. The
 * buffer doubles when an append would leave no room for the terminator.
 */
module StrBuffers {

  const StrBufferInitSize: nat := 10
  const StrBufferGrowthFactor: nat := 2

  /** The terminator written after the last character. */
  const Terminator: char := '\0'

  class StrBuffer {
    var str: array<char>
    var size: nat
    var len: nat

    /** The array is the allocated block, and it has room for the
        characters and the terminator that follows them. */
    ghost predicate Valid()
      reads this, str
    {
      str.Length == size && len + 1 <= size && str[len] == Terminator
    }

    /** The string the buffer holds. */
    ghost function Contents(): string
      reads this, str
      requires Valid()
    {
      str[..len]
    }

    /** mallocStrBuffer: an empty string in a block of ten slots. */
    constructor ()
      ensures Valid() && fresh(str)
      ensures len == 0 && size == StrBufferInitSize && Contents() == []
    {
      size := StrBufferInitSize;
      str := new char[StrBufferInitSize];
      len := 0;
      new;
      str[0] := Terminator;
    }

    /** strBufferAppend: c goes at index len, the terminator after it; the
        block doubles first when len + 1 == size. */
    method Append(c: char)
      requires Valid()
      modifies this, str
      ensures Valid()
      ensures Contents() == old(Contents()) + [c]
      ensures len == old(len) + 1
      ensures size == if old(len) + 1 == old(size) then StrBufferGrowthFactor * old(size) else old(size)
      ensures str == old(str) || fresh(str)
    {
      if len + 1 == size {
        Grow();
      }
      str[len] := c;
      len := len + 1;
      str[len] := Terminator;
    }

    /** strBufferGrow: a block twice as large, with the old block's contents
        copied over (realloc). */
    method Grow()
      requires Valid()
      modifies this
      ensures Valid() && fresh(str)
      ensures size == StrBufferGrowthFactor * old(size) && len == old(len)
      ensures Contents() == old(Contents())
    {
      var block := new char[StrBufferGrowthFactor * size];
      forall i | 0 <= i < size {
        block[i] := str[i];
      }
      size := StrBufferGrowthFactor * size;
      str := block;
    }

    /** strBufferShrink: a block of exactly len + 1 slots, the string and its
        terminator copied over. */
    method Shrink()
      requires Valid()
      modifies this
      ensures Valid() && fresh(str)
      ensures size == len + 1 && len == old(len)
      ensures Contents() == old(Contents())
    {
      var block := new char[len + 1];
      forall i | 0 <= i < len + 1 {
        block[i] := str[i];
      }
      size := len + 1;
      str := block;
    }
  }
}

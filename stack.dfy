/**
 * The stack of strings of stack.c: an array `data` of `dataSize` slots whose
 * first `dataLen` hold the elements, bottom first. A push onto a full stack
 * doubles the array first.
 */
module Stacks {
  import opened Wrappers

  const InitStackSize: nat := 10
  const StackGrowthFactor: nat := 2

  class Stack {
    var data: array<string>
    var dataSize: nat
    var dataLen: nat

    ghost predicate Valid()
      reads this
    {
      data.Length == dataSize && dataLen <= dataSize && dataSize > 0
    }

    /** The elements, bottom first. */
    ghost function Contents(): seq<string>
      reads this, data
      requires Valid()
    {
      data[..dataLen]
    }

    /** mallocStack: empty, with room for ten elements. */
    constructor ()
      ensures Valid() && fresh(data)
      ensures dataLen == 0 && dataSize == InitStackSize && Contents() == []
    {
      dataLen := 0;
      dataSize := InitStackSize;
      data := new string[InitStackSize];
    }

    /** stackPush: a copy of s becomes the new top; the elements below are
        untouched. A full stack doubles its array first. */
    method Push(s: string)
      requires Valid()
      modifies this, data
      ensures Valid()
      ensures Contents() == old(Contents()) + [s]
      ensures dataLen == old(dataLen) + 1
      ensures dataSize == if old(dataLen) == old(dataSize) then StackGrowthFactor * old(dataSize) else old(dataSize)
      ensures data == old(data) || fresh(data)
    {
      if dataLen == dataSize {
        var block := new string[StackGrowthFactor * dataSize];
        forall i | 0 <= i < dataSize {
          block[i] := data[i];
        }
        dataSize := StackGrowthFactor * dataSize;
        data := block;
      }
      dataLen := dataLen + 1;
      data[dataLen - 1] := s;
    }

    /** stackPop: the top element and a stack one shorter; on an empty stack
        None (the source's NULL) and nothing changes. */
    method Pop() returns (r: Option<string>)
      requires Valid()
      modifies this
      ensures Valid() && data == old(data) && dataSize == old(dataSize)
      ensures old(dataLen) == 0 ==> r == None && dataLen == 0
      ensures old(dataLen) > 0 ==> && r == Some(old(Contents())[old(dataLen) - 1])
                                   && dataLen == old(dataLen) - 1
                                   && Contents() == old(Contents())[..old(dataLen) - 1]
    {
      if dataLen > 0 {
        dataLen := dataLen - 1;
        r := Some(data[dataLen]);
      } else {
        r := None;
      }
    }
  }

  /** Last in, first out: popping right after pushing s gives s back and
      restores the previous contents. */
  method PushThenPop(stk: Stack, s: string) returns (r: Option<string>)
    requires stk.Valid()
    modifies stk, stk.data
    ensures stk.Valid()
    ensures r == Some(s)
    ensures stk.Contents() == old(stk.Contents()) && stk.dataLen == old(stk.dataLen)
  {
    stk.Push(s);
    r := stk.Pop();
  }
}

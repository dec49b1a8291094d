/** The message nodes of MsgNode.cpp: heap objects around a byte array with one spare cell
    for a terminating zero. */
module MsgNodes {
  import opened Wire

  /** memcpy(dst + at, src, |src|) */
  method MemCpy(dst: array<Byte>, at: nat, src: seq<Byte>)
    requires at + |src| <= dst.Length
    modifies dst
    ensures dst[..] == old(dst[..at]) + src + old(dst[at + |src|..])
  {
    forall k | 0 <= k < |src| { dst[at + k] := src[k]; }
  }

  /** memset(dst, 0, n) */
  method MemZero(dst: array<Byte>, n: nat)
    requires n <= dst.Length
    modifies dst
    ensures dst[..] == seq(n, _ => 0) + old(dst[n..])
  {
    forall k | 0 <= k < n { dst[k] := 0; }
  }

  class MsgNode {
    var curLen: int
    const totalLen: Short
    const data: array<Byte>

    constructor (maxLen: Short)
      requires maxLen >= 0
      ensures totalLen == maxLen && curLen == 0
      ensures fresh(data) && data.Length == totalLen + 1 && data[totalLen] == 0
    {
      totalLen, curLen := maxLen, 0;
      data := new Byte[maxLen as nat + 1];
      new;
      data[totalLen] := 0;
    }

    method Clear()
      requires totalLen >= 0 && data.Length == totalLen + 1
      modifies this, data
      ensures curLen == 0
      ensures data[..] == seq(totalLen as nat, _ => 0) + [old(data[totalLen])]
    {
      MemZero(data, totalLen as nat);
      curLen := 0;
    }
  }

  class RecvNode {
    var curLen: int
    const totalLen: Short
    const data: array<Byte>
    const msgId: Short

    constructor (maxLen: Short, msgId: Short)
      requires maxLen >= 0
      ensures totalLen == maxLen && curLen == 0 && this.msgId == msgId
      ensures fresh(data) && data.Length == totalLen + 1 && data[totalLen] == 0
    {
      totalLen, curLen := maxLen, 0;
      this.msgId := msgId;
      data := new Byte[maxLen as nat + 1];
      new;
      data[totalLen] := 0;
    }

    /** A node as the worker expects it: filled, and terminated. */
    ghost predicate Filled()
      reads this, data
    {
      0 <= totalLen <= MAX_LENGTH && data.Length == totalLen + 1
      && curLen == totalLen && data[totalLen] == 0
    }

    ghost function Message(): Frame
      reads data
    {
      if 0 <= totalLen < data.Length && totalLen <= MAX_LENGTH then Frame(msgId, data[..totalLen])
      else Frame(msgId, [])
    }
  }

  class SendNode {
    const totalLen: Short
    const data: array<Byte>
    const msgId: Short

    /** The head and the payload; the caller's pointer must reach maxLen bytes, and payload
        and head together must fit a `short`. */
    constructor (msg: seq<Byte>, maxLen: Short, msgId: Short)
      requires 0 <= maxLen <= MAX_PAYLOAD && maxLen <= |msg|
      ensures fresh(data) && Valid() && Message() == Frame(msgId, msg[..maxLen])
    {
      totalLen := maxLen + HEAD_TOTAL_LEN;
      this.msgId := msgId;
      data := new Byte[maxLen as nat + HEAD_TOTAL_LEN + 1];
      new;
      data[totalLen] := 0;
      MemCpy(data, 0, ShortBytes(msgId));
      MemCpy(data, HEAD_ID_LEN, ShortBytes(maxLen));
      MemCpy(data, HEAD_TOTAL_LEN, msg[..maxLen]);
      assert data[HEAD_TOTAL_LEN..totalLen] == msg[..maxLen];
    }

    ghost function Message(): Frame
      reads data
    {
      if HEAD_TOTAL_LEN <= totalLen < data.Length then Frame(msgId, data[HEAD_TOTAL_LEN..totalLen])
      else Frame(msgId, [])
    }

    /** What async_write sends, data_ up to total_len_, is the encoding of the message. */
    ghost predicate Valid()
      reads data
    {
      && HEAD_TOTAL_LEN <= totalLen && data.Length == totalLen + 1
      && data[..totalLen] == Encode(Message())
    }
  }
}

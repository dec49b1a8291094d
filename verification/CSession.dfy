/** CSession.cpp in its own form: an object whose asynchronous operations are cut at the
    points where Asio calls back. Each method is one call or one completion, and is proved
    to be one step of the sender or of the reader. */
module Session {
  import opened Wire
  import opened MsgNodes
  import Sender
  import Reader

  /** Which of the two handlers the current asyncReadFull will call. */
  datatype Handler = HeadHandler | BodyHandler

  /** Outstanding: an async_read_some has yet to complete. GaveUp: the head handler returned
      without starting another read. Failed: a read completed with an error. */
  datatype Reading = Outstanding | GaveUp | Failed

  class CSession {
    // the members of the source
    const data: array<Byte>
    const recvHeadNode: MsgNode
    var recvMsgNode: RecvNode?
    var sendQue: seq<SendNode>
    var bClose: bool

    // the socket and its outstanding operations
    var socketOpen: bool
    var writing: bool
    var reading: Reading
    var handler: Handler
    var readLen: nat
    var totalLen: nat

    // what has been handed over: nodes to the LogicSystem, bytes to the transport
    var posted: seq<RecvNode>
    var written: nat
    ghost var queued: seq<Frame>    // the messages of sendQue
    ghost var received: seq<Frame>  // the messages of posted, as they were posted
    ghost var accepted: seq<Frame>
    ghost var done: seq<Frame>
    ghost var wire: seq<Byte>

    /** The sending half as a value. */
    ghost function Tx(): Sender.State
      reads this`queued, this`writing, this`written, this`socketOpen
      reads this`accepted, this`done, this`wire
    {
      var phase := if writing then Sender.Writing else if queued == [] then Sender.Idle else Sender.Broken;
      Sender.State(queued, phase, written, !socketOpen, accepted, done, wire)
    }

    /** The receiving half as a value. */
    ghost function Rx(): Reader.State
      requires RxShape()
      reads this`recvMsgNode, this`reading, this`handler, this`readLen, this`totalLen, this`received
      reads data, recvHeadNode.data
    {
      var phase :=
        if reading.GaveUp? then Reader.Refused
        else if handler.HeadHandler? then Reader.AtHead
        else Reader.AtBody(recvMsgNode.msgId, recvMsgNode.totalLen as nat);
      var got := if reading.GaveUp? then recvHeadNode.data[..HEAD_TOTAL_LEN] else data[..readLen];
      Reader.State(phase, got, received, reading.Failed?)
    }

    /** Every index the read handlers use is in bounds. */
    ghost predicate RxShape()
      reads this`recvMsgNode, this`handler, this`readLen, this`totalLen
    {
      && data.Length == MAX_LENGTH
      && recvHeadNode.totalLen == HEAD_TOTAL_LEN && recvHeadNode.data.Length == HEAD_TOTAL_LEN + 1
      && readLen <= totalLen <= MAX_LENGTH
      && match handler
         case HeadHandler => totalLen == HEAD_TOTAL_LEN
         case BodyHandler =>
           && recvMsgNode != null && recvMsgNode.totalLen == totalLen
           && recvMsgNode.data.Length == totalLen + 1
    }

    /** The arrays that read steps write to: never one of a posted or queued node. */
    ghost function Buffers(): set<array<Byte>>
      reads this`recvMsgNode, this`handler
    {
      {data, recvHeadNode.data} +
      if handler.BodyHandler? && recvMsgNode != null then {recvMsgNode.data} else {}
    }

    /** Every object that the session's steps may change, but for the nodes being sent. */
    ghost function Repr(): set<object>
      reads this`recvMsgNode, this`handler
    {
      {this, recvHeadNode} + Buffers() +
      if handler.BodyHandler? && recvMsgNode != null then {recvMsgNode} else {}
    }

    /** The posted nodes still hold what was posted, out of reach of later reads. */
    ghost predicate RxNodes()
      reads this`posted, this`received, this`recvMsgNode, this`handler
      reads posted, set n | n in posted :: n.data
    {
      && |posted| == |received|
      && (forall k :: 0 <= k < |posted| ==>
            posted[k].Filled() && posted[k].Message() == received[k] && posted[k].data !in Buffers())
    }

    /** recvMsgNode is the session's own as long as it is being filled. */
    ghost predicate RxOwn()
      reads this`posted, this`recvMsgNode, this`handler, this`reading
      reads if handler.BodyHandler? && recvMsgNode != null then {recvMsgNode} else {}
    {
      && data != recvHeadNode.data
      && (reading.GaveUp? ==> handler.HeadHandler?)
      && (handler.BodyHandler? ==>
            && recvMsgNode != null && recvMsgNode !in posted && recvMsgNode.curLen == 0
            && recvMsgNode.data != data && recvMsgNode.data != recvHeadNode.data)
    }

    ghost predicate RxValid()
      reads this`recvMsgNode, this`reading, this`handler, this`readLen, this`totalLen
      reads this`posted, this`received, data, recvHeadNode.data
      reads if handler.BodyHandler? && recvMsgNode != null then {recvMsgNode} else {}
      reads posted, set n | n in posted :: n.data
    {
      RxShape() && RxOwn() && RxNodes() && Reader.Valid(Rx())
    }

    /** The queued nodes hold what was accepted. */
    ghost predicate TxNodes()
      reads this`sendQue, this`queued
      reads set n | n in sendQue :: n.data
    {
      && |sendQue| == |queued|
      && (forall k :: 0 <= k < |sendQue| ==>
            sendQue[k].Valid() && sendQue[k].Message() == queued[k])
    }

    ghost predicate TxValid()
      reads this`sendQue, this`queued, this`writing, this`written, this`socketOpen
      reads this`accepted, this`done, this`wire
      reads set n | n in sendQue :: n.data
    {
      TxNodes() && Sender.Valid(Tx())
    }

    /** No read step can write to a queued node. */
    ghost predicate Apart()
      reads this`sendQue, this`recvMsgNode, this`handler
    {
      forall k :: 0 <= k < |sendQue| ==> sendQue[k].data !in Buffers()
    }

    ghost predicate Valid()
      reads this`recvMsgNode, this`reading, this`handler, this`readLen, this`totalLen
      reads this`posted, this`received, data, recvHeadNode.data
      reads if handler.BodyHandler? && recvMsgNode != null then {recvMsgNode} else {}
      reads posted, set n | n in posted :: n.data
      reads this`sendQue, this`queued, this`writing, this`written, this`socketOpen
      reads this`accepted, this`done, this`wire
      reads set n | n in sendQue :: n.data
      ensures Valid() ==> RxShape()
    {
      RxValid() && TxValid() && Apart()
    }

    constructor ()
      ensures TxValid() && Tx() == Sender.START && sendQue == [] && !bClose
      ensures Unstarted() && Apart() && fresh(Repr())
    {
      hide Sender.Valid;
      Sender.StartValid();
      data := new Byte[MAX_LENGTH];
      recvHeadNode := new MsgNode(HEAD_TOTAL_LEN);
      recvMsgNode, sendQue, bClose := null, [], false;
      socketOpen, writing, written := true, false, 0;
      posted, received, queued, accepted, done, wire := [], [], [], [], [], [];
      reading, handler, readLen, totalLen := GaveUp, HeadHandler, 0, HEAD_TOTAL_LEN;
    }

    ghost predicate Unstarted()
      reads this`reading, this`handler, this`posted, this`received
    {
      && data.Length == MAX_LENGTH && data != recvHeadNode.data
      && recvHeadNode.totalLen == HEAD_TOTAL_LEN && recvHeadNode.data.Length == HEAD_TOTAL_LEN + 1
      && reading.GaveUp? && handler.HeadHandler? && posted == [] && received == []
    }

    method Start()
      requires Unstarted()
      modifies this`handler, this`reading, this`readLen, this`totalLen, data
      ensures RxValid() && Rx() == Reader.START && Repr() == old(Repr())
    {
      AsyncReadHead();
      assert data[..0] == [];
    }

    // ----- sending -----

    /** Asio allows one composed write at a time on a socket. */
    method AsyncWrite()
      requires !writing && sendQue != []
      modifies this`writing, this`written
      ensures writing && written == 0
    {
      writing, written := true, 0;
    }

    method Emplace(node: SendNode)
      requires TxNodes() && Apart() && node.Valid() && node.data !in Buffers()
      modifies this`sendQue, this`queued, this`accepted
      ensures TxNodes() && Apart() && sendQue == old(sendQue) + [node]
      ensures queued == old(queued) + [node.Message()] && accepted == old(accepted) + [node.Message()]
    {
      sendQue, queued, accepted := sendQue + [node], queued + [node.Message()], accepted + [node.Message()];
    }

    method Pop()
      requires TxNodes() && Apart() && sendQue != []
      modifies this`sendQue, this`queued, this`done
      ensures TxNodes() && Apart() && sendQue == old(sendQue)[1..]
      ensures queued == old(queued)[1..] && done == old(done) + [old(queued)[0]]
    {
      sendQue, queued, done := sendQue[1..], queued[1..], done + [queued[0]];
    }

    lemma Counted()
      requires TxNodes()
      ensures |sendQue| == |queued|
    {
    }

    /** What async_write was given is the encoding of the front message. */
    lemma FrontIsEncoded()
      requires TxNodes() && queued != []
      ensures sendQue != [] && 0 <= sendQue[0].totalLen <= sendQue[0].data.Length
      ensures sendQue[0].data[..sendQue[0].totalLen] == Encode(queued[0])
    {
    }

    /** A length that leaves no room for the head in a `short`, or is below -5, makes the
        `new char[]` of the node throw before anything is queued. From -5 to -1 the node's
        constructor writes outside its array: undefined, unless the queue is full. */
    method Send(msg: seq<Byte>, maxLength: Short, msgid: Short) returns (threw: bool)
      requires TxValid() && Apart() && maxLength <= |msg|
      requires |sendQue| <= Sender.MAX_SENDQUE ==> !(-5 <= maxLength < 0)
      modifies this`sendQue, this`queued, this`writing, this`written, this`accepted
      ensures TxValid() && Apart()
      ensures threw <==> old(|sendQue|) <= Sender.MAX_SENDQUE && !(0 <= maxLength <= MAX_PAYLOAD)
      ensures Tx() == if 0 <= maxLength <= MAX_PAYLOAD
                      then Sender.Step(old(Tx()), Sender.Send(Frame(msgid, msg[..maxLength]))) else old(Tx())
      ensures accepted == old(accepted) +
        if old(|sendQue|) <= 1000 && !threw then [Frame(msgid, msg[..maxLength])] else []
      ensures forall n :: n in sendQue ==> n in old(sendQue) || fresh(n.data)
    {
      assert |sendQue| == |queued|;
      if |sendQue| > Sender.MAX_SENDQUE {
        return false;
      }
      if ToShort(maxLength as int + HEAD_TOTAL_LEN) < -1 {
        return true;
      }
      Enqueue(msg, maxLength, msgid);
      return false;
    }

    /** The rest of Send, with the node's constructor returning. */
    method Enqueue(msg: seq<Byte>, maxLength: Short, msgid: Short)
      requires TxValid() && Apart() && |sendQue| <= Sender.MAX_SENDQUE
      requires 0 <= maxLength <= MAX_PAYLOAD && maxLength <= |msg|
      modifies this`sendQue, this`queued, this`writing, this`written, this`accepted
      ensures TxValid() && Apart()
      ensures Tx() == Sender.Step(old(Tx()), Sender.Send(Frame(msgid, msg[..maxLength])))
      ensures accepted == old(accepted) + [Frame(msgid, msg[..maxLength])]
      ensures forall n :: n in sendQue ==> n in old(sendQue) || fresh(n.data)
    {
      hide Sender.Valid, TxNodes, Apart, Encode, EncodeAll, SendNode.Message, SendNode.Valid;
      Counted();
      ghost var f := Frame(msgid, msg[..maxLength]);
      Sender.WriteOutstanding(Tx());
      Sender.StepKeepsValid(Tx(), Sender.Send(f));
      var sendQueSize := |sendQue|;
      var node := new SendNode(msg, maxLength, msgid);
      Emplace(node);
      if sendQueSize == 0 {
        AsyncWrite();
      }
    }

    /** The std::string overload; the length is narrowed on its way into SendNode. */
    method SendString(msg: seq<Byte>, msgid: Short) returns (threw: bool)
      requires TxValid() && Apart()
      requires |sendQue| <= Sender.MAX_SENDQUE ==> !(-5 <= ToShort(|msg|) < 0)
      modifies this`sendQue, this`queued, this`writing, this`written, this`accepted
      ensures TxValid() && Apart() && ToShort(|msg|) <= |msg|
      ensures threw <==> old(|sendQue|) <= Sender.MAX_SENDQUE && !(0 <= ToShort(|msg|) <= MAX_PAYLOAD)
      ensures Tx() == if 0 <= ToShort(|msg|) <= MAX_PAYLOAD
                      then Sender.Step(old(Tx()), Sender.Send(Frame(msgid, msg[..ToShort(|msg|)]))) else old(Tx())
      ensures accepted == old(accepted) +
        if old(|sendQue|) <= 1000 && !threw then [Frame(msgid, msg[..ToShort(|msg|)])] else []
    {
      StringFramedWhole(msg);
      threw := Send(msg, ToShort(|msg|), msgid);
    }

    /** The transport takes n bytes of the node async_write was given. */
    method Transmit(n: nat)
      requires TxValid() && Sender.Enabled(Tx(), Sender.Write(n))
      modifies this`written, this`wire
      ensures TxValid() && Tx() == Sender.Step(old(Tx()), Sender.Write(n))
    {
      hide Sender.Valid, TxNodes, Encode, EncodeAll, SendNode.Message;
      Sender.StepKeepsValid(Tx(), Sender.Write(n));
      FrontIsEncoded();
      ghost var bytes := sendQue[0].data[..sendQue[0].totalLen];
      wire := wire + bytes[written..written + n];
      written := written + n;
    }

    method HandleWrite(error: bool)
      requires TxValid() && Apart()
      requires Sender.Enabled(Tx(), if error then Sender.WriteError else Sender.Written)
      modifies this`sendQue, this`queued, this`writing, this`written, this`socketOpen, this`bClose, this`done
      ensures TxValid() && Apart() && (bClose <==> old(bClose) || error)
      ensures Tx() == Sender.Step(old(Tx()), if error then Sender.WriteError else Sender.Written)
      ensures sendQue == if error then old(sendQue) else old(sendQue)[1..]
    {
      hide TxValid, Apart, Tx, Sender.Step;
      if !error {
        WriteNext();
      } else {
        StopWriting();
      }
    }

    /** HandleWrite's normal branch. */
    method WriteNext()
      requires TxValid() && Apart() && Sender.Enabled(Tx(), Sender.Written)
      modifies this`sendQue, this`queued, this`writing, this`written, this`done
      ensures TxValid() && Apart()
      ensures Tx() == Sender.Step(old(Tx()), Sender.Written) && sendQue == old(sendQue)[1..]
    {
      hide Sender.Valid, TxNodes, Apart, Encode, EncodeAll;
      Counted();
      Sender.StepKeepsValid(Tx(), Sender.Written);
      Pop();
      writing, written := false, 0;
      if sendQue != [] {
        AsyncWrite();
      }
    }

    /** HandleWrite's error branch: the failed node stays in the queue. */
    method StopWriting()
      requires TxValid() && Sender.Enabled(Tx(), Sender.WriteError)
      modifies this`writing, this`socketOpen, this`bClose
      ensures TxValid() && bClose && Tx() == Sender.Step(old(Tx()), Sender.WriteError)
    {
      hide Sender.Valid, TxNodes, Encode, EncodeAll;
      Sender.StepKeepsValid(Tx(), Sender.WriteError);
      Sender.WriteOutstanding(Tx());
      writing := false;
      Close();
    }

    method Close()
      modifies this`socketOpen, this`bClose
      ensures !socketOpen && bClose
    {
      socketOpen, bClose := false, true;
    }

    /** Any step of the sending half, with a message that can be framed. What is then queued
        was queued before or is new. */
    method Output(e: Sender.Event)
      requires TxValid() && Apart() && Sender.Enabled(Tx(), e) && !e.Close?
      modifies this`sendQue, this`queued, this`writing, this`written, this`socketOpen, this`bClose
      modifies this`accepted, this`done, this`wire
      ensures TxValid() && Apart() && Tx() == Sender.Step(old(Tx()), e)
      ensures forall n :: n in sendQue ==> n in old(sendQue) || fresh(n.data)
    {
      hide TxValid, Tx, Apart, Sender.Step;
      match e
      case Send(f) =>
        assert f.payload[..|f.payload|] == f.payload;
        var _ := Send(f.payload, |f.payload|, f.id);
      case Write(n) => Transmit(n);
      case Written => HandleWrite(false);
      case WriteError => HandleWrite(true);
    }

    // ----- receiving -----

    method AsyncReadHead()
      requires data.Length == MAX_LENGTH
      modifies this`handler, this`reading, this`readLen, this`totalLen, data
      ensures handler == HeadHandler && reading == Outstanding && readLen == 0 && totalLen == HEAD_TOTAL_LEN
    {
      handler := HeadHandler;
      AsyncReadFull(HEAD_TOTAL_LEN);
    }

    method AsyncReadBody(n: nat)
      requires data.Length == MAX_LENGTH
      modifies this`handler, this`reading, this`readLen, this`totalLen, data
      ensures handler == BodyHandler && reading == Outstanding && readLen == 0 && totalLen == n
    {
      handler := BodyHandler;
      AsyncReadFull(n);
    }

    method AsyncReadFull(maxLength: nat)
      requires data.Length == MAX_LENGTH
      modifies this`reading, this`readLen, this`totalLen, data
      ensures reading == Outstanding && readLen == 0 && totalLen == maxLength
      ensures data[..] == seq(MAX_LENGTH, _ => 0)
    {
      MemZero(data, MAX_LENGTH);
      reading, readLen, totalLen := Outstanding, 0, maxLength;
    }

    /** async_read_some completes without an error: asyncReadLen's handler, and through it
        the head's or the body's. No node posted before is touched. */
    method OnReadSome(chunk: seq<Byte>)
      requires RxValid() && Reader.CanRead(Rx(), |chunk|)
      modifies this`recvMsgNode, this`handler, this`reading, this`readLen, this`totalLen
      modifies this`posted, this`received, recvHeadNode, Buffers()
      modifies if handler.BodyHandler? && recvMsgNode != null then {recvMsgNode} else {}
      ensures RxValid() && Rx() == Reader.OnBytes(old(Rx()), chunk)
      ensures fresh(Repr() - old(Repr()))
      ensures posted == old(posted) + if Reader.Completes(old(Rx()), |chunk|) then [old(recvMsgNode)] else []
      ensures forall n :: n in old(posted) ==>
        n.data[..] == old(n.data[..]) && n.curLen == old(n.curLen)
    {
      hide RxNodes, Reader.Valid, Reader.OnBytes;
      PostedApart();
      if readLen + |chunk| >= totalLen {
        if handler.HeadHandler? {
          HandleHead(chunk);
        } else {
          HandleBody(chunk);
        }
      } else {
        ReadOn(chunk);
      }
    }

    /** The same with messages queued to be sent, which the read leaves alone. */
    method OnReadBesideSend(chunk: seq<Byte>)
      requires RxValid() && Reader.CanRead(Rx(), |chunk|) && TxValid() && Apart()
      modifies this`recvMsgNode, this`handler, this`reading, this`readLen, this`totalLen
      modifies this`posted, this`received, recvHeadNode, Buffers()
      modifies if handler.BodyHandler? && recvMsgNode != null then {recvMsgNode} else {}
      ensures RxValid() && Rx() == Reader.OnBytes(old(Rx()), chunk)
      ensures TxValid() && Apart() && Tx() == old(Tx())
    {
      hide RxValid, Rx, Reader.CanRead, Reader.OnBytes, TxValid, Apart, Tx;
      QueuedApart();
      OnReadSome(chunk);
      SendingIsKept();
    }

    /** What is being sent is not touched by a step that keeps to its own and to new arrays,
        even if it closes the socket. */
    twostate lemma SendingIsKept()
      requires old(TxValid()) && old(Apart()) && fresh(Repr() - old(Repr()))
      requires unchanged(this`sendQue, this`queued, this`writing, this`written, this`accepted)
      requires unchanged(this`done, this`wire) && (socketOpen ==> old(socketOpen))
      requires forall n :: n in sendQue ==> unchanged(n.data)
      ensures TxValid() && Apart() && Tx() == old(Tx()).(closed := !socketOpen)
    {
      hide Sender.Valid, Encode;
      Sender.StepKeepsValid(old(Tx()), Sender.Close);
    }

    lemma QueuedApart()
      requires Apart()
      ensures forall n :: n in sendQue ==> n.data !in Buffers()
    {
    }

    lemma PostedApart()
      requires RxValid()
      ensures forall n :: n in posted ==>
        n.data !in Buffers() && (handler.BodyHandler? ==> n != recvMsgNode)
    {
    }

    /** asyncReadLen's recursive call: the next read goes behind the bytes read so far. */
    method ReadOn(chunk: seq<Byte>)
      requires RxValid() && Reader.CanRead(Rx(), |chunk|) && readLen + |chunk| < totalLen
      modifies this`readLen, data
      ensures RxValid() && Rx() == Reader.OnBytes(old(Rx()), chunk)
    {
      hide Reader.Valid, Reader.Consumed, RxNodes;
      Reader.OnBytesConsumes(Rx(), chunk);
      PostedApart();
      Receive(chunk);
      readLen := readLen + |chunk|;
    }

    /** What the socket writes into data_. */
    method Receive(chunk: seq<Byte>)
      requires readLen + |chunk| <= data.Length
      modifies data
      ensures data[..readLen + |chunk|] == old(data[..readLen]) + chunk
    {
      MemCpy(data, readLen, chunk);
    }

    /** async_read_some completes with an error, which either handler answers by closing. */
    method OnReadError()
      requires RxValid() && Reader.Reading(Rx())
      modifies this`reading, this`socketOpen, this`bClose
      ensures RxValid() && Rx() == Reader.OnError(old(Rx()))
      ensures received == old(received) && forall n :: !Reader.CanRead(Rx(), n)
      ensures !socketOpen && bClose && Tx() == Sender.Step(old(Tx()), Sender.Close)
    {
      hide Reader.Valid, RxNodes;
      Reader.OnErrorEndsReading(Rx(), 0);
      Close();
      reading := Failed;
    }

    /** The last bytes of a head arrive, and AsyncReadHead's handler runs. It is called with
        the whole head in data_, so the source's test for a short read never holds. */
    method HandleHead(chunk: seq<Byte>)
      requires RxValid() && Reader.CanRead(Rx(), |chunk|)
      requires handler.HeadHandler? && readLen + |chunk| == totalLen
      modifies this`recvMsgNode, this`handler, this`reading, this`readLen, this`totalLen
      modifies data, recvHeadNode, recvHeadNode.data
      ensures RxValid() && Rx() == Reader.OnBytes(old(Rx()), chunk)
      ensures fresh(Buffers() - old(Buffers())) && (handler.BodyHandler? ==> fresh(recvMsgNode))
    {
      hide RxNodes, Reader.Valid, Reader.Consumed;
      Reader.OnBytesConsumes(Rx(), chunk);
      var msgId, msgLen := TakeHead(chunk);
      // an id above MAX_LENGTH is logged and otherwise accepted
      if msgLen > MAX_LENGTH {
        reading := GaveUp;
      } else if msgLen < 0 {
        // new char[] throws, and the handler's catch returns
        reading := GaveUp;
      } else {
        StartBody(msgLen as nat, msgId);
      }
    }

    /** Copies the head into its node and decodes the two fields. */
    method TakeHead(chunk: seq<Byte>) returns (msgId: Short, msgLen: Short)
      requires RxShape() && RxOwn() && RxNodes() && handler.HeadHandler? && readLen + |chunk| == totalLen
      modifies data, recvHeadNode, recvHeadNode.data
      ensures RxShape() && RxOwn() && RxNodes()
      ensures var head := old(data[..readLen]) + chunk;
        && |head| == HEAD_TOTAL_LEN && recvHeadNode.data[..HEAD_TOTAL_LEN] == head
        && msgId == HeadId(head) && msgLen == HeadLen(head)
    {
      Receive(chunk);
      recvHeadNode.Clear();
      MemCpy(recvHeadNode.data, 0, data[..HEAD_TOTAL_LEN]);
      ghost var head := recvHeadNode.data[..HEAD_TOTAL_LEN];
      assert recvHeadNode.data[..HEAD_ID_LEN] == head[..HEAD_ID_LEN];
      assert recvHeadNode.data[HEAD_ID_LEN..HEAD_TOTAL_LEN] == head[HEAD_ID_LEN..];
      msgId := ShortOf(recvHeadNode.data[..HEAD_ID_LEN]);
      msgLen := ShortOf(recvHeadNode.data[HEAD_ID_LEN..HEAD_TOTAL_LEN]);
    }

    /** A fresh node for every frame, so a node that was posted is never filled again. */
    method StartBody(msgLen: nat, msgId: Short)
      requires RxShape() && RxOwn() && RxNodes() && handler.HeadHandler? && msgLen <= MAX_LENGTH
      modifies this`recvMsgNode, this`handler, this`reading, this`readLen, this`totalLen, data
      ensures RxShape() && RxOwn() && RxNodes()
      ensures handler.BodyHandler? && reading.Outstanding? && readLen == 0 && totalLen == msgLen
      ensures fresh(recvMsgNode) && fresh(recvMsgNode.data) && recvMsgNode.msgId == msgId
    {
      recvMsgNode := new RecvNode(msgLen, msgId);
      AsyncReadBody(msgLen);
    }

    /** The last bytes of a body arrive, and AsyncReadBody's handler runs: it fills the node,
        posts it, and turns to the next head. */
    method HandleBody(chunk: seq<Byte>)
      requires RxValid() && Reader.CanRead(Rx(), |chunk|)
      requires handler.BodyHandler? && readLen + |chunk| == totalLen
      modifies this`handler, this`reading, this`readLen, this`totalLen, this`posted, this`received
      modifies data, recvMsgNode, recvMsgNode.data
      ensures RxValid() && Rx() == Reader.OnBytes(old(Rx()), chunk)
      ensures posted == old(posted) + [recvMsgNode]
    {
      hide Reader.Valid, Reader.Consumed, RxNodes, RecvNode.Message;
      Reader.OnBytesConsumes(Rx(), chunk);
      PostedApart();
      FillBody(chunk);
      Post();
      AsyncReadHead();
      assert data[..0] == [];
    }

    /** PostMsgToQue: from here on the node belongs to the LogicSystem. */
    method Post()
      requires RxNodes() && handler.BodyHandler? && recvMsgNode != null && recvMsgNode.Filled()
      requires recvMsgNode.data != data && recvMsgNode.data != recvHeadNode.data
      modifies this`posted, this`received, this`handler
      ensures RxNodes() && handler == HeadHandler
      ensures posted == old(posted) + [recvMsgNode] && received == old(received) + [recvMsgNode.Message()]
    {
      posted, received := posted + [recvMsgNode], received + [recvMsgNode.Message()];
      handler := HeadHandler;
    }

    /** The two copies: from the socket to data_, and from data_ to the node. */
    method FillBody(chunk: seq<Byte>)
      requires RxShape() && RxOwn() && handler.BodyHandler? && readLen + |chunk| == totalLen
      modifies data, recvMsgNode, recvMsgNode.data
      ensures recvMsgNode.Filled()
      ensures recvMsgNode.Message() == Frame(recvMsgNode.msgId, old(data[..readLen]) + chunk)
    {
      var n := totalLen;
      Receive(chunk);
      MemCpy(recvMsgNode.data, 0, data[..n]);
      recvMsgNode.curLen := recvMsgNode.curLen + n;
      recvMsgNode.data[n] := 0;
      assert recvMsgNode.data[..n] == data[..n];
    }
  }
}

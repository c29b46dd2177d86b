/** The two-wire (I2C) bus the driver talks through, as an abstract object:
    i2c_master_send and i2c_master_recv report a transferred byte count, the
    receive delivers the device's bytes, and every frame handed to the bus is
    recorded. What the device answers is fixed in advance by a script. */
module Bus {
  import opened Wire

  /** The count a bus with nothing left in its script reports (-EIO). */
  const NO_ANSWER: int := -5

  /** One answer to a receive: the count the bus reports and the bytes it delivers. */
  datatype Reply = Reply(count: int, data: Frame)

  /** The bus's future: the counts the coming sends report, the replies the coming receives deliver. */
  datatype Script = Script(sendCounts: seq<int>, replies: seq<Reply>)
  {
    function SendCount(): int {
      if sendCounts == [] then NO_ANSWER else sendCounts[0]
    }

    function AfterSend(): Script {
      if sendCounts == [] then this else this.(sendCounts := sendCounts[1..])
    }

    function NextReply(): Reply {
      if replies == [] then Reply(NO_ANSWER, []) else replies[0]
    }

    function AfterRecv(): Script {
      if replies == [] then this else this.(replies := replies[1..])
    }
  }

  /** The buffer after a receive has written data over its start. */
  function Overlay(buffer: Frame, data: Frame): (r: Frame)
    ensures |r| == |buffer|
    ensures forall i :: 0 <= i < |r| ==> r[i] == if i < |data| then data[i] else buffer[i]
  {
    if |data| >= |buffer| then data[..|buffer|] else data + buffer[|data|..]
  }

  class I2cBus {
    /** Every frame handed to i2c_master_send, oldest first. */
    var sent: seq<Frame>
    var script: Script

    constructor (script: Script)
      ensures sent == [] && this.script == script
    {
      sent := [];
      this.script := script;
    }

    /** i2c_master_send */
    method MasterSend(frame: Frame) returns (rc: int)
      modifies this
      ensures rc == old(script.SendCount())
      ensures sent == old(sent) + [frame]
      ensures script == old(script.AfterSend())
    {
      rc := script.SendCount();
      sent := sent + [frame];
      script := script.AfterSend();
    }

    /** i2c_master_recv into the whole of buffer */
    method MasterRecv(buffer: array<byte>) returns (rc: int)
      modifies this, buffer
      ensures rc == old(script.NextReply().count)
      ensures buffer[..] == Overlay(old(buffer[..]), old(script.NextReply().data))
      ensures sent == old(sent)
      ensures script == old(script.AfterRecv())
    {
      var reply := script.NextReply();
      var n := if |reply.data| < buffer.Length then |reply.data| else buffer.Length;
      for i := 0 to n
        modifies buffer
        invariant forall k :: 0 <= k < i ==> buffer[k] == reply.data[k]
        invariant forall k :: i <= k < buffer.Length ==> buffer[k] == old(buffer[k])
      {
        buffer[i] := reply.data[i];
      }
      rc := reply.count;
      script := script.AfterRecv();
    }
  }
}

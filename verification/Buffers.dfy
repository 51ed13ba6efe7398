/** The cursor over a received message (src/net/incomingmessage.hpp) and the appending writer
    (src/net/outgoingmessage.hpp). */
module Buffers {
  import opened Wrappers
  import opened Transcoder

  class IncomingMessage {
    const dataBuffer: seq<byte>
    var readIndex: nat

    constructor (data: seq<byte>)
      ensures dataBuffer == data && readIndex == 0
    {
      dataBuffer := data;
      readIndex := 0;
    }

    function GetSize(): nat {
      |dataBuffer|
    }

    /** What is left to read. */
    function Rest(): seq<byte>
      reads this
      requires readIndex <= |dataBuffer|
    {
      dataBuffer[readIndex..]
    }

    method ExtractNextU32() returns (value: u32)
      requires readIndex + 4 <= |dataBuffer|
      modifies this
      ensures readIndex == old(readIndex) + 4
      ensures value == ReadBE32(old(Rest())[..4])
    {
      assert dataBuffer[readIndex..][..4] == dataBuffer[readIndex..readIndex + 4];
      value := ReadBE32(dataBuffer[readIndex..readIndex + 4]);
      readIndex := readIndex + 4;
    }

    /** Null when fewer bytes are left than asked for; the cursor does not move. */
    method CpyBuffer(size: nat) returns (copy: Option<seq<byte>>)
      requires readIndex <= |dataBuffer|
      ensures size <= |Rest()| ==> copy == Some(Rest()[..size])
      ensures |Rest()| < size ==> copy == None
    {
      if |dataBuffer| < readIndex + size {
        return None;
      }
      assert dataBuffer[readIndex..][..size] == dataBuffer[readIndex..readIndex + size];
      return Some(dataBuffer[readIndex..readIndex + size]);
    }

    method GetBuffer() returns (rest: seq<byte>)
      requires readIndex <= |dataBuffer|
      ensures rest == Rest()
    {
      rest := dataBuffer[readIndex..];
    }
  }

  class OutgoingMessage {
    var dataBuffer: seq<byte>

    constructor ()
      ensures dataBuffer == []
    {
      dataBuffer := [];
    }

    method AddCustom(bytes: seq<byte>)
      modifies this
      ensures dataBuffer == old(dataBuffer) + bytes
    {
      dataBuffer := dataBuffer + bytes;
    }

    method AddU8(value: byte)
      modifies this
      ensures dataBuffer == old(dataBuffer) + [value]
    {
      dataBuffer := dataBuffer + [value];
    }

    method AddU32(value: u32)
      modifies this
      ensures dataBuffer == old(dataBuffer) + WriteBE32(value)
    {
      AddCustom(WriteBE32(value));
    }
  }
}

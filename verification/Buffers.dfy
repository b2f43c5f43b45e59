/** The bounded appender `append_bytes`, which provision_client.c and broker_client.c both define. */
module Buffers {
  import opened Common

  class ByteBuffer {
    const bytes: array<Byte>
    var length: nat

    ghost predicate Valid()
      reads this
    {
      length <= bytes.Length
    }

    ghost function Contents(): Text
      requires Valid()
      reads this, bytes
    {
      bytes[..length]
    }

    constructor (capacity: nat)
      ensures Valid() && fresh(bytes) && bytes.Length == capacity && Contents() == []
    {
      bytes := new Byte[capacity];
      length := 0;
    }

    method AppendBytes(value: Text) returns (ok: bool)
      requires Valid()
      modifies this`length, bytes
      ensures Valid()
      ensures ok <==> |old(Contents())| + |value| <= bytes.Length
      ensures Contents() == if ok then old(Contents()) + value else old(Contents())
    {
      if |value| > bytes.Length - length { return false; }
      forall i | 0 <= i < |value| { bytes[length + i] := value[i]; }
      length := length + |value|;
      return true;
    }
  }
}

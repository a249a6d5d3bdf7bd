/** The flat byte queue: one fixed array, shifted left in place by every read. */
module FlatReader {
  import opened Bytes

  const PACKETREADER_BUFFER_SIZE := 1024 * 1024

  class PacketReader {
    const buffer: array<byte>
    const data: array<byte>
    var size: nat

    ghost predicate Valid()
      reads this
    {
      buffer.Length == data.Length == PACKETREADER_BUFFER_SIZE && buffer != data && size <= buffer.Length
    }

    ghost function Contents(): seq<byte>
      requires Valid()
      reads this, buffer
    {
      buffer[..size]
    }

    constructor ()
      ensures Valid() && fresh(buffer) && fresh(data) && Contents() == []
    {
      buffer := new byte[PACKETREADER_BUFFER_SIZE];
      data := new byte[PACKETREADER_BUFFER_SIZE];
      size := 0;
    }

    method Write(src: array<byte>, n: nat)
      requires Valid() && n <= src.Length && src != buffer
      requires size + n <= buffer.Length
      modifies this, buffer
      ensures Valid() && Contents() == old(Contents()) + src[..n]
    {
      var tail := size;
      size := size + n;
      MemCopy(buffer, tail, src, 0, n);
    }

    predicate CanRead(n: nat)
      reads this
    {
      size >= n
    }

    // The next n bytes in data[..n], or nothing.
    method Read(n: nat) returns (ok: bool)
      requires Valid()
      modifies this, buffer, data
      ensures Valid() && ok == (n <= |old(Contents())|)
      ensures !ok ==> Contents() == old(Contents()) && data[..] == old(data[..])
      ensures ok ==> data[..n] == old(Contents())[..n] && Contents() == old(Contents())[n..]
    {
      if !CanRead(n) { return false; }
      MemCopy(data, 0, buffer, 0, n);
      size := size - n;
      if size > 0 { MemCopy(buffer, 0, buffer, n, size); }
      ok := true;
    }
  }
}

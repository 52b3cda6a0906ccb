/** The kernel's side of a connection: results are arbitrary within what readv and writev promise. */
module Sockets {
  const EAGAIN: int := 11

  class Socket {
    var incoming: string   // bytes that arrived and were not read yet
    var peerClosed: bool
    var wire: string       // bytes handed over for sending, in order
    ghost var ends: seq<int>  // history: the errno, or 0, of each call that moved nothing

    constructor ()
      ensures incoming == "" && wire == "" && !peerClosed && ends == []
    {
      incoming, wire, peerClosed, ends := "", "", false, [];
    }

    /** readv into room for max bytes. EAGAIN, like end of file, means nothing is left to read. */
    method Readv(max: nat) returns (len: int, data: string, errno: int)
      requires 0 < max
      modifies this`incoming, this`ends
      ensures len <= max && old(incoming) == data + incoming
      ensures ends == if len > 0 then old(ends) else old(ends) + [if len < 0 then errno else 0]
      ensures 0 <= len ==> len == |data|
      ensures len < 0 ==> data == ""
      ensures len == 0 || (len < 0 && errno == EAGAIN) ==> incoming == ""
      ensures len == 0 ==> peerClosed
    {
      var fails: bool := *;
      errno := *;
      data := "";
      if incoming == "" {
        if peerClosed && !fails {
          len := 0;
        } else {
          len := -1;
        }
      } else if fails {
        len := -1;
        if errno == EAGAIN { errno := EAGAIN + 1; }
      } else {
        var n: int :| 0 < n <= max && n <= |incoming|;
        len, data, incoming := n, incoming[..n], incoming[n..];
      }
      if len <= 0 {
        ends := ends + [if len < 0 then errno else 0];
      }
    }

    /** writev of the gathered bytes: an error, or a count that is 0 only when there is nothing to send. */
    method Writev(data: string) returns (len: int, errno: int)
      modifies this`wire, this`ends
      ensures len <= |data|
      ensures ends == if len > 0 then old(ends) else old(ends) + [if len < 0 then errno else 0]
      ensures len == 0 ==> data == ""
      ensures wire == old(wire) + if len < 0 then "" else data[..len]
    {
      var fails: bool := *;
      errno := *;
      if fails {
        len := -1;
      } else if data == "" {
        len := 0;
      } else {
        len :| 0 < len <= |data|;
        wire := wire + data[..len];
      }
      if len <= 0 {
        ends := ends + [if len < 0 then errno else 0];
      }
    }
  }
}

/** A growable buffer over a vector of bytes; what counts is the queue of bytes it holds. */
module Buffers {
  import opened Sockets

  const SPILL_SIZE: nat := 65535

  class Buffer {
    var buffer: string
    var readPos: nat
    var writePos: nat

    ghost predicate Valid()
      reads this
    {
      readPos <= writePos <= |buffer|
    }

    ghost function Contents(): string
      reads this
      requires Valid()
    {
      buffer[readPos..writePos]
    }

    constructor (initBuffSize: nat)
      ensures Valid() && Contents() == "" && |buffer| == initBuffSize
    {
      buffer := seq(initBuffSize, _ => '\0');
      readPos, writePos := 0, 0;
    }

    function ReadableBytes(): (n: nat)
      reads this
      requires Valid()
      ensures n == |Contents()|
    {
      writePos - readPos
    }

    function WritableBytes(): nat
      reads this
      requires Valid()
    {
      |buffer| - writePos
    }

    function PrependableBytes(): nat
      reads this
    {
      readPos
    }

    method Retrieve(len: nat)
      requires Valid() && len <= ReadableBytes()
      modifies this`readPos
      ensures Valid() && Contents() == old(Contents())[len..]
    {
      readPos := readPos + len;
    }

    /** end is a position in the vector. */
    method RetrieveUntil(end: nat)
      requires Valid() && readPos <= end <= writePos
      modifies this`readPos
      ensures Valid() && Contents() == old(Contents())[end - old(readPos)..]
    {
      Retrieve(end - readPos);
    }

    method RetrieveAll()
      modifies this
      ensures Valid() && Contents() == "" && readPos == 0 && |buffer| == old(|buffer|)
    {
      buffer := seq(|buffer|, _ => '\0');
      readPos, writePos := 0, 0;
    }

    method RetrieveAllToStr() returns (str: string)
      requires Valid()
      modifies this
      ensures Valid() && Contents() == "" && str == old(Contents())
    {
      str := buffer[readPos..writePos];
      RetrieveAll();
    }

    method HasWritten(len: nat)
      requires Valid() && len <= WritableBytes()
      modifies this`writePos
      ensures Valid() && Contents() == old(Contents()) + old(buffer[writePos..writePos + len])
      ensures writePos == old(writePos) + len
    {
      writePos := writePos + len;
    }

    /** The forward copy of std::copy, which is defined only when the target starts before the source. */
    method CopyDown(from: nat, to: nat, n: nat)
      requires from + n <= |buffer| && to <= from && (to < from || n == 0)
      modifies this`buffer
      ensures |buffer| == old(|buffer|)
      ensures buffer[to..to + n] == old(buffer[from..from + n])
    {
      var k := 0;
      while k < n
        invariant 0 <= k <= n && |buffer| == old(|buffer|)
        invariant buffer[to..to + k] == old(buffer)[from..from + k]
        invariant buffer[from + k..] == old(buffer)[from + k..]
      {
        assert buffer[from + k] == buffer[from + k..][0] == old(buffer)[from + k];
        ghost var before := buffer;
        buffer := buffer[to + k := buffer[from + k]];
        assert buffer[to..to + k] == before[to..to + k];
        assert buffer[to..to + k + 1] == buffer[to..to + k] + [buffer[to + k]];
        k := k + 1;
      }
    }

    /** Grows when there is not enough room in all, and otherwise moves the contents to the front. */
    method MakeSpace(len: nat)
      requires Valid() && WritableBytes() < len
      modifies this
      ensures Valid() && Contents() == old(Contents()) && len <= WritableBytes()
      ensures if old(WritableBytes() + PrependableBytes()) < len
              then |buffer| == old(writePos) + len + 1
              else |buffer| == old(|buffer|) && readPos == 0
    {
      if WritableBytes() + PrependableBytes() < len {
        var size := writePos + len + 1;
        buffer := buffer + seq(size - |buffer|, _ => '\0');
      } else {
        var readable := ReadableBytes();
        CopyDown(readPos, 0, writePos - readPos);
        readPos := 0;
        writePos := readPos + readable;
      }
    }

    method EnsureWriteable(len: nat)
      requires Valid()
      modifies this
      ensures Valid() && Contents() == old(Contents()) && len <= WritableBytes()
      ensures old(WritableBytes()) >= len ==>
        buffer == old(buffer) && writePos == old(writePos) && readPos == old(readPos)
    {
      if WritableBytes() < len {
        MakeSpace(len);
      }
    }

    method Append(str: string)
      requires Valid()
      modifies this
      ensures Valid() && Contents() == old(Contents()) + str
    {
      EnsureWriteable(|str|);
      ghost var before := buffer[readPos..writePos];
      buffer := buffer[..writePos] + str + buffer[writePos + |str|..];
      assert buffer[readPos..writePos] == before;
      assert buffer[writePos..writePos + |str|] == str;
      HasWritten(|str|);
    }

    method AppendBuffer(other: Buffer)
      requires Valid() && other.Valid() && other != this
      modifies this
      ensures Valid() && Contents() == old(Contents()) + other.Contents()
    {
      Append(other.buffer[other.readPos..other.writePos]);
    }

    /**
     One scattered read: first into the room behind the contents, the rest into a spill area
     that is appended after it. Whatever the split, the bytes arrive in order and all of them.
     */
    method ReadFd(sock: Socket, saved: int) returns (len: int, saveErrno: int)
      requires Valid()
      modifies this, sock`incoming, sock`ends
      ensures Valid()
      ensures sock.ends == if len > 0 then old(sock.ends) else old(sock.ends) + [if len < 0 then saveErrno else 0]
      ensures Contents() + sock.incoming == old(Contents()) + old(sock.incoming)
      ensures 0 <= len ==> |Contents()| == |old(Contents())| + len && saveErrno == saved
      ensures len < 0 ==> Contents() == old(Contents())
      ensures len == 0 || (len < 0 && saveErrno == EAGAIN) ==> sock.incoming == ""
      ensures len == 0 ==> sock.peerClosed
    {
      saveErrno := saved;
      var data, errno;
      len, data, errno := sock.Readv(WritableBytes() + SPILL_SIZE);
      if len < 0 {
        saveErrno := errno;
      } else {
        ghost var before := Contents();
        Place(data);
        assert before + data + sock.incoming == before + (data + sock.incoming);
      }
    }

    /** Where a scattered read puts its bytes: into the room there is, and the rest into the spill area. */
    method Place(data: string)
      requires Valid()
      modifies this
      ensures Valid() && Contents() == old(Contents()) + data
    {
      var writable := WritableBytes();
      var inPlace := if |data| <= writable then data else data[..writable];
      var spill := data[|inPlace|..];
      ghost var before := Contents();
      buffer := buffer[..writePos] + inPlace + buffer[writePos + |inPlace|..];
      assert buffer[readPos..writePos] == before;
      assert buffer[writePos..writePos + |inPlace|] == inPlace;
      if |data| <= writable {
        writePos := writePos + |data|;
        assert Contents() == before + data;
      } else {
        writePos := |buffer|;
        assert Contents() == before + inPlace;
        Append(spill);
        assert Contents() == before + data;
      }
    }
  }
}

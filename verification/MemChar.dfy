/** The memory chardev: a buffer that grows by reallocation. */
module MemChar {

  const INITIAL_CAPACITY: nat := 4096

  class MemoryDriver {
    var outbufSize: nat
    var outbufCapacity: nat
    var outbuf: array<bv8>
    /** Bytes copied by all reallocations so far, counting the whole old block each time. */
    ghost var copied: nat

    ghost predicate Valid()
      reads this, outbuf
    {
      && outbuf.Length == outbufCapacity && outbufSize <= outbufCapacity
      && INITIAL_CAPACITY <= outbufCapacity
      && copied <= outbufCapacity && copied <= 2 * outbufSize
    }

    /** What has been written. */
    ghost function Contents(): seq<bv8>
      requires Valid()
      reads this, outbuf
    {
      outbuf[..outbufSize]
    }

    /** `qemu_chr_init_mem`. */
    constructor ()
      ensures Valid() && Contents() == [] && fresh(outbuf)
    {
      outbufSize, outbufCapacity := 0, INITIAL_CAPACITY;
      outbuf := new bv8[INITIAL_CAPACITY](_ => 0);
      copied := 0;
    }

    /** The growth step: a larger block that starts with the old one. */
    method Grow(len: nat)
      requires Valid() && outbufCapacity < outbufSize + len
      modifies this
      ensures outbuf.Length == outbufCapacity == 2 * (old(outbufCapacity) + len) && fresh(outbuf)
      ensures outbufSize == old(outbufSize) && outbuf[..outbufSize] == old(outbuf[..outbufSize])
      ensures copied == old(copied) + old(outbufCapacity)
    {
      outbufCapacity := outbufCapacity + len;
      outbufCapacity := outbufCapacity * 2;
      var bigger := new bv8[outbufCapacity](_ => 0);
      for i := 0 to outbuf.Length
        invariant bigger[..i] == outbuf[..i]
        modifies bigger
      {
        bigger[i] := outbuf[i];
      }
      copied := copied + outbuf.Length;
      outbuf := bigger;
    }

    /** `mem_chr_write`: appends; and over any run of writes the reallocations have together copied at
        most twice what is in the buffer. */
    method Write(buf: seq<bv8>) returns (ret: nat)
      requires Valid()
      modifies this, outbuf
      ensures Valid() && Contents() == old(Contents()) + buf && ret == |buf|
      ensures copied <= 2 * |Contents()|
      ensures outbuf == old(outbuf) || fresh(outbuf)
    {
      var len := |buf|;
      if outbufCapacity < outbufSize + len {
        Grow(len);
      }
      CopyIn(buf);
      outbufSize := outbufSize + len;
      ret := len;
    }

    /** `memcpy` to the end of what is there. */
    method CopyIn(buf: seq<bv8>)
      requires outbufSize + |buf| <= outbuf.Length
      modifies outbuf
      ensures outbuf[..outbufSize + |buf|] == old(outbuf[..outbufSize]) + buf
    {
      for i := 0 to |buf|
        invariant outbuf[..outbufSize + i] == old(outbuf[..outbufSize]) + buf[..i]
      {
        outbuf[outbufSize + i] := buf[i];
      }
    }
  }
}

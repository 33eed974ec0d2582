/** An open binlog file and the read buffer in front of it. */
module BufferedFiles {
  import opened Bytes

  class BufferedFile {
    var file: bytes
    var off: nat
    const ioBuf: array<byte>
    var ioPos: nat
    var ioLast: nat

    /** Bytes read into the buffer but not yet taken are `ioBuf[ioPos..ioLast]`. */
    ghost predicate Valid()
      reads this, ioBuf
    {
      ioBuf.Length > 0 && ioPos <= ioLast <= ioBuf.Length &&
      ioLast - ioPos <= off <= |file| &&
      ioBuf[ioPos..ioLast] == file[off - (ioLast - ioPos)..off]
    }

    /** File offset minus unread buffered bytes: the offset of the next byte taken. */
    ghost function Cursor(): (c: int)
      reads this
    {
      off - (ioLast - ioPos)
    }

    constructor (size: nat)
      requires size > 0
      ensures Valid() && file == [] && fresh(ioBuf) && ioPos == ioLast
    {
      file, off := [], 0;
      ioBuf, ioPos, ioLast := new byte[size], 0, 0;
    }

    /** Opens a file and seeks; the buffer was emptied when the last file was left. */
    method Open(data: bytes, pos: nat)
      requires Valid() && ioPos == ioLast && pos <= |data|
      modifies this
      ensures Valid() && file == data && Cursor() == pos && ioPos == ioLast
    {
      file, off := data, pos;
    }

    /** Drops what is buffered. */
    method Discard()
      requires Valid()
      modifies this`ioPos
      ensures Valid() && ioPos == ioLast
    {
      ioPos := ioLast;
    }

    /** One `fread` of at most the buffer's size: some bytes, or none at the end of the file. */
    method Fread() returns (n: nat)
      requires Valid() && ioPos == ioLast
      modifies this`off, ioBuf
      ensures n <= ioBuf.Length && off == old(off) + n <= |file|
      ensures ioBuf[..n] == file[old(off)..off]
      ensures n == 0 <==> old(off) == |file|
    {
      var most := if ioBuf.Length < |file| - off then ioBuf.Length else |file| - off;
      n :| n <= most && (n == 0 <==> most == 0);
      for i := 0 to n
        modifies ioBuf
        invariant forall k :: 0 <= k < i ==> ioBuf[k] == file[off + k]
      {
        ioBuf[i] := file[off + i];
      }
      off := off + n;
    }

    /** What is buffered, up to `size` bytes. */
    method TakeBuffered(size: nat) returns (buf: bytes)
      requires Valid()
      modifies this`ioPos
      ensures Valid() && |buf| <= size && (|buf| < size ==> ioPos == ioLast)
      ensures Cursor() == old(Cursor()) + |buf| <= |file|
      ensures buf == file[old(Cursor())..Cursor()]
    {
      ghost var c, unread := Cursor(), ioBuf[ioPos..ioLast];
      var ms := if ioLast - ioPos < size then ioLast - ioPos else size;
      buf := ioBuf[ioPos..ioPos + ms];
      assert |unread| == ioLast - ioPos && unread == file[c..off];
      assert buf == unread[..ms];
      assert ioBuf[ioPos + ms..ioLast] == unread[ms..];
      ioPos := ioPos + ms;
      assert unread[..ms] == file[c..c + ms] && unread[ms..] == file[c + ms..off];
    }

    /** Refills the empty buffer and takes up to `size` bytes of it; none at the end of the file. */
    method Refill(size: nat) returns (buf: bytes)
      requires Valid() && ioPos == ioLast && size > 0
      modifies this`off, this`ioPos, this`ioLast, ioBuf
      ensures Valid() && |buf| <= size && (|buf| < size ==> ioPos == ioLast)
      ensures Cursor() == old(Cursor()) + |buf| <= |file|
      ensures buf == file[old(Cursor())..Cursor()]
      ensures buf == [] <==> old(Cursor()) == |file|
    {
      ghost var c := Cursor();
      var n := Fread();
      if n == 0 {
        return [];
      }
      var ls := if n < size then n else size;
      buf := ioBuf[..ls];
      ioPos, ioLast := ls, n;
      assert ioBuf[..n] == file[c..c + n];
      assert buf == ioBuf[..n][..ls] && ioBuf[ls..n] == ioBuf[..n][ls..];
    }

    /** Exactly the `size` bytes at the cursor, however the reads split the file. */
    method Read(size: nat) returns (ok: bool, buf: bytes)
      requires Valid()
      modifies this`off, this`ioPos, this`ioLast, ioBuf
      ensures Valid()
      ensures ok <==> old(Cursor()) + size <= |file|
      ensures ok ==> Cursor() == old(Cursor()) + size && buf == file[old(Cursor())..Cursor()]
    {
      ghost var c := Cursor();
      buf := TakeBuffered(size);
      while |buf| < size
        invariant Valid() && |buf| <= size && (|buf| < size ==> ioPos == ioLast)
        invariant c >= 0 && Cursor() == c + |buf| <= |file| && buf == file[c..c + |buf|]
        decreases size - |buf|
      {
        var more := Refill(size - |buf|);
        if more == [] {
          return false, buf;
        }
        buf := buf + more;
      }
      ok := true;
    }

    /** Passes over `len` bytes: inside the buffer if they are there, otherwise by seeking. */
    method Skip(len: nat, end: nat)
      requires Valid() && Cursor() + len == end <= |file|
      modifies this`off, this`ioPos
      ensures Valid() && Cursor() == end
    {
      if ioLast - ioPos >= len {
        ghost var unread := ioBuf[ioPos..ioLast];
        ioPos := ioPos + len;
        assert ioBuf[ioPos..ioLast] == unread[len..];
      } else {
        ioPos := ioLast;
        off := end;
      }
    }
  }
}

/** The growing output buffer of json-c. */
module Printbuf {
  import opened JsonValue

  /** The capacity after appending n bytes at `bpos`: room for a terminator is always kept. */
  function Capacity(size: int, bpos: int, n: int): int {
    if size - bpos <= n then (if size * 2 > bpos + n + 8 then size * 2 else bpos + n + 8) else size
  }

  class Buffer {
    var buf: array<char>
    var bpos: int
    var size: int

    ghost predicate Valid()
      reads this, buf
    {
      0 <= bpos < size == buf.Length && buf[bpos] == NUL
    }

    /** The bytes before the terminator. */
    ghost function Contents(): string
      requires Valid()
      reads this, buf
    {
      buf[..bpos]
    }

    /** printbuf_new; the C code leaves the first byte unset until the first append. */
    constructor ()
      ensures Valid() && Contents() == "" && fresh(buf) && size == 32
    {
      size, bpos := 32, 0;
      buf := new char[32](_ => NUL);
    }

    /** realloc: the old bytes stay in front. */
    method Grow(newSize: int)
      requires size == buf.Length && newSize >= size >= 0
      modifies this`buf, this`size
      ensures size == newSize == buf.Length && fresh(buf) && buf[..old(buf.Length)] == old(buf[..])
    {
      var t := new char[newSize];
      forall i | 0 <= i < size {
        t[i] := buf[i];
      }
      assert t[..size] == buf[..];
      buf, size := t, newSize;
    }

    /** memcpy to the write position, then a new terminator. */
    method Write(data: string)
      requires 0 <= bpos < size == buf.Length && |data| < size - bpos
      modifies this`bpos, buf
      ensures Valid() && bpos == old(bpos) + |data|
      ensures buf[..bpos] == old(buf[..bpos]) + data
    {
      forall i | 0 <= i < |data| {
        buf[bpos + i] := data[i];
      }
      bpos := bpos + |data|;
      buf[bpos] := NUL;
    }

    /** printbuf_memappend */
    method MemAppend(data: string)
      requires Valid()
      modifies this, buf
      ensures Valid() && Contents() == old(Contents()) + data
      ensures size == Capacity(old(size), old(bpos), |data|)
      ensures buf == old(buf) || fresh(buf)
    {
      ghost var was := Contents();
      if size - bpos <= |data| {
        Grow(if size * 2 > bpos + |data| + 8 then size * 2 else bpos + |data| + 8);
        assert buf[..bpos] == buf[..old(size)][..bpos] == was;
      }
      Write(data);
    }

    /** printbuf_memappend_fast: the same effect without a call when there is room. */
    method MemAppendFast(data: string)
      requires Valid()
      modifies this, buf
      ensures Valid() && Contents() == old(Contents()) + data
      ensures size == Capacity(old(size), old(bpos), |data|)
      ensures buf == old(buf) || fresh(buf)
    {
      if size - bpos > |data| {
        Write(data);
      } else {
        MemAppend(data);
      }
    }

    /** printbuf_reset */
    method Reset()
      requires Valid()
      modifies this`bpos, buf
      ensures Valid() && Contents() == ""
    {
      buf[0] := NUL;
      bpos := 0;
    }
  }
}

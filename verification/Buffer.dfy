/** A growing byte buffer with a read and a write position, as a queue of unread bytes. */
module Buffer {
  import opened Bytes

  const DEFAULT_CAPACITY := 1024

  function Min(a: int, b: int): int {
    if a < b then a else b
  }

  function Max(a: int, b: int): int {
    if a < b then b else a
  }

  class Buffer {
    var limit_max: int
    var capacity: int
    var read_ptr: int             // positions in the storage
    var write_ptr: int
    var storage: array?<byte>     // m_buffer; null once it has been moved from

    /** The capacity is at most twice the limit, in every state. */
    ghost predicate Valid()
      reads this
    {
      && DEFAULT_CAPACITY <= limit_max && DEFAULT_CAPACITY <= capacity <= 2 * limit_max
      && (storage != null ==> storage.Length == capacity && 0 <= read_ptr <= write_ptr <= capacity)
    }

    /** The bytes that have been written and not read. */
    ghost function Unread(): bytes
      requires Valid()
      reads this, storage
    {
      if storage == null then [] else storage[read_ptr..write_ptr]
    }

    constructor ()
      ensures Valid() && Unread() == [] && storage != null && fresh(storage) && limit_max == DEFAULT_CAPACITY
    {
      limit_max, capacity, read_ptr, write_ptr := DEFAULT_CAPACITY, DEFAULT_CAPACITY, 0, 0;
      storage := new byte[DEFAULT_CAPACITY](_ => 0);
    }

    /** The copy constructor. */
    constructor Copy(other: Buffer)
      requires other.Valid()
      ensures Valid() && Unread() == other.Unread() && storage != null && fresh(storage)
      ensures limit_max == other.limit_max && capacity == other.capacity
    {
      var n := if other.storage == null then 0 else other.write_ptr - other.read_ptr;
      var s := new byte[other.capacity](_ => 0);
      if n > 0 {
        forall i | 0 <= i < n { s[i] := other.storage[other.read_ptr + i]; }
      }
      limit_max, capacity, storage := other.limit_max, other.capacity, s;
      read_ptr, write_ptr := 0, n;
      new;
      assert s[0..n] == other.Unread();
    }

    /** init_with_capacity */
    method Init(size: int)
      requires DEFAULT_CAPACITY <= limit_max && DEFAULT_CAPACITY <= size <= 2 * limit_max
      modifies this
      ensures Valid() && Unread() == [] && storage != null && fresh(storage) && capacity == size
              && limit_max == old(limit_max)
      ensures read_ptr == write_ptr == 0
    {
      capacity := size;
      storage := new byte[size](_ => 0);
      read_ptr, write_ptr := 0, 0;
    }

    /** operator= from another buffer, by copy */
    method Assign(other: Buffer)
      requires Valid() && other.Valid()
      modifies this
      ensures Valid() && other.Valid() && Unread() == old(other.Unread()) && other.Unread() == old(other.Unread())
      ensures limit_max == other.limit_max && (this != other ==> storage != null && fresh(storage))
    {
      if this != other {
        limit_max := other.limit_max;
        Init(other.capacity);
        var n := if other.storage == null then 0 else other.write_ptr - other.read_ptr;
        if n > 0 {
          forall i | 0 <= i < n { storage[i] := other.storage[other.read_ptr + i]; }
        }
        write_ptr := n;
        assert storage[0..n] == other.Unread();
      }
    }

    /** adopt: the other buffer gives up its storage and is empty afterwards. */
    method Adopt(other: Buffer)
      requires Valid() && other.Valid() && this != other
      modifies this, other
      ensures Valid() && other.Valid()
      ensures Unread() == old(other.Unread()) && other.Unread() == [] && limit_max == old(other.limit_max)
      ensures storage != null && other.storage == null && (old(other.storage) != null ==> storage == old(other.storage))
    {
      if other.storage == null {
        other.Init(DEFAULT_CAPACITY);
      }
      limit_max, capacity, read_ptr, write_ptr := other.limit_max, other.capacity, other.read_ptr, other.write_ptr;
      storage := other.storage;
      other.read_ptr, other.write_ptr := 0, 0;
      other.capacity, other.limit_max := DEFAULT_CAPACITY, DEFAULT_CAPACITY;
      other.storage := null;
    }

    /** read */
    method Read(dest: array?<byte>, size: int) returns (n: int)
      requires Valid() && 0 <= size && (dest != null ==> size <= dest.Length && dest != storage)
      modifies this`read_ptr, dest
      ensures Valid() && n == if dest == null then 0 else Min(size, |old(Unread())|)
      ensures dest != null ==> dest[..n] == old(Unread())[..n] && dest[n..] == old(dest[n..])
      ensures Unread() == old(Unread())[n..]
    {
      if dest == null || size == 0 || storage == null { return 0; }
      n := Min(size, write_ptr - read_ptr);
      if n > 0 {
        forall i | 0 <= i < n { dest[i] := storage[read_ptr + i]; }
        read_ptr := read_ptr + n;
      }
    }

    /** after_size */
    function AfterSize(): int
      reads this
    {
      capacity - write_ptr
    }

    /** check_and_write */
    method CheckAndWrite(source: bytes) returns (ok: bool)
      requires Valid() && storage != null
      modifies this`write_ptr, storage
      ensures Valid() && (ok <==> |source| <= old(AfterSize()))
      ensures Unread() == old(Unread()) + (if ok then source else [])
      ensures !ok ==> write_ptr == old(write_ptr)
    {
      if |source| <= AfterSize() {
        var w := write_ptr;
        forall i | 0 <= i < |source| { storage[w + i] := source[i]; }
        write_ptr := w + |source|;
        assert storage[read_ptr..w] == old(storage[read_ptr..w]) && storage[w..write_ptr] == source;
        assert storage[read_ptr..write_ptr] == storage[read_ptr..w] + storage[w..write_ptr];
        return true;
      }
      assert Unread() + [] == Unread();
      ok := false;
    }

    /** move_to_before */
    method MoveToBefore()
      requires Valid() && storage != null
      modifies this`read_ptr, this`write_ptr, storage
      ensures Valid() && read_ptr == 0 && Unread() == old(Unread())
    {
      var n, r := write_ptr - read_ptr, read_ptr;
      forall i | 0 <= i < n { storage[i] := storage[r + i]; }  // memmove
      write_ptr, read_ptr := n, 0;
    }

    /** The loop of ensure_capacity. */
    method NewCapacity(need: int) returns (c: int)
      requires Valid() && capacity < need <= 2 * limit_max
      ensures need <= c <= 2 * limit_max
    {
      c := capacity;
      while c < need && c < limit_max
        invariant DEFAULT_CAPACITY <= c <= 2 * limit_max
        decreases limit_max - c
      {
        c := c * 2;
      }
      if c < need { c := need; }
    }

    /** ensure_capacity, which copies from the start of the storage because the unread bytes have been
        moved there. */
    method EnsureCapacity(incoming: int) returns (threw: bool)
      requires Valid() && storage != null && read_ptr == 0 && 0 < incoming <= limit_max
      modifies this
      ensures Valid() && storage != null && limit_max == old(limit_max) && Unread() == old(Unread())
      ensures threw <==> old(write_ptr) > limit_max
      ensures threw ==> capacity == old(capacity) && storage == old(storage)
      ensures !threw ==> incoming <= AfterSize() && (storage == old(storage) || fresh(storage))
    {
      var used := write_ptr - read_ptr;
      if used > limit_max { return true; }
      threw := false;
      if used + incoming <= capacity { return; }
      var c := NewCapacity(used + incoming);
      var s := new byte[c](_ => 0);
      forall i | 0 <= i < used { s[i] := storage[i]; }
      read_ptr, write_ptr := 0, used;
      capacity, storage := c, s;
    }

    /** The condition under which write throws. */
    ghost predicate Throws(size: int)
      requires Valid()
      reads this
    {
      var used := if storage == null then 0 else write_ptr - read_ptr;
      size == 0 || size > limit_max || (used + size > capacity && used > limit_max)
    }

    /** write: the bytes are appended, or it throws and the unread bytes are the same. */
    method Write(source: bytes) returns (threw: bool)
      requires Valid()
      modifies this, storage
      ensures Valid() && limit_max == old(limit_max)
      ensures threw <==> old(Throws(|source|))
      ensures Unread() == if threw then old(Unread()) else old(Unread()) + source
    {
      if |source| == 0 { return true; }
      if storage == null { Init(DEFAULT_CAPACITY); }
      if |source| > limit_max { return true; }
      ghost var unread := Unread();
      var ok := CheckAndWrite(source);
      if !ok {
        assert unread + [] == unread;
        MoveToBefore();
        ok := CheckAndWrite(source);
        if !ok {
          assert unread + [] == unread;
          threw := EnsureCapacity(|source|);
          if threw { return; }
          ok := CheckAndWrite(source);
          assert ok;
        }
      }
      threw := false;
    }

    /** blank_space */
    method BlankSpace() returns (n: int)
      requires Valid()
      ensures n == if storage == null then 0 else Max(capacity, limit_max) - |Unread()|
    {
      if storage == null { return 0; }
      var promote := if limit_max > capacity then limit_max - capacity else 0;
      n := read_ptr + AfterSize() + promote;
    }

    /** A write that fits the blank space and the limit does not throw. */
    lemma {:induction false} BlankSpaceSuffices(size: int)
      requires Valid() && storage != null && 0 < size <= Min(Max(capacity, limit_max) - |Unread()|, limit_max)
      ensures !Throws(size)
    {
    }

    /** set_limit_max: the limit only grows. */
    method SetLimitMax(limit: int)
      requires Valid()
      modifies this`limit_max
      ensures Valid() && limit_max == Max(old(limit_max), Max(limit, DEFAULT_CAPACITY)) && Unread() == old(Unread())
    {
      var l := if limit < DEFAULT_CAPACITY then DEFAULT_CAPACITY else limit;
      if l > limit_max { limit_max := l; }
    }

    /** read_ptr_move_n */
    method ReadPtrMoveN(n: int) returns (ok: bool)
      requires Valid() && 0 <= n
      modifies this`read_ptr
      ensures Valid() && (ok <==> n <= |old(Unread())|)
      ensures Unread() == if ok then old(Unread())[n..] else old(Unread())
    {
      if n == 0 { return true; }
      if storage == null || n > write_ptr - read_ptr { return false; }
      read_ptr := read_ptr + n;
      ok := true;
    }

    /** copy_all */
    method CopyAll(out: array?<byte>) returns (n: int)
      requires Valid() && (out != null ==> out != storage)
      modifies out
      ensures Valid() && Unread() == old(Unread())
      ensures n == if out == null || out.Length < |Unread()| then 0 else |Unread()|
      ensures out != null ==> out[..n] == Unread()[..n] && out[n..] == old(out[n..])
    {
      if out == null || storage == null { return 0; }
      var all := write_ptr - read_ptr;
      if out.Length < all { return 0; }
      if all > 0 {
        forall i | 0 <= i < all { out[i] := storage[read_ptr + i]; }
      }
      n := all;
    }

    /** clear */
    method Clear()
      requires Valid()
      modifies this`read_ptr, this`write_ptr
      ensures Valid() && Unread() == []
    {
      read_ptr, write_ptr := 0, 0;
    }
  }
}

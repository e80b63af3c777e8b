/** The circular buffer of the streaming package, over an array that is overwritten in place. */
module CircularBuffers {
  import opened Arith
  import opened Types
  import opened Ring

  class CircularBuffer {
    const buffer: array<Byte>
    const size: nat
    var read: nat
    var write: nat

    ghost predicate Valid()
      reads this
    {
      buffer.Length == size > 0 && read < size && write < size
    }

    /** The bytes that a reader can get. */
    ghost function Contents(): (c: Bytes)
      requires Valid()
      reads this, buffer
      ensures |c| < size
    {
      Ring().Contents()
    }

    /** The buffer with its two positions. */
    ghost function Ring(): (s: State)
      requires Valid()
      reads this, buffer
      ensures s.Valid() && |s.b| == size
    {
      State(buffer[..], read, write)
    }

    constructor (size: nat)
      requires size > 0
      ensures Valid() && Ring() == New(size) && this.size == size && read == write == 0 && fresh(buffer)
    {
      buffer := new Byte[size](_ => 0);
      this.size := size;
      read, write := 0, 0;
    }

    /** Copies p, which fits, to the buffer from one position on. */
    method CopyIn(at: nat, p: Bytes)
      requires Valid() && at + |p| <= size
      modifies buffer
      ensures buffer[..] == Over(old(buffer[..]), at, p)
    {
      hide Over;
      OverNothing(buffer[..], at, p[..0]);
      for i := 0 to |p|
        invariant buffer[..] == Over(old(buffer[..]), at, p[..i])
      {
        OverNext(old(buffer[..]), at, p, i);
        buffer[at + i] := p[i];
      }
      assert p[..|p|] == p;
    }

    /** Copies q to the place of the writer, in two parts if it goes over the end. */
    method Place(q: Bytes)
      requires Valid() && |q| <= size
      modifies buffer
      ensures buffer[..] == Put(old(buffer[..]), write, q)
    {
      var firstPart := size - write;
      if firstPart > |q| {
        firstPart := |q|;
      }
      hide Over;
      CopyIn(write, q[..firstPart]);
      CopyIn(0, q[firstPart..]);
    }

    method Write(p: Bytes) returns (n: nat)
      requires Valid()
      modifies `read, `write, buffer
      ensures Valid() && n == Min(|p|, size)
      ensures Ring() == Step(old(Ring()), Op.Write(p))
      ensures Contents() == Written(size, old(Contents()), p) <==> Regular(size, old(Contents()), p)
      ensures !Regular(size, old(Contents()), p) ==> Contents() == Last(old(Ring()).Turn(), size - 1)
    {
      hide Regular, Written, Between, Put, Left;
      WriteLaw(Ring(), p);
      var q := p;
      n := |p|;
      if n > size {
        q := p[n - size..];
        n := size;
      }
      assert q == Tail(p, size);
      Place(q);
      WrapIsModulo(write + n, size);
      write := (write + n) % size;
      if write == read {
        WrapIsModulo(read + 1, size);
        read := (read + 1) % size;
      }
    }

    /** Copies n bytes of the contents to the front of p. */
    method CopyOut(p: array<Byte>, n: nat)
      requires Valid() && p != buffer && n <= p.Length && n <= |Contents()|
      modifies p
      ensures p[..] == Contents()[..n] + old(p[..])[n..]
    {
      TakenFront(buffer[..], read, write, n);
      hide Between;
      CopyAround(p, buffer, read, n);
    }

    /** Copies n bytes from one position on, in two parts if they go over the end. */
    static method CopyAround(dst: array<Byte>, src: array<Byte>, from: nat, n: nat)
      requires dst != src && n <= dst.Length && from < src.Length && n <= src.Length
      modifies dst
      ensures var first := Min(src.Length - from, n);
              dst[..] == (src[from..from + first] + src[..n - first]) + old(dst[..])[n..]
    {
      hide Over;
      var firstPart := src.Length - from;
      if firstPart > n {
        firstPart := n;
      }
      OverTwice(dst[..], src[from..from + firstPart], src[..n - firstPart]);
      CopyRange(dst, 0, src, from, firstPart);
      CopyRange(dst, firstPart, src, 0, n - firstPart);
    }

    /** The built-in copy between two arrays. */
    static method CopyRange(dst: array<Byte>, at: nat, src: array<Byte>, from: nat, n: nat)
      requires dst != src && at + n <= dst.Length && from + n <= src.Length
      modifies dst
      ensures dst[..] == Over(old(dst[..]), at, src[from..from + n])
    {
      hide Over;
      ghost var q := src[from..from + n];
      OverNothing(dst[..], at, q[..0]);
      for i := 0 to n
        invariant dst[..] == Over(old(dst[..]), at, q[..i])
      {
        OverNext(old(dst[..]), at, q, i);
        dst[at + i] := src[from + i];
      }
      assert q[..n] == q;
    }

    /** Fills the front of p; the flag is the end-of-file answer of an empty ring. */
    method Read(p: array<Byte>) returns (n: nat, eof: bool)
      requires Valid() && p != buffer
      modifies `read, p
      ensures Valid() && eof == (old(Contents()) == [])
      ensures n == Min(p.Length, |old(Contents())|)
      ensures p[..n] == old(Contents())[..n] && p[n..] == old(p[n..])
      ensures Ring() == Step(old(Ring()), Op.Read(p.Length)) && Contents() == old(Contents())[n..]
    {
      ReadTakes(Ring(), p.Length);
      if read == write {
        return 0, true;
      }
      eof := false;
      var available := Available();
      n := p.Length;
      if n > available {
        n := available;
      }
      CopyOut(p, n);
      WrapIsModulo(read + n, size);
      read := (read + n) % size;
    }

    method Available() returns (n: nat)
      requires Valid()
      ensures n == |Contents()|
    {
      if write >= read {
        return write - read;
      }
      return size - read + write;
    }
  }

  /** Reading n bytes delivers a prefix of the contents. */
  lemma TakenFront(b: Bytes, r: nat, w: nat, n: nat)
    requires r < |b| && w < |b| && n <= |Between(b, r, w)|
    ensures var first := Min(|b| - r, n);
            n - first <= |b| && b[r..r + first] + b[..n - first] == Between(b, r, w)[..n]
  {
    if w < r {
      assert Between(b, r, w) == b[r..] + b[..w];
    }
  }
}

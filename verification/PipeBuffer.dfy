/** The ring buffer of pipe.c with its wrapping 32-bit counters, and the copy loops of pipewrite and
    piperead on it. */
module PipeBuffer {
  import opened Basics

  const PIPESIZE: nat := 512
  const WRAP: nat := 0x1_0000_0000

  datatype Buf = Buf(data: seq<Byte>, nread: nat, nwrite: nat)

  /** nwrite - nread, as unsigned 32-bit numbers. */
  function Count(b: Buf): nat
    requires b.nread < WRAP && b.nwrite < WRAP
  {
    if b.nwrite >= b.nread then b.nwrite - b.nread else b.nwrite + WRAP - b.nread
  }

  predicate Ok(b: Buf) {
    |b.data| == PIPESIZE && b.nread < WRAP && b.nwrite < WRAP && Count(b) <= PIPESIZE
  }

  /** The bytes written and not yet read, oldest first. */
  function Pending(b: Buf): (s: seq<Byte>)
    requires Ok(b)
    ensures |s| == Count(b)
  {
    seq(Count(b), j requires 0 <= j < Count(b) => b.data[(b.nread + j) % PIPESIZE])
  }

  predicate Full(b: Buf) {
    b.nwrite == (b.nread + PIPESIZE) % WRAP
  }

  predicate Empty(b: Buf) {
    b.nread == b.nwrite
  }

  /** data[nwrite++ % PIPESIZE] = ch. */
  function Put(b: Buf, ch: Byte): Buf
    requires |b.data| == PIPESIZE
  {
    Buf(b.data[b.nwrite % PIPESIZE := ch], b.nread, (b.nwrite + 1) % WRAP)
  }

  /** data[nread++ % PIPESIZE]. */
  function Get(b: Buf): Buf {
    b.(nread := (b.nread + 1) % WRAP)
  }

  lemma FullEmpty(b: Buf)
    requires Ok(b)
    ensures Full(b) <==> Count(b) == PIPESIZE
    ensures Empty(b) <==> Count(b) == 0
  {
  }

  /** Offsets below PIPESIZE reach different cells, wherever the counter stands. */
  lemma CellsDiffer(n: nat, j: nat, k: nat)
    requires j < k < j + PIPESIZE
    ensures (n + j) % PIPESIZE != (n + k) % PIPESIZE
  {
    var q, r := (n + j) / PIPESIZE, (n + j) % PIPESIZE;
    assert n + k == q * PIPESIZE + (r + k - j);
  }

  lemma PutPending(b: Buf, ch: Byte)
    requires Ok(b) && !Full(b)
    ensures Ok(Put(b, ch)) && Pending(Put(b, ch)) == Pending(b) + [ch]
  {
    FullEmpty(b);
    var b', n := Put(b, ch), Count(b);
    assert Count(b') == n + 1;
    assert b.nwrite % PIPESIZE == (b.nread + n) % PIPESIZE;
    forall j | 0 <= j < n ensures Pending(b')[j] == Pending(b)[j] {
      CellsDiffer(b.nread, j, n);
    }
  }

  lemma GetPending(b: Buf)
    requires Ok(b) && !Empty(b)
    ensures Ok(Get(b)) && Pending(b) == [b.data[b.nread % PIPESIZE]] + Pending(Get(b))
  {
    FullEmpty(b);
    var b' := Get(b);
    assert Count(b') == Count(b) - 1;
    forall j | 0 <= j < Count(b') ensures Pending(b')[j] == Pending(b)[j + 1] {
      assert (b'.nread + j) % PIPESIZE == (b.nread + 1 + j) % PIPESIZE;
    }
  }

  function PutAll(b: Buf, bytes: seq<Byte>): (r: Buf)
    requires |b.data| == PIPESIZE
    ensures |r.data| == PIPESIZE
  {
    if bytes == [] then b else Put(PutAll(b, bytes[..|bytes| - 1]), bytes[|bytes| - 1])
  }

  function GetAll(b: Buf, n: nat): Buf {
    if n == 0 then b else Get(GetAll(b, n - 1))
  }

  lemma {:induction false} GetAllPending(b: Buf, n: nat)
    requires Ok(b) && n <= Count(b)
    ensures Ok(GetAll(b, n)) && Pending(GetAll(b, n)) == Pending(b)[n..]
  {
    hide Count, Get;
    if n > 0 {
      GetAllPending(b, n - 1);
      FullEmpty(GetAll(b, n - 1));
      GetPending(GetAll(b, n - 1));
    }
  }

  function Min(a: nat, b: nat): nat {
    if a < b then a else b
  }

  class Ring {
    const data: array<Byte>
    var nread: nat
    var nwrite: nat

    ghost function Value(): Buf
      reads this, data
    {
      Buf(data[..], nread, nwrite)
    }

    constructor ()
      ensures Ok(Value()) && Pending(Value()) == [] && fresh(data)
    {
      data := new Byte[PIPESIZE](_ => 0);
      nread, nwrite := 0, 0;
    }

    /** The inner loop of pipewrite between two sleeps: copy src[i..] until it ends or the pipe is full. */
    method Fill(src: seq<Byte>, i: nat) returns (j: nat)
      requires Ok(Value()) && i <= |src|
      modifies data, this`nwrite
      ensures Ok(Value()) && j == i + Min(|src| - i, PIPESIZE - old(Count(Value())))
      ensures Value() == PutAll(old(Value()), src[i..j])
      ensures Pending(Value()) == old(Pending(Value())) + src[i..j]
    {
      hide Pending, Put, Count;
      j := i;
      ghost var b0 := Value();
      FullEmpty(b0);
      assert Pending(b0) + src[i..i] == Pending(b0);
      while j < |src| && nwrite != (nread + PIPESIZE) % WRAP
        invariant Ok(Value()) && i <= j <= |src| && Value() == PutAll(b0, src[i..j])
        invariant Pending(Value()) == Pending(b0) + src[i..j]
      {
        ghost var b := Value();
        PutPending(b, src[j]);
        PutOne(b, src[j]);
        data[nwrite % PIPESIZE] := src[j];
        assert data[..] == b.data[b.nwrite % PIPESIZE := src[j]];
        nwrite := (nwrite + 1) % WRAP;
        assert Value() == Put(b, src[j]);
        assert src[i..j + 1][..j - i] == src[i..j];
        j := j + 1;
      }
      FullEmpty(Value());
    }

    /** The copy loop of piperead: up to n bytes, fewer when the pipe runs empty. */
    method Drain(n: nat) returns (dst: seq<Byte>)
      requires Ok(Value())
      modifies this`nread
      ensures Ok(Value()) && |dst| == Min(n, old(Count(Value())))
      ensures Value() == GetAll(old(Value()), |dst|)
      ensures old(Pending(Value())) == dst + Pending(Value())
    {
      hide Pending, Count;
      dst := [];
      ghost var b0 := Value();
      while |dst| < n && nread != nwrite
        invariant Ok(Value()) && |dst| <= n && data[..] == b0.data && Value() == GetAll(b0, |dst|)
        invariant Pending(b0) == dst + Pending(Value())
        decreases n - |dst|
      {
        GetPending(Value());
        dst := dst + [data[nread % PIPESIZE]];
        nread := (nread + 1) % WRAP;
      }
      FullEmpty(Value());
    }
  }

  lemma PutOne(b: Buf, ch: Byte)
    requires |b.data| == PIPESIZE
    ensures Put(b, ch) == Buf(b.data[b.nwrite % PIPESIZE := ch], b.nread, (b.nwrite + 1) % WRAP)
  {
  }
}

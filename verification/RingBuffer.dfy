/**
 Ring buffers with a read and a write index, one slot of which always stays empty.

 The contents are what lies between the indices.  The class is the ring as one caller sees it; the
 module on interleavings looks at the single loads and stores of two callers, and shares the arithmetic
 of the indices with it.

 The firmware masks an index with the size less one, which for a power of two is the remainder.
 */
module RingBuffer {
  import opened Arithmetic
  import opened Bytes

  predicate IsPowerOfTwo(size: nat) {
    size in {2, 4, 8, 16, 32, 64, 128, 256}
  }

  /** For these sizes the firmware's mask is a remainder. */
  lemma {:induction false} MaskIsRemainder(x: nat, size: nat)
    requires size == 1 || IsPowerOfTwo(size)
    ensures And(x, size - 1) == x % size
    decreases size
  {
    if size == 1 {
      assert x % 1 == 0;
    } else if x > 0 {
      var half := size / 2;
      assert size == 2 * half && (half == 1 || IsPowerOfTwo(half));
      MaskIsRemainder(x / 2, half);
      DoubleRemainder(x, half);
      AndOdd(x, half);
    } else {
      SmallRemainder(size);
    }
  }

  lemma AndOdd(x: nat, half: nat)
    requires half > 0
    ensures And(x, 2 * half - 1) == x % 2 + 2 * And(x / 2, half - 1)
  {
  }

  lemma SmallRemainder(n: nat)
    requires n > 0
    ensures 0 % n == 0
  {
  }

  /** `x & (size - 1)`, for the values that indices take. */
  function Wrap(x: int, size: nat): (r: nat)
    requires 0 < size && -(size as int) <= x < 2 * size
    ensures r < size
  {
    if x < 0 then x + size else if x < size then x else x - size
  }

  lemma WrapIsMask(x: nat, size: nat)
    requires IsPowerOfTwo(size) && x < 2 * size
    ensures Wrap(x, size) == And(x, size - 1)
  {
    MaskIsRemainder(x, size);
    RemainderCases(x, size);
  }

  /** The elements from the read index up to the write index. */
  function Pending<T>(buffer: seq<T>, read: nat, write: nat): (s: seq<T>)
    requires read < |buffer| && write < |buffer|
    ensures |s| == Wrap(write - read, |buffer|)
    ensures forall i {:trigger s[i]} :: 0 <= i < |s| ==> s[i] == buffer[Wrap(read + i, |buffer|)]
  {
    seq(Wrap(write - read, |buffer|),
        i requires 0 <= i < Wrap(write - read, |buffer|) => buffer[Wrap(read + i, |buffer|)])
  }

  /** Publishing turns room into unread elements; reading turns one back. */
  lemma AfterPublish(size: nat, read: nat, write: nat, n: nat)
    requires 0 < size && read < size && write < size && write + n <= size && n <= Wrap(read - write - 1, size)
    ensures Wrap(read - Wrap(write + n, size) - 1, size) == Wrap(read - write - 1, size) - n
    ensures Wrap(Wrap(write + n, size) - read, size) == Wrap(write - read, size) + n
  {
  }

  lemma AfterRead(size: nat, read: nat, write: nat)
    requires 0 < size && read < size && write < size && read != write
    ensures Wrap(write - Wrap(read + 1, size), size) == Wrap(write - read, size) - 1
    ensures Wrap(Wrap(read + 1, size) - write - 1, size) == Wrap(read - write - 1, size) + 1
  {
  }

  /** The slots just behind the write index hold nothing unread, as far as there is room. */
  lemma FreeSlot(size: nat, read: nat, write: nat, j: nat, i: nat)
    requires 1 < size && read < size && write + j < size
    requires j < Wrap(read - write - 1, size) && i < Wrap(write - read, size)
    ensures Wrap(read + i, size) != write + j
  {
  }

  lemma PendingAppend<T>(buffer: seq<T>, read: nat, write: nat, items: seq<T>)
    requires 1 < |buffer| && read < |buffer| && write + |items| <= |buffer| && 0 < |items|
    requires |items| <= Wrap(read - write - 1, |buffer|)
    requires forall j :: 0 <= j < |items| ==> buffer[write + j] == items[j]
    ensures Pending(buffer, read, Wrap(write + |items|, |buffer|)) == Pending(buffer, read, write) + items
  {
    var s, s' := Pending(buffer, read, write), Pending(buffer, read, Wrap(write + |items|, |buffer|));
    assert |s'| == |s| + |items|;
    forall i | 0 <= i < |s'| ensures s'[i] == (s + items)[i] {
      if i >= |s| {
        assert Wrap(read + i, |buffer|) == write + (i - |s|);
      }
    }
  }

  lemma PendingAdvance<T>(buffer: seq<T>, read: nat, write: nat)
    requires 1 < |buffer| && read < |buffer| && write < |buffer| && read != write
    ensures Pending(buffer, read, write) == [buffer[read]] + Pending(buffer, Wrap(read + 1, |buffer|), write)
  {
    var s, s' := Pending(buffer, read, write), Pending(buffer, Wrap(read + 1, |buffer|), write);
    assert |s| == |s'| + 1;
    forall i | 0 <= i < |s| ensures s[i] == ([buffer[read]] + s')[i] {
      if i > 0 {
        assert s'[i - 1] == buffer[Wrap(Wrap(read + 1, |buffer|) + i - 1, |buffer|)];
      }
    }
  }

  /** Stores behind the write index, where there is room, leave what is unread alone. */
  lemma PendingKept<T>(before: seq<T>, after: seq<T>, read: nat, write: nat, n: nat)
    requires 1 < |before| == |after| && read < |before| && write + n <= |before| && write < |before|
    requires n <= Wrap(read - write - 1, |before|)
    requires forall i :: 0 <= i < |before| && !(write <= i < write + n) ==> after[i] == before[i]
    ensures Pending(after, read, write) == Pending(before, read, write)
  {
    var unread := Pending(before, read, write);
    forall i | 0 <= i < |unread| ensures unread[i] == Pending(after, read, write)[i] {
      var slot := Wrap(read + i, |before|);
      if write <= slot < write + n {
        FreeSlot(|before|, read, write, slot - write, i);
      }
    }
    hide Pending, Wrap;
  }

  class Ring<T(0)> {
    const buffer: array<T>
    var read: nat
    var write: nat

    ghost predicate Valid()
      reads this, buffer
    {
      IsPowerOfTwo(buffer.Length) && read < buffer.Length && write < buffer.Length
    }

    ghost function Contents(): (s: seq<T>)
      requires Valid()
      reads this, buffer
      ensures |s| < buffer.Length
    {
      Pending(buffer[..], read, write)
    }

    constructor (size: nat)
      requires IsPowerOfTwo(size)
      ensures Valid() && Contents() == [] && buffer.Length == size && fresh(buffer)
    {
      buffer := new T[size];
      read, write := 0, 0;
    }

    function Writable(): (room: nat)
      requires Valid()
      reads this, buffer
      ensures room == buffer.Length - 1 - |Contents()|
    {
      Wrap(read - write - 1, buffer.Length)
    }

    function Readable(): (count: nat)
      requires Valid()
      reads this, buffer
      ensures count == |Contents()|
    {
      Wrap(write - read, buffer.Length)
    }

    /** Writing without asking: into a full ring it makes the whole backlog vanish. */
    method Overwrite(v: T)
      requires Valid()
      modifies this`write, buffer
      ensures Valid()
      ensures Contents() == if |old(Contents())| < buffer.Length - 1 then old(Contents()) + [v] else []
    {
      ghost var before := Contents();
      var w := write;
      buffer[w] := v;
      write := Wrap(w + 1, buffer.Length);
      if |before| < buffer.Length - 1 {
        assert Contents() == before + [v];
      }
    }

    method NonBlockingWrite(v: T) returns (ok: bool)
      requires Valid()
      modifies this`write, buffer
      ensures Valid()
      ensures ok <==> |old(Contents())| < buffer.Length - 1
      ensures Contents() == if ok then old(Contents()) + [v] else old(Contents())
    {
      ok := Writable() > 0;
      if ok {
        Overwrite(v);
      }
    }

    method ImmediateRead() returns (v: T)
      requires Valid() && Contents() != []
      modifies this`read
      ensures Valid() && old(Contents()) == [v] + Contents()
    {
      ghost var before := Contents();
      var r := read;
      v := buffer[r];
      read := Wrap(r + 1, buffer.Length);
      assert before == [v] + Contents();
    }

    /** Two samples at once; the second store does not wrap, so the write index must be even. */
    method Overwrite2(v1: T, v2: T)
      requires Valid() && write % 2 == 0 && Writable() >= 2
      modifies this`write, buffer
      ensures Valid() && write % 2 == 0 && Contents() == old(Contents()) + [v1, v2]
    {
      hide *;
      Opened();
      Advanced(write);
      ghost var before := buffer[..];
      var p := write;
      buffer[p] := v1;
      buffer[p + 1] := v2;
      write := Wrap(p + 2, buffer.Length);
      PendingKept(before, buffer[..], read, p, 2);
      PendingAppend(buffer[..], read, p, [v1, v2]);
      Opened();
    }

    lemma Opened()
      ensures Valid() ==>
                && read < buffer.Length && write < buffer.Length && 1 < buffer.Length
                && IsPowerOfTwo(buffer.Length) && Contents() == Pending(buffer[..], read, write)
                && Writable() == Wrap(read - write - 1, buffer.Length)
      ensures IsPowerOfTwo(buffer.Length) && read < buffer.Length && write < buffer.Length ==> Valid()
    {
    }

    /** An even index has a slot behind it, and two slots on it is even. */
    lemma Advanced(p: nat)
      requires IsPowerOfTwo(buffer.Length) && p < buffer.Length && p % 2 == 0
      ensures p + 2 <= buffer.Length && Wrap(p + 2, buffer.Length) % 2 == 0
    {
    }
  }

  // ---- The audio path ----

  const BLOCK_SIZE := 40
  const SILENCE: byte := 128

  /** What one rendered block adds to the audio buffer. */
  function Block(vca: byte, rendered: seq<byte>): (block: seq<byte>)
    requires |rendered| == BLOCK_SIZE
    ensures |block| == BLOCK_SIZE
  {
    if vca < 2 then seq(BLOCK_SIZE, _ => SILENCE) else rendered
  }

  /** The output loops of `ProcessBlock`: either branch writes one block, two samples at a time. */
  method ProcessBlock(audio: Ring<byte>, vca: byte, rendered: seq<byte>)
    requires audio.Valid() && audio.write % 2 == 0 && audio.Writable() >= BLOCK_SIZE && |rendered| == BLOCK_SIZE
    modifies audio`write, audio.buffer
    ensures audio.Valid() && audio.write % 2 == 0
    ensures audio.Contents() == old(audio.Contents()) + Block(vca, rendered)
    ensures forall i {:trigger audio.Contents()[i]} :: |old(audio.Contents())| <= i < |audio.Contents()| ==>
              audio.Contents()[i] == if vca < 2 then 128 else rendered[i - |old(audio.Contents())|]
  {
    hide Pending, Wrap;
    ghost var block := Block(vca, rendered);
    var i := 0;
    while i < BLOCK_SIZE
      invariant 0 <= i <= BLOCK_SIZE && i % 2 == 0
      invariant audio.Valid() && audio.write % 2 == 0
      invariant audio.Contents() == old(audio.Contents()) + block[..i]
    {
      if vca < 2 {
        audio.Overwrite2(SILENCE, SILENCE);
      } else {
        audio.Overwrite2(rendered[i], rendered[i + 1]);
      }
      assert block[..i + 2] == block[..i] + [block[i], block[i + 1]];
      i := i + 2;
    }
    assert block[..BLOCK_SIZE] == block;
  }
}

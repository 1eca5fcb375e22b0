/** Pipes (src/fs/pipe.c:66-116, src/fs/pipe.h:7-16). A call of pipeRead or pipeWrite gives
up the pipe's lock only while it sleeps; a method here is what such a call does while it
has the lock, so that any interleaving of calls is a sequence of these. */
module Pipe {
  import opened Basics
  import opened Bytes

  const PIPESIZE := 512
  const COUNTER_LIMIT := 0x1_0000_0000

  /** How a section of a call ends. */
  datatype Outcome = Finished | Sleeps | Failed

  /** The buffer and the counters, against all bytes ever written and read. */
  ghost predicate PipeOk(data: seq<byte>, nread: nat, nwrite: nat, written: seq<byte>, read: seq<byte>) {
    && |data| == PIPESIZE && read <= written && |written| <= |read| + PIPESIZE
    && nread == |read| % COUNTER_LIMIT && nwrite == |written| % COUNTER_LIMIT
    && forall k | |read| <= k < |written| :: data[k % PIPESIZE] == written[k]
  }

  /** The slot of a byte can be told from its counter, because PIPESIZE divides the range. */
  lemma SlotOf(n: nat)
    ensures n % COUNTER_LIMIT % PIPESIZE == n % PIPESIZE
  {
    var q, r := n / COUNTER_LIMIT, n % COUNTER_LIMIT;
    RemainderIs(n, PIPESIZE, q * (COUNTER_LIMIT / PIPESIZE) + r / PIPESIZE, r % PIPESIZE);
  }

  lemma CountOn(n: nat, k: nat)
    ensures (n % COUNTER_LIMIT + k) % COUNTER_LIMIT == (n + k) % COUNTER_LIMIT
  {
    var t := n % COUNTER_LIMIT + k;
    RemainderIs(n + k, COUNTER_LIMIT, n / COUNTER_LIMIT + t / COUNTER_LIMIT, t % COUNTER_LIMIT);
  }

  /** The counters tell an empty and a full pipe, although they wrap around. */
  lemma CountersTell(data: seq<byte>, nread: nat, nwrite: nat, written: seq<byte>, read: seq<byte>)
    requires PipeOk(data, nread, nwrite, written, read)
    ensures nread == nwrite <==> |read| == |written|
    ensures nwrite == (nread + PIPESIZE) % COUNTER_LIMIT <==> |written| == |read| + PIPESIZE
    ensures nread % PIPESIZE == |read| % PIPESIZE && nwrite % PIPESIZE == |written| % PIPESIZE
  {
    CountOn(|read|, PIPESIZE);
    if nread == nwrite {
      SameRemainder(|read|, |written|, COUNTER_LIMIT);
    }
    if nwrite == (nread + PIPESIZE) % COUNTER_LIMIT {
      SameRemainder(|written|, |read| + PIPESIZE, COUNTER_LIMIT);
    }
    SlotOf(|read|);
    SlotOf(|written|);
  }

  lemma PutOk(data: seq<byte>, nread: nat, nwrite: nat, written: seq<byte>, read: seq<byte>, x: byte)
    requires PipeOk(data, nread, nwrite, written, read) && |written| < |read| + PIPESIZE
    ensures PipeOk(data[nwrite % PIPESIZE := x], nread, (nwrite + 1) % COUNTER_LIMIT, written + [x], read)
  {
    CountersTell(data, nread, nwrite, written, read);
    CountOn(|written|, 1);
    var data', written' := data[nwrite % PIPESIZE := x], written + [x];
    forall k | |read| <= k < |written'|
      ensures data'[k % PIPESIZE] == written'[k]
    {
      if k % PIPESIZE == |written| % PIPESIZE {
        SameRemainder(k, |written|, PIPESIZE);
      }
    }
  }

  lemma TakeOk(data: seq<byte>, nread: nat, nwrite: nat, written: seq<byte>, read: seq<byte>)
    requires PipeOk(data, nread, nwrite, written, read) && |read| < |written|
    ensures data[nread % PIPESIZE] == written[|read|]
    ensures PipeOk(data, (nread + 1) % COUNTER_LIMIT, nwrite, written, read + [written[|read|]])
  {
    CountersTell(data, nread, nwrite, written, read);
    CountOn(|read|, 1);
  }

  class Pipe {
    const data: array<byte>
    var nread: nat
    var nwrite: nat
    var readopen: bool
    var writeopen: bool
    ghost var written: seq<byte>
    ghost var read: seq<byte>

    /** What has been read is a prefix of what has been written, and at most PIPESIZE bytes
        are in between. */
    ghost predicate Valid()
      reads this, data
    {
      PipeOk(data[..], nread, nwrite, written, read)
    }

    /** init_pipe */
    constructor ()
      ensures Valid() && fresh(data) && readopen && writeopen && written == [] && read == []
    {
      data := new byte[PIPESIZE](_ => 0);
      nread, nwrite, readopen, writeopen := 0, 0, true, true;
      written, read := [], [];
    }

    /** pipeWrite from byte `i` of `src` on: until all is written, or the pipe is full. */
    method Write(src: seq<byte>, i: nat, killed: bool) returns (end: Outcome, j: nat)
      requires Valid() && i <= |src|
      modifies data, `nwrite, `written
      ensures Valid() && i <= j <= |src| && written == old(written) + src[i..j]
      ensures end == Finished <==> j == |src|
      ensures end != Finished ==> |written| == |read| + PIPESIZE
      ensures end == Failed <==> j < |src| && (!readopen || killed)
    {
      j := i;
      assert src[i..j] == [];
      while j < |src|
        invariant Valid() && i <= j <= |src| && written == old(written) + src[i..j]
      {
        CountersTell(data[..], nread, nwrite, written, read);
        if nwrite == (nread + PIPESIZE) % COUNTER_LIMIT {
          end := if !readopen || killed then Failed else Sleeps;
          return;
        }
        PutOk(data[..], nread, nwrite, written, read, src[j]);
        data[nwrite % PIPESIZE] := src[j];
        nwrite := (nwrite + 1) % COUNTER_LIMIT;
        written := written + [src[j]];
        j := j + 1;
        assert src[i..j] == src[i..j - 1] + [src[j - 1]];
      }
      end := Finished;
    }

    /** pipeRead of up to `n` bytes: the next that are there. It sleeps only on an empty
        pipe with a writer. */
    method Read(n: nat, killed: bool) returns (end: Outcome, dest: seq<byte>)
      requires Valid()
      modifies `nread, `read
      ensures Valid() && read == old(read) + dest
      ensures end == Finished ==> |dest| == if n < |written| - |old(read)| then n else |written| - |old(read)|
      ensures end != Finished <==> |old(read)| == |written| && writeopen
      ensures end != Finished ==> dest == [] && (end == Failed <==> killed)
    {
      dest := [];
      CountersTell(data[..], nread, nwrite, written, read);
      if nread == nwrite && writeopen {
        end := if killed then Failed else Sleeps;
        return;
      }
      end := Finished;
      while |dest| < n
        invariant Valid() && read == old(read) + dest && |dest| <= n
      {
        CountersTell(data[..], nread, nwrite, written, read);
        if nread == nwrite {
          return;
        }
        TakeOk(data[..], nread, nwrite, written, read);
        dest := dest + [data[nread % PIPESIZE]];
        read := read + [data[nread % PIPESIZE]];
        nread := (nread + 1) % COUNTER_LIMIT;
      }
    }
  }
}

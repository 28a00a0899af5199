/** Pipes: sys/fs/pipe.cpp. */
module Pipes {
  import opened Modular
  import opened RingMoves

  const PIPE_BUF: nat := 4096

  type Byte = bv8

  /** How a turn of the loop of a read or write call ends: the call returns, waits, or goes on. */
  datatype Turn = Return(result: nat) | Fail(errno: Errno) | Wait | Again

  datatype Errno = EAGAIN | EPIPE

  /**
   A pipe. Calls hold the lock of its vnode for a whole turn of their loop and give it up only while
   they wait, so that any run of the system is a sequence of turns of reads and writes and of opens
   and closes.
   */
  class Pipe {
    const modulus: nat              // number of values of size_t
    const buf: array<Byte>
    var rd: nat
    var wr: nat
    var readFds: nat
    var writeFds: nat
    ghost var written: seq<Byte>    // all bytes ever written, and read
    ghost var taken: seq<Byte>

    ghost predicate Shape() {
      buf.Length == PIPE_BUF && PIPE_BUF < modulus && modulus % PIPE_BUF == 0
    }

    function Used(): nat
      requires modulus > 0
      reads this
    {
      Dist(rd, wr, modulus)
    }

    ghost function Buffered(): seq<Byte>
      requires Shape()
      reads this, buf
    {
      View(buf[..], rd, Used())
    }

    /** Nothing is lost, repeated or out of order, and the buffer is not overrun. */
    ghost predicate Valid()
      reads this, buf
    {
      && Shape() && rd < modulus && wr < modulus && Used() <= PIPE_BUF
      && taken + Buffered() == written
    }

    constructor (modulus: nat)
      requires PIPE_BUF < modulus && modulus % PIPE_BUF == 0
      ensures Valid() && written == [] && taken == [] && fresh(buf)
    {
      this.modulus := modulus;
      buf := new Byte[PIPE_BUF];
      rd, wr, readFds, writeFds, written, taken := 0, 0, 0, 0, [], [];
      new;
      Small(0, modulus);
    }

    method Open(forWriting: bool)
      requires Valid()
      modifies this`readFds, this`writeFds
      ensures Valid() && writeFds == old(writeFds) + (if forWriting then 1 else 0)
      ensures readFds == old(readFds) + (if forWriting then 0 else 1)
    {
      if forWriting { writeFds := writeFds + 1; } else { readFds := readFds + 1; }
    }

    method Close(forWriting: bool)
      requires Valid() && (if forWriting then writeFds > 0 else readFds > 0)
      modifies this`readFds, this`writeFds
      ensures Valid() && writeFds == old(writeFds) - (if forWriting then 1 else 0)
      ensures readFds == old(readFds) - (if forWriting then 0 else 1)
    {
      if forWriting { writeFds := writeFds - 1; } else { readFds := readFds - 1; }
    }

    /** One turn of pipe_read: `size` bytes are still wanted and `read` have been read. */
    method ReadTurn(size: nat, read: nat, nonblock: bool) returns (o: Turn, data: seq<Byte>)
      requires Valid()
      modifies this`rd, this`taken
      ensures Valid() && taken == old(taken) + data && |data| <= size && old(Buffered()) == data + Buffered()
      ensures o == Again <==> data != []
      ensures o.Return? ==> o.result == read && (size == 0 || (Used() == 0 && (writeFds == 0 || read > 0)))
      ensures o.Return? && o.result == 0 && size > 0 ==> old(Buffered()) == [] && writeFds == 0
      ensures o.Wait? || o.Fail? ==> old(Buffered()) == [] && writeFds > 0 && read == 0
      ensures size == 0 ==> o == Return(read)
      ensures (o.Wait? ==> !nonblock) && (o.Fail? ==> nonblock && o.errno == EAGAIN)
      ensures o == Again ==> |data| == size || |data| == old(Used()) || rd % PIPE_BUF == 0
    {
      hide View, Slot, Dist, Fwd;
      data := [];
      if size == 0 {
        return Return(read), data;
      }
      var avail := Used();
      if avail == 0 {
        if writeFds == 0 || read > 0 {
          return Return(read), data;
        }
        return if nonblock then Fail(EAGAIN) else Wait, data;
      }
      // contiguous data available to end of circular buffer
      var off := Slot(PIPE_BUF, rd);
      var len := Min(size, Min(avail, PIPE_BUF - off));
      ghost var a := buf[..];
      ViewRun(a, rd, len);
      ViewParts(a, rd, avail, len);
      SlotStep(PIPE_BUF, modulus, rd, rd, len);
      FwdIs(rd, len, modulus);
      ViewSame(a, rd + len, Fwd(rd, len, modulus), avail - len);
      BeginFwd(rd, wr, len, modulus);
      data := buf[off..off + len];
      if off + len == PIPE_BUF { RunToEnd(PIPE_BUF, rd, len); SlotIs(Fwd(rd, len, modulus)); }
      rd := Fwd(rd, len, modulus);
      taken := taken + data;
      o := Again;
    }

    lemma FwdIs(x: nat, k: nat, m: nat)
      requires m > 0
      ensures Fwd(x, k, m) == (x + k) % m
    {
    }

    lemma SlotIs(x: nat)
      ensures Slot(PIPE_BUF, x) == x % PIPE_BUF
    {
    }

    method Copy(d: nat, vs: seq<Byte>, n: nat)
      requires d + n <= buf.Length && n <= |vs|
      modifies buf
      ensures Filled(old(buf[..]), buf[..], d, vs, 0, n)
    {
      forall k | d <= k < d + n {
        buf[k] := vs[k - d];
      }
    }

    /**
     One turn of pipe_write: the bytes vs are still to be written and `done` have been. An error is
     reported only by a call that has written nothing; SIGPIPE is sent all the same.
     */
    method WriteTurn(vs: seq<Byte>, done: nat, nonblock: bool) returns (o: Turn, len: nat, sigpipe: bool)
      requires Valid()
      modifies this`wr, this`written, buf
      ensures Valid() && len <= |vs| && written == old(written) + vs[..len] && Used() == old(Used()) + len
      ensures o == Again <==> len > 0
      ensures o == Again <==> vs != [] && readFds > 0 && old(Used()) < PIPE_BUF
      ensures sigpipe <==> vs != [] && readFds == 0
      ensures o.Fail? && o.errno == EPIPE <==> sigpipe && done == 0
      ensures o.Fail? && o.errno == EAGAIN <==> vs != [] && readFds > 0 && old(Used()) == PIPE_BUF && nonblock && done == 0
      ensures o.Wait? <==> vs != [] && readFds > 0 && old(Used()) == PIPE_BUF && !nonblock
      ensures o.Return? ==> o.result == done && (vs == [] || done > 0)
    {
      hide View, Slot, Dist, Fwd, Stored, Filled, Gapped;
      len := 0;
      if vs == [] {
        return Return(done), len, false;
      }
      if readFds == 0 {
        return if done > 0 then Return(done) else Fail(EPIPE), len, true;
      }
      var used := Used();
      var free := PIPE_BUF - used;
      if free == 0 {
        return if !nonblock then Wait else if done > 0 then Return(done) else Fail(EAGAIN), len, false;
      }
      var off := Slot(PIPE_BUF, wr);
      len := Min(|vs|, Min(free, PIPE_BUF - off));
      var chunk := vs[..len];
      ghost var a := buf[..];
      Copy(off, chunk, len);
      StoredNone(a, wr, chunk);
      assert wr + 0 == wr;
      StoreStep(a, a, buf[..], wr, chunk, 0, len);
      GapBack(a, rd, used, len);
      EndSlot();
      GapFilledAt(Held(a), a, buf[..], wr, rd, used, chunk);
      assert Held(a)[..used] == Held(a) && Held(a)[used..] == [];
      EndFwd(rd, wr, len, modulus);
      wr := Fwd(wr, len, modulus);
      written := written + chunk;
      o, sigpipe := Again, false;
    }

    ghost function Held(a: seq<Byte>): seq<Byte>
      requires |a| > 0 && modulus > 0
      reads this
    {
      View(a, rd, Used())
    }

    lemma EndSlot()
      requires Shape()
      ensures Slot(PIPE_BUF, wr) == Slot(PIPE_BUF, rd + Used())
    {
      ModMod(wr - rd, modulus, PIPE_BUF);
      SameAdd(Used(), wr - rd, rd, PIPE_BUF);
    }

    /** A read call that never has to wait takes what is there, in order, up to the size asked for. */
    method ReadNow(size: nat) returns (data: seq<Byte>, o: Turn)
      requires Valid()
      modifies this`rd, this`taken
      ensures Valid() && taken == old(taken) + data
      ensures data == old(Buffered())[..Min(size, old(Used()))]
      ensures o == if size > 0 && data == [] && writeFds > 0 then Fail(EAGAIN) else Return(|data|)
    {
      hide View, Dist;
      ghost var was := Buffered();
      data := [];
      var left: nat := size;
      while true
        invariant Valid() && |data| + left == size && taken == old(taken) + data && data + Buffered() == was
        decreases left
      {
        var chunk;
        o, chunk := ReadTurn(left, |data|, true);
        data, left := data + chunk, left - |chunk|;
        if o != Again {
          return;
        }
      }
    }

    /**
     A write call that never has to wait: with readers, as much as there is room for, behind what
     is there; an error only when nothing was written.
     */
    method WriteNow(vs: seq<Byte>) returns (n: nat, o: Turn, sigpipe: bool)
      requires Valid()
      modifies this`wr, this`written, buf
      ensures Valid() && n == if readFds == 0 then 0 else Min(|vs|, PIPE_BUF - old(Used()))
      ensures written == old(written) + vs[..n] && Buffered() == old(Buffered()) + vs[..n]
      ensures o == if n > 0 || vs == [] then Return(n) else Fail(if readFds == 0 then EPIPE else EAGAIN)
      ensures sigpipe <==> vs != [] && readFds == 0
    {
      hide View, Dist;
      n := 0;
      ghost var was := Buffered();
      while true
        invariant Valid() && n <= |vs| && written == old(written) + vs[..n] && Used() == old(Used()) + n
        invariant n > 0 ==> readFds > 0
        decreases |vs| - n
      {
        var len;
        o, len, sigpipe := WriteTurn(vs[n..], n, true);
        assert vs[..n] + vs[n..][..len] == vs[..n + len];
        n := n + len;
        if o != Again {
          Cancel(taken, Buffered(), was + vs[..n]);
          return;
        }
      }
    }

    lemma Cancel(a: seq<Byte>, b: seq<Byte>, c: seq<Byte>)
      requires a + b == a + c
      ensures b == c
    {
      assert b == (a + b)[|a|..] && c == (a + c)[|a|..];
    }
  }
}

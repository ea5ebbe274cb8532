/**
 Byte streams as the program sees a connection: reads that return any part of what has
 arrived, writes that may be cut short, and either may fail. How an endpoint behaves is a
 script given in advance, so the loops below are proved for every behaviour.
 */
module Streams {
  import opened Wrappers
  import opened Bytes

  datatype IoError = Eof | UnexpectedEof | ShortWrite | Failed

  /** One call's behaviour: at most `max` bytes, and possibly an error with them. */
  datatype Step = Step(max: nat, err: Option<IoError>)

  function Min(a: nat, b: nat): nat {
    if a <= b then a else b
  }

  class Source {
    var pending: seq<byte>
    var script: seq<Step>

    constructor (bytes: seq<byte>, script: seq<Step>)
      ensures pending == bytes && this.script == script
    {
      pending, this.script := bytes, script;
    }

    /** Every read makes progress without an error until the bytes run out. */
    ghost predicate Reliable()
      reads this
    {
      forall step | step in script :: step.max >= 1 && step.err.None?
    }

    ghost function Measure(): nat
      reads this
    {
      |script| + |pending|
    }

    /** io.Reader.Read into a buffer of `limit` bytes. */
    method Read(limit: nat) returns (data: seq<byte>, err: Option<IoError>)
      modifies this
      ensures |data| <= limit && data + pending == old(pending)
      ensures err.None? && limit >= 1 ==> Measure() < old(Measure())
      ensures Measure() <= old(Measure())
      ensures old(Reliable()) ==> Reliable()
      ensures old(Reliable()) && limit >= 1 && old(pending) != [] ==> data != [] && err.None?
    {
      var n: nat;
      if script == [] {
        n := Min(limit, |pending|);
        err := if pending == [] then Some(Eof) else None;
      } else {
        n := Min(script[0].max, Min(limit, |pending|));
        err := script[0].err;
        script := script[1..];
      }
      data := pending[..n];
      pending := pending[n..];
    }
  }

  class Sink {
    var received: seq<byte>
    var script: seq<Step>

    constructor (script: seq<Step>)
      ensures received == [] && this.script == script
    {
      received, this.script := [], script;
    }

    /** Every write goes through whole. */
    ghost predicate Reliable()
      reads this
    {
      script == []
    }

    /** io.Writer.Write: `n` bytes of `data` arrived. */
    method Write(data: seq<byte>) returns (n: nat, err: Option<IoError>)
      modifies this
      ensures n <= |data| && received == old(received) + data[..n]
      ensures old(Reliable()) ==> Reliable() && n == |data| && err.None?
    {
      if script == [] {
        n, err := |data|, None;
      } else {
        n, err := Min(script[0].max, |data|), script[0].err;
        script := script[1..];
      }
      received := received + data[..n];
    }

    /** A write whose count the caller ignores, relying on io.Writer to report a short one. */
    method WriteAll(data: seq<byte>) returns (err: Option<IoError>)
      modifies this
      ensures var put := |received| - |old(received)|;
              && 0 <= put <= |data| && received == old(received) + data[..put]
              && (err.None? ==> put == |data|)
      ensures old(Reliable()) ==> Reliable() && err.None?
    {
      var n, e := Write(data);
      err := if e.None? && n < |data| then Some(ShortWrite) else e;
    }
  }

  /** io.ReadFull: succeeds just when it could read all `n` bytes. */
  method ReadFull(src: Source, n: nat) returns (data: seq<byte>, err: Option<IoError>)
    modifies src
    ensures |data| <= n && data + src.pending == old(src.pending)
    ensures err.None? <==> |data| == n
    ensures old(src.Reliable()) ==> src.Reliable()
    ensures old(src.Reliable()) && |old(src.pending)| >= n ==> err.None?
  {
    data, err := [], None;
    while |data| < n && err.None?
      invariant |data| <= n && data + src.pending == old(src.pending)
      invariant old(src.Reliable()) ==> src.Reliable()
      invariant old(src.Reliable()) && |old(src.pending)| >= n && |data| < n ==> err.None?
      decreases err.None?, src.Measure()
    {
      ghost var before := data + src.pending;
      var more, e := src.Read(n - |data|);
      data, err := data + more, e;
      assert data + src.pending == before;
    }
    if |data| >= n {
      err := None;
    } else if |data| > 0 && err == Some(Eof) {
      err := Some(UnexpectedEof);
    }
  }

  lemma Chunk(all: seq<byte>, taken: nat, data: seq<byte>, rest: seq<byte>)
    requires taken <= |all| && all[taken..] == data + rest
    ensures taken + |data| <= |all| && all[taken + |data|..] == rest && all[taken..taken + |data|] == data
  {
    assert all[taken + |data|..] == all[taken..][|data|..];
    assert all[taken..taken + |data|] == all[taken..][..|data|];
  }

  lemma ChunkOf(all: seq<byte>, start: nat, data: seq<byte>, n: nat)
    requires n <= |data| && start + |data| <= |all| && all[start..start + |data|] == data
    ensures all[..start] + data[..n] == all[..start + n]
  {
    assert data[..n] == all[start..start + n];
  }

  /**
   myCopyN over a buffer of `bufLen` bytes. It returns nil just when exactly `size` bytes were
   moved; whatever it returns, what was written is what was read, in order, and it never
   reads beyond `size`. On reliable streams it returns nil just when `size` bytes are there.
   */
  method MyCopyN(dst: Sink, src: Source, size: int, bufLen: nat) returns (readErr: bool, err: Option<IoError>)
    requires bufLen >= 1
    modifies dst, src
    ensures var taken := |old(src.pending)| - |src.pending|;
            var put := |dst.received| - |old(dst.received)|;
            && 0 <= put <= taken <= (if size < 0 then 0 else size)
            && src.pending == old(src.pending)[taken..]
            && dst.received == old(dst.received) + old(src.pending)[..put]
            && (err.None? <==> put == size)
            && (err.None? ==> taken == size && !readErr)
    ensures old(src.Reliable()) && old(dst.Reliable()) ==>
              && src.Reliable() && dst.Reliable()
              && (err.None? <==> 0 <= size <= |old(src.pending)|)
  {
    var limit: nat := if size < 0 then 0 else size;
    ghost var all, before := src.pending, dst.received;
    ghost var taken: nat := 0;
    var written: nat := 0;
    readErr, err := false, None;
    while err.None?
      invariant taken + limit == (if size < 0 then 0 else size)
      invariant taken <= |all| && src.pending == all[taken..]
      invariant written <= taken && dst.received == before + all[..written]
      invariant err.None? ==> written == taken && !readErr
      invariant old(src.Reliable()) && old(dst.Reliable()) ==> src.Reliable() && dst.Reliable()
      invariant old(src.Reliable()) && old(dst.Reliable()) && err.Some? ==>
                  written == taken && (limit == 0 || taken == |all|)
      decreases err.None?, src.Measure() + limit
    {
      var data: seq<byte>;
      if limit == 0 {
        data, err := [], Some(Eof);
      } else {
        data, err := src.Read(Min(bufLen, limit));
        limit := limit - |data|;
      }
      Chunk(all, taken, data, src.pending);
      ghost var start := taken;
      taken := taken + |data|;
      if |data| > 0 {
        var nw, werr := dst.Write(data);
        written := written + nw;
        ChunkOf(all, start, data, nw);
        if err.Some? {
          readErr := true;
        } else if werr.Some? {
          err := werr;
        } else if |data| != nw {
          err := Some(ShortWrite);
        }
      } else if err.Some? {
        readErr := true;
      }
    }
    if written == size {
      return false, None;
    }
  }
}

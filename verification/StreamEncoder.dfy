/** The fast encoder: a queue of large chunks plus a flattened tail, proved to be the byte queue of the simple one. */
module StreamEncoders {
  import opened ByteStrings
  import opened ClientOps

  const WRITE_FLATTEN_THRESHOLD: nat := 4096

  predicate NoneEmpty(bufs: seq<Bytes>) {
    forall i :: 0 <= i < |bufs| ==> bufs[i] != []
  }

  /** The slices an iovec of `slots` entries receives. */
  function Slices(bufs: seq<Bytes>, slots: nat): seq<Bytes> {
    if slots < |bufs| then bufs[..slots] else bufs
  }

  /** A deque of chunks with its cached total length. */
  class BufList {
    var bufs: seq<Bytes>
    var len: nat

    ghost predicate Valid()
      reads this
    {
      NoneEmpty(bufs) && len == |Flatten(bufs)|
    }

    function Remaining(): nat
      reads this
    {
      len
    }

    function HasRemaining(): bool
      reads this
    {
      bufs != []
    }

    function Chunk(): Bytes
      reads this
    {
      if bufs == [] then [] else bufs[0]
    }

    constructor ()
      ensures Valid() && bufs == []
    {
      bufs, len := [], 0;
    }

    method Push(buf: Bytes)
      requires Valid() && buf != []
      modifies this
      ensures Valid() && bufs == old(bufs) + [buf]
    {
      FlattenSnoc(bufs, buf);
      bufs := bufs + [buf];
      len := len + |buf|;
    }

    method Advance(count: nat)
      requires Valid() && count <= len
      modifies this
      ensures Valid() && Flatten(bufs) == Flatten(old(bufs))[count..]
    {
      var cnt: nat := count;
      while cnt > 0
        invariant Valid() && cnt <= len && cnt <= |Flatten(bufs)|
        invariant Flatten(bufs)[cnt..] == Flatten(old(bufs))[count..]
        decreases |bufs|, cnt
      {
        ghost var whole := Flatten(bufs);
        var entry, rest := bufs[0], bufs[1..];
        if |entry| > cnt {
          bufs := [entry[cnt..]] + rest;
          assert bufs[1..] == rest;
          assert whole[cnt..] == entry[cnt..] + Flatten(rest);
          len := len - cnt;
          cnt := 0;
        } else {
          assert whole == entry + Flatten(rest);
          assert whole[cnt..] == Flatten(rest)[cnt - |entry|..];
          bufs := rest;
          len := len - |entry|;
          cnt := cnt - |entry|;
        }
      }
    }

    /** `BytesMut::put(self.take(n))`: chunk by chunk until the limit is reached. */
    method Drain(n: nat) returns (taken: Bytes)
      requires Valid() && n <= len
      modifies this
      ensures Valid() && taken == Flatten(old(bufs))[..n] && Flatten(bufs) == Flatten(old(bufs))[n..]
    {
      var limit: nat := n;
      taken := [];
      while limit > 0
        invariant Valid() && limit <= len
        invariant limit <= n && |taken| == n - limit
        invariant taken + Flatten(bufs) == Flatten(old(bufs))
        decreases limit
      {
        ghost var whole := Flatten(bufs);
        var chunk := if |bufs[0]| <= limit then bufs[0] else bufs[0][..limit];
        assert whole == chunk + whole[|chunk|..];
        Advance(|chunk|);
        ghost var was := taken;
        taken := taken + chunk;
        assert was + (chunk + whole[|chunk|..]) == taken + whole[|chunk|..];
        limit := limit - |chunk|;
      }
      assert Flatten(old(bufs))[..n] == taken;
    }

    method CopyToBytes(n: nat) returns (taken: Bytes)
      requires Valid() && n <= len
      modifies this
      ensures Valid() && taken == Flatten(old(bufs))[..n] && Flatten(bufs) == Flatten(old(bufs))[n..]
    {
      if bufs != [] && |bufs[0]| > n {
        ghost var whole := Flatten(bufs);
        var first, rest := bufs[0], bufs[1..];
        len := len - n;
        taken := first[..n];
        bufs := [first[n..]] + rest;
        assert bufs[1..] == rest;
        assert whole[n..] == first[n..] + Flatten(rest);
        return;
      }
      if bufs != [] && |bufs[0]| == n {
        len := len - n;
        taken := bufs[0];
        bufs := bufs[1..];
        return;
      }
      taken := Drain(n);
    }

    method ChunksVectored(slots: nat) returns (slices: seq<Bytes>)
      ensures slices == Slices(bufs, slots)
    {
      slices := [];
      var free: nat := slots;
      for i := 0 to |bufs|
        invariant |slices| + free == slots
        invariant slices == bufs[..i]
        invariant free > 0 || i == 0
      {
        if free == 0 {
          return;
        }
        slices := slices + [bufs[i]];
        free := free - 1;
        if free == 0 {
          assert slices == bufs[..slots];
          return;
        }
      }
      assert bufs[..|bufs|] == bufs;
    }
  }

  lemma AdvanceParts(a: Bytes, b: Bytes, n: nat)
    requires n <= |a + b|
    ensures var mid := if |a| < n then |a| else n;
      (a + b)[n..] == a[mid..] + b[n - mid..] && (a + b)[..n] == a[..mid] + b[..n - mid]
  {
  }

  /** `StreamEncoder`, with the history of what was accepted and what was drained. */
  class StreamEncoder {
    const writeBuf: BufList
    var flattened: Bytes
    /** The operations enqueued so far, and the bytes taken out so far. */
    ghost var accepted: seq<ClientOp>
    ghost var drained: Bytes

    ghost predicate Structure()
      reads this, writeBuf
    {
      writeBuf.Valid()
    }

    /** Whatever the interleaving: bytes drained, then bytes remaining, are the simple encodings in order. */
    ghost predicate Valid()
      reads this, writeBuf
    {
      Structure() && drained + Contents() == WireAll(accepted)
    }

    function Contents(): Bytes
      reads this, writeBuf
    {
      Flatten(writeBuf.bufs) + flattened
    }

    constructor ()
      ensures Valid() && fresh(writeBuf)
      ensures accepted == [] && drained == [] && Contents() == []
    {
      writeBuf := new BufList();
      flattened := [];
      accepted, drained := [], [];
    }

    function Remaining(): (n: nat)
      requires writeBuf.Valid()
      reads this, writeBuf
      ensures n == |Contents()|
    {
      writeBuf.Remaining() + |flattened|
    }

    function HasRemaining(): (b: bool)
      requires writeBuf.Valid()
      reads this, writeBuf
      ensures b <==> Contents() != []
    {
      assert writeBuf.bufs != [] ==> writeBuf.bufs[0] != [];
      writeBuf.HasRemaining() || flattened != []
    }

    /** The first contiguous slice: empty only when nothing remains. */
    function Chunk(): (c: Bytes)
      requires writeBuf.Valid()
      reads this, writeBuf
      ensures c <= Contents()
      ensures c == [] <==> Contents() == []
    {
      assert writeBuf.bufs != [] ==> writeBuf.bufs[0] != [];
      if writeBuf.Chunk() == [] then flattened else writeBuf.Chunk()
    }

    method SmallWrite(b: Bytes)
      requires Structure()
      modifies this
      ensures Structure() && Contents() == old(Contents()) + b
      ensures accepted == old(accepted) && drained == old(drained)
    {
      assert Flatten(writeBuf.bufs) + (flattened + b) == Contents() + b;
      flattened := flattened + b;
    }

    /** Large buffers become chunks of their own, after whatever was flattened so far. */
    method WriteWhole(b: Bytes)
      requires Structure()
      modifies this, writeBuf
      ensures Structure() && Contents() == old(Contents()) + b
      ensures accepted == old(accepted) && drained == old(drained)
    {
      if |b| == 0 {
        return;
      }
      if |b| < WRITE_FLATTEN_THRESHOLD {
        SmallWrite(b);
      } else {
        if flattened != [] {
          FlattenSnoc(writeBuf.bufs, flattened);
          writeBuf.Push(flattened);
          flattened := [];
        }
        FlattenSnoc(writeBuf.bufs, b);
        writeBuf.Push(b);
      }
    }

    method WriteAll(writes: seq<Write>)
      requires Structure()
      modifies this, writeBuf
      ensures Structure() && Contents() == old(Contents()) + Flatten(ClientOps.Contents(writes))
      ensures accepted == old(accepted) && drained == old(drained)
    {
      hide Flatten;
      assert ClientOps.Contents(writes[..0]) == [];
      FlattenNone();
      for i := 0 to |writes|
        invariant Structure() && Contents() == old(Contents()) + Flatten(ClientOps.Contents(writes[..i]))
        invariant accepted == old(accepted) && drained == old(drained)
      {
        assert ClientOps.Contents(writes[..i + 1]) == ClientOps.Contents(writes[..i]) + [writes[i].bytes];
        FlattenSnoc(ClientOps.Contents(writes[..i]), writes[i].bytes);
        match writes[i] {
          case Small(b) => SmallWrite(b);
          case Whole(b) => WriteWhole(b);
        }
      }
      assert writes[..|writes|] == writes;
    }

    method EnqueueWriteOp(op: ClientOp)
      requires Valid()
      modifies this, writeBuf
      ensures Valid() && accepted == old(accepted) + [op] && drained == old(drained)
      ensures Contents() == old(Contents()) + Wire(op)
    {
      hide Writes;
      WireAllSnoc(accepted, op);
      WriteAll(Writes(op));
      accepted := accepted + [op];
    }

    /** Drops bytes from the flattened tail, clearing it when all go. */
    method AdvanceTail(n: nat)
      requires n <= |flattened|
      modifies this
      ensures flattened == old(flattened)[n..]
      ensures accepted == old(accepted) && drained == old(drained)
    {
      if n == |flattened| {
        flattened := [];
      } else {
        flattened := flattened[n..];
      }
    }

    method Advance(cnt: nat)
      requires Valid() && cnt <= |Contents()|
      modifies this, writeBuf
      ensures Valid() && accepted == old(accepted)
      ensures drained == old(drained) + old(Contents())[..cnt] && Contents() == old(Contents())[cnt..]
    {
      ghost var whole, tail := Contents(), flattened;
      var mid := if writeBuf.Remaining() < cnt then writeBuf.Remaining() else cnt;
      writeBuf.Advance(mid);
      AdvanceTail(cnt - mid);
      AdvanceParts(Flatten(old(writeBuf.bufs)), tail, cnt);
      Took(whole, cnt);
    }

    /** Records bytes that left the encoder. */
    ghost method Took(whole: Bytes, n: nat)
      requires Structure() && drained + whole == WireAll(accepted)
      requires n <= |whole| && Contents() == whole[n..]
      modifies this`drained
      ensures Valid() && drained == old(drained) + whole[..n]
    {
      assert drained + whole == drained + whole[..n] + whole[n..];
      drained := drained + whole[..n];
    }

    method CopyToBytes(n: nat) returns (taken: Bytes)
      requires Valid() && n <= |Contents()|
      modifies this, writeBuf
      ensures Valid() && accepted == old(accepted)
      ensures taken == old(Contents())[..n] && drained == old(drained) + taken && Contents() == old(Contents())[n..]
    {
      hide Flatten;
      ghost var whole := Contents();
      FlattenNone();
      if writeBuf.Remaining() >= n {
        taken := writeBuf.CopyToBytes(n);
      } else if !writeBuf.HasRemaining() {
        taken := flattened[..n];
        AdvanceTail(n);
      } else {
        var rem := n - writeBuf.Remaining();
        var chunks := writeBuf.Drain(writeBuf.Remaining());
        taken := chunks + flattened[..rem];
        AdvanceTail(rem);
        assert whole == chunks + old(flattened);
      }
      AdvanceParts(Flatten(old(writeBuf.bufs)), old(flattened), n);
      Took(whole, n);
    }

    /** Offers a prefix of the remaining bytes, whole chunks only, and at least two when the first is not all there is. */
    method ChunksVectored(slots: nat) returns (slices: seq<Bytes>)
      requires Valid()
      ensures NoneEmpty(slices) && |slices| <= slots
      ensures Flatten(slices) <= Contents()
      ensures |slices| < slots ==> Flatten(slices) == Contents()
      ensures slots >= 2 && |Chunk()| < Remaining() ==> |slices| >= 2
      ensures slots >= 1 && Remaining() > 0 ==> |slices| >= 1 && slices[0] == Chunk()
    {
      slices := writeBuf.ChunksVectored(slots);
      ghost var all := writeBuf.bufs;
      assert all == Slices(all, slots) + all[|slices|..];
      FlattenConcat(slices, all[|slices|..]);
      assert |all| == 1 ==> Flatten(all[1..]) == [];
      if |slices| < slots && flattened != [] {
        FlattenSnoc(slices, flattened);
        slices := slices + [flattened];
      }
    }
  }
}

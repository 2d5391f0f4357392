/** The transmit side of libraries/rt_drivers/drv_emac.c: gathering a pbuf chain
    into the ring buffers and handing the descriptors to the DMA. */
module EmacTx {
  import opened Arith
  import opened EmacRing

  datatype Status = EOK | ERROR

  /** rt_memcpy of `src` to offset `off` of a buffer. */
  function Put(row: seq<Byte>, off: nat, src: seq<Byte>): seq<Byte>
    requires off + |src| <= |row|
  {
    row[..off] + src + row[off + |src|..]
  }

  /** The copy has filled d buffers and the first `off` bytes of the next. */
  ghost predicate Progress(max: nat, bufs: seq<seq<Byte>>, start: nat, d: nat, off: nat, bytes: seq<Byte>) {
    && start < |bufs| && d < |bufs| && off <= max
    && Start(max, d) + off <= |bytes|
    && (forall j | 0 <= j < d :: RowCarries(max, bufs, start, j, bytes) && Chunk(max, |bytes|, j) == max)
    && var row := bufs[At(|bufs|, start, d)];
       |row| == max && row[..off] == bytes[Start(max, d)..Start(max, d) + off]
  }

  lemma ProgressStart(max: nat, bufs: seq<seq<Byte>>, start: nat, bytes: seq<Byte>)
    requires start < |bufs| && |bufs[start]| == max
    ensures Progress(max, bufs, start, 0, 0, bytes)
  {
  }

  lemma ProgressCopy(max: nat, bufs: seq<seq<Byte>>, start: nat, d: nat, off: nat, bytes: seq<Byte>, src: seq<Byte>)
    requires Progress(max, bufs, start, d, off, bytes) && off + |src| <= max
    requires Start(max, d) + off + |src| <= |bytes|
    requires src == bytes[Start(max, d) + off..Start(max, d) + off + |src|]
    ensures var x := At(|bufs|, start, d);
      Progress(max, bufs[x := Put(bufs[x], off, src)], start, d, off + |src|, bytes)
  {
    var x := At(|bufs|, start, d);
    var bufs' := bufs[x := Put(bufs[x], off, src)];
    forall j | 0 <= j < d ensures RowCarries(max, bufs', start, j, bytes) {
      assert RowCarries(max, bufs, start, j, bytes);
    }
    var s := Start(max, d);
    assert bufs'[x][..off + |src|] == bufs[x][..off] + src;
    assert bytes[s..s + off + |src|] == bytes[s..s + off] + src;
  }

  lemma ProgressAdvance(max: nat, bufs: seq<seq<Byte>>, start: nat, d: nat, bytes: seq<Byte>)
    requires Progress(max, bufs, start, d, max, bytes) && d + 1 < |bufs|
    requires |bufs[At(|bufs|, start, d + 1)]| == max
    ensures Progress(max, bufs, start, d + 1, 0, bytes)
  {
    StartStep(max, d);
  }

  lemma ProgressDone(max: nat, bufs: seq<seq<Byte>>, start: nat, d: nat, off: nat, bytes: seq<Byte>)
    requires Progress(max, bufs, start, d, off, bytes) && off > 0 && Start(max, d) + off == |bytes|
    ensures Carries(max, bufs, start, d + 1, bytes) && BufCount(max, |bytes|) == d + 1
  {
    StartStep(max, d);
    BufCountIs(max, |bytes|, d + 1);
  }

  /** More bytes than the buffers so far hold, and at most a ringful: there is
      another buffer. */
  lemma RoomAhead(n: nat, max: nat, d: nat, len: nat)
    requires len > Start(max, d) + max && len <= Start(max, n)
    ensures d + 1 < n
  {
    StartStep(max, d);
    if n <= d + 1 {
      StartMonotone(max, n, d + 1);
    }
  }

  lemma LastChunk(max: nat, len: nat, k: nat)
    requires k > 0 && Start(max, k - 1) < len <= Start(max, k)
    ensures Chunk(max, len, k - 1) == len - (k - 1) * max
  {
    StartStep(max, k - 1);
  }

  /** What chain mode makes of the j-th of k descriptors of a `len` byte frame. */
  function Sent(d: Desc, max: nat, len: nat, k: nat, j: nat): Desc {
    d.(own := true, fs := j == 0, ls := j + 1 == k,
       size := (if j + 1 == k then Chunk(max, len, j) else max) % TBS1_RANGE)
  }

  /** Exactly the k descriptors from start on were handed over, as one frame. */
  ghost predicate HandedOver(max: nat, before: seq<Desc>, after: seq<Desc>, start: nat, len: nat, k: nat) {
    && start < |before| == |after|
    && forall i | 0 <= i < |before| ::
         var j := Distance(|before|, start, i);
         after[i] == if j < k then Sent(before[i], max, len, k, j) else before[i]
  }

  /** The first m of the k descriptors have been handed over. */
  ghost predicate PartHanded(max: nat, before: seq<Desc>, after: seq<Desc>, start: nat, len: nat, k: nat, m: nat) {
    && start < |before| == |after|
    && forall i | 0 <= i < |before| ::
         var j := Distance(|before|, start, i);
         after[i] == if j < m then Sent(before[i], max, len, k, j) else before[i]
  }

  lemma HandOne(max: nat, before: seq<Desc>, after: seq<Desc>, start: nat, len: nat, k: nat, m: nat)
    requires PartHanded(max, before, after, start, len, k, m) && m < k <= |before|
    ensures var x := At(|before|, start, m);
      after[x] == before[x]
      && PartHanded(max, before, after[x := Sent(before[x], max, len, k, m)], start, len, k, m + 1)
  {
    assert Distance(|before|, start, At(|before|, start, m)) == m;
  }

  lemma LinkedUpdate(desc: seq<Desc>, x: nat, d: Desc)
    requires Linked(desc) && x < |desc| && d.next == desc[x].next && d.buf == desc[x].buf
    ensures Linked(desc[x := d])
  {
  }

  /** The k descriptors that were handed over describe exactly the frame. */
  lemma HandedOverDescribes(max: nat, before: seq<Desc>, after: seq<Desc>, bufs: seq<seq<Byte>>, start: nat, bytes: seq<Byte>, k: nat)
    requires 0 < max < TBS1_RANGE && |bytes| > 0 && k == BufCount(max, |bytes|) && k <= |before| == |bufs|
    requires HandedOver(max, before, after, start, |bytes|, k) && Linked(after) && Carries(max, bufs, start, k, bytes)
    ensures Described(after, bufs, start, k) == bytes
  {
    BufCountIs(max, |bytes|, k);
    forall j | 0 <= j < k ensures after[At(|after|, start, j)].size == Chunk(max, |bytes|, j) {
      assert Distance(|before|, start, At(|before|, start, j)) == j;
      SentSize(max, |bytes|, k, j);
    }
    LastChunk(max, |bytes|, k);
    DescribedIsPrefix(max, after, bufs, start, k, bytes);
  }

  lemma SentSize(max: nat, len: nat, k: nat, j: nat)
    requires 0 < max < TBS1_RANGE && j < k && Start(max, k - 1) < len <= Start(max, k)
    ensures (if j + 1 == k then Chunk(max, len, j) else max) % TBS1_RANGE == Chunk(max, len, j) <= max
  {
    StartStep(max, j);
    if j + 1 < k {
      StartMonotone(max, j + 1, k - 1);
    }
  }

  /** None of the k descriptors from start on belongs to the DMA. */
  ghost predicate AllFree(desc: seq<Desc>, start: nat, k: nat)
    requires start < |desc|
  {
    forall i | 0 <= i < |desc| :: Distance(|desc|, start, i) < k ==> !desc[i].own
  }

  ghost predicate Sized(max: nat, bufs: seq<seq<Byte>>) {
    forall i | 0 <= i < |bufs| :: |bufs[i]| == max
  }

  class TxRing {
    const max: nat
    const desc: array<Desc>
    const bufs: array<seq<Byte>>
    var toSet: nat

    ghost predicate Valid()
      reads this, desc, bufs
    {
      && 0 < max < TBS1_RANGE
      && desc.Length == bufs.Length > 0
      && toSet < desc.Length
      && Linked(desc[..])
      && Sized(max, bufs[..])
    }

    /** emac_dma_descriptor_list_address_set for the transmit list. */
    constructor (n: nat, max: nat)
      requires n > 0 && 0 < max < TBS1_RANGE
      ensures Valid() && fresh(desc) && fresh(bufs) && desc.Length == n && this.max == max && toSet == 0
      ensures AllFree(desc[..], 0, n)
    {
      this.max := max;
      var d := new Desc[n](i => Desc(false, false, false, 0, 0, 0));
      var b := new seq<Byte>[n](i => seq(max, _ => 0));
      desc := d;
      bufs := b;
      toSet := 0;
      var i := 0;
      while i < n
        invariant 0 <= i <= n
        invariant forall x | 0 <= x < n :: !d[x].own && |b[x]| == max
        invariant forall x | 0 <= x < i :: d[x].next == Next(n, x) && d[x].buf == x
      {
        d[i] := Desc(false, false, false, 0, if i < n - 1 then i + 1 else 0, i);
        i := i + 1;
      }
    }

    /** emac_txpkt_chainmode. */
    method ChainMode(frameLength: nat) returns (r: Status)
      requires Valid()
      modifies this`toSet, desc
      ensures Valid()
      ensures r == if old(desc[toSet].own) || frameLength == 0 then ERROR else EOK
      ensures r == ERROR ==> desc[..] == old(desc[..]) && toSet == old(toSet)
      ensures var k := BufCount(max, frameLength);
        r == EOK && k <= desc.Length ==>
          toSet == At(desc.Length, old(toSet), k)
          && HandedOver(max, old(desc[..]), desc[..], old(toSet), frameLength, k)
    {
      if desc[toSet].own {
        return ERROR;
      }
      if frameLength == 0 {
        return ERROR;
      }
      var bufCnt;
      if frameLength > max {
        bufCnt := frameLength / max;
        if frameLength % max != 0 {
          bufCnt := bufCnt + 1;
        }
      } else {
        bufCnt := 1;
      }
      ghost var before, start := desc[..], toSet;
      BufCountIs(max, frameLength, bufCnt);
      if bufCnt == 1 {
        SetOnly(frameLength);
      } else {
        var index := 0;
        while index < bufCnt
          invariant 0 <= index <= bufCnt && Valid()
          invariant bufCnt <= desc.Length ==> HandedTo(before, start, frameLength, bufCnt, index)
        {
          SetOne(frameLength, bufCnt, index, before, start);
          index := index + 1;
        }
      }
      return EOK;
    }

    /** The first m of the k descriptors from start on were handed over and the
        ring pointer stands behind them. */
    ghost predicate HandedTo(before: seq<Desc>, start: nat, len: nat, k: nat, m: nat)
      reads this, desc
    {
      && start < desc.Length && m <= desc.Length && toSet == At(desc.Length, start, m)
      && PartHanded(max, before, desc[..], start, len, k, m)
    }

    /** The branch of chain mode for a frame that fits one descriptor. */
    method SetOnly(frameLength: nat)
      requires Valid() && 0 < frameLength <= max
      modifies this`toSet, desc
      ensures Valid() && HandedTo(old(desc[..]), old(toSet), frameLength, 1, 1)
    {
      ghost var before := desc[..];
      var d := desc[toSet].(ls := true, fs := true, size := frameLength % TBS1_RANGE, own := true);
      LastChunk(max, frameLength, 1);
      LinkedUpdate(before, toSet, d);
      HandOne(max, before, before, toSet, frameLength, 1, 0);
      desc[toSet] := d;
      assert desc[..] == before[toSet := d];
      toSet := d.next;
    }

    /** The body of the chain mode loop: one descriptor of a longer frame. */
    method SetOne(frameLength: nat, bufCnt: nat, index: nat, ghost before: seq<Desc>, ghost start: nat)
      requires Valid() && 0 <= index < bufCnt
      requires Start(max, bufCnt - 1) < frameLength <= Start(max, bufCnt)
      modifies this`toSet, desc
      ensures Valid()
      ensures bufCnt <= desc.Length && old(HandedTo(before, start, frameLength, bufCnt, index)) ==>
        HandedTo(before, start, frameLength, bufCnt, index + 1)
    {
      LastChunk(max, frameLength, bufCnt);
      ghost var was := desc[..];
      var d := desc[toSet].(fs := false, ls := false);
      if index == 0 {
        d := d.(fs := true);
      }
      d := d.(size := max % TBS1_RANGE);
      if index == bufCnt - 1 {
        d := d.(ls := true, size := (frameLength - (bufCnt - 1) * max) % TBS1_RANGE);
      }
      d := d.(own := true);
      assert d == Sent(was[toSet], max, frameLength, bufCnt, index);
      LinkedUpdate(was, toSet, d);
      if bufCnt <= desc.Length && HandedTo(before, start, frameLength, bufCnt, index) {
        HandOne(max, before, was, start, frameLength, bufCnt, index);
      }
      desc[toSet] := d;
      assert desc[..] == was[toSet := d];
      toSet := desc[toSet].next;
    }

    /** rt_at32_emac_tx.  It always answers EOK, also when it drops the frame
        because a descriptor it needs is still owned by the DMA. */
    method Transmit(chain: seq<seq<Byte>>) returns (ret: Status)
      requires Valid()
      modifies this`toSet, desc, bufs
      ensures Valid()
      ensures ret == EOK
      // a buffer the DMA owns is never written
      ensures forall i | 0 <= i < desc.Length :: old(desc[i].own) ==> bufs[i] == old(bufs[i])
      ensures var bytes := Flatten(chain); var k := BufCount(max, |bytes|);
        0 < |bytes| <= Start(max, desc.Length) && AllFree(old(desc[..]), old(toSet), k) ==>
          k <= desc.Length && toSet == At(desc.Length, old(toSet), k)
          && HandedOver(max, old(desc[..]), desc[..], old(toSet), |bytes|, k)
          && Carries(max, bufs[..], old(toSet), k, bytes)
      ensures var bytes := Flatten(chain);
        |bytes| == 0 || (|bytes| <= Start(max, desc.Length) && !AllFree(old(desc[..]), old(toSet), BufCount(max, |bytes|))) ==>
          desc[..] == old(desc[..]) && toSet == old(toSet)
    {
      ghost var bytes, start, n := Flatten(chain), toSet, desc.Length;
      ghost var before, orig := desc[..], bufs[..];
      ghost var fits := 0 < |bytes| <= Start(max, n);
      ghost var d := 0;
      var length, bufferOffset, dmaTxDesc := 0, 0, toSet;
      ProgressStart(max, bufs[..], start, bytes);
      var q := 0;
      while q < |chain|
        invariant 0 <= q <= |chain| && length == |Flatten(chain[..q])|
        invariant desc[..] == before && toSet == start
        invariant CopyInv(max, before, orig, bufs[..], start, fits, bytes, d, bufferOffset, dmaTxDesc, length)
        invariant d > 0 ==> bufferOffset > 0
        invariant length > 0 ==> q > 0
        invariant fits && q > 0 ==> AllFree(before, start, d + 1)
        invariant d > 0 ==> q > 0
      {
        FlattenAt(chain, q);
        if desc[dmaTxDesc].own {
          OwnedAhead(max, desc[..], start, d, bufferOffset, bytes, fits);
          return EOK;
        }
        var ok;
        ok, dmaTxDesc, bufferOffset, d := CopyPbuf(chain[q], dmaTxDesc, bufferOffset, orig, start, fits, bytes, d, length, before);
        if !ok {
          return EOK;
        }
        length := length + |chain[q]|;
        q := q + 1;
      }
      assert chain[..q] == chain;
      if fits {
        ProgressDone(max, bufs[..], start, d, bufferOffset, bytes);
      }
      var r := ChainMode(length);
      return EOK;
    }

    /** rt_memcpy of the next bytes of the frame into a ring buffer. */
    method MemCpy(buffer: nat, off: nat, src: seq<Byte>, ghost orig: seq<seq<Byte>>, ghost start: nat,
                  ghost fits: bool, ghost bytes: seq<Byte>, ghost d: nat, ghost length: nat, ghost ds: seq<Desc>)
      requires ds == desc[..] && desc.Length == bufs.Length && off + |src| <= max
      requires Ready(max, ds, orig, bufs[..], start, fits, bytes, d, off, buffer, length)
      requires length + |src| <= |bytes| && src == bytes[length..length + |src|]
      modifies bufs
      ensures desc[..] == ds
      ensures Ready(max, ds, orig, bufs[..], start, fits, bytes, d, off + |src|, buffer, length + |src|)
    {
      ghost var was := bufs[..];
      CopyStep(max, ds, orig, was, start, fits, bytes, d, off, buffer, length, src);
      bufs[buffer] := Put(bufs[buffer], off, src);
      assert bufs[..] == was[buffer := Put(was[buffer], off, src)];
    }

    /** The body of the inner loop: fill the rest of a buffer, with bytes left to
        copy, and go on to the next descriptor if the CPU owns it. */
    method FillBuffer(buffer: nat, off: nat, src: seq<Byte>, ghost orig: seq<seq<Byte>>, ghost start: nat,
                      ghost fits: bool, ghost bytes: seq<Byte>, ghost d: nat, ghost length: nat, ghost ds: seq<Desc>)
      returns (ok: bool, dmaTxDesc: nat)
      requires 0 < max && desc.Length == bufs.Length && ds == desc[..] && Linked(ds) && off + |src| == max
      requires Ready(max, ds, orig, bufs[..], start, fits, bytes, d, off, buffer, length)
      requires length + |src| <= |bytes| && src == bytes[length..length + |src|]
      requires fits ==> length + |src| < |bytes| <= Start(max, desc.Length)
      modifies bufs
      ensures desc[..] == ds && Untouched(max, ds, orig, bufs[..])
      ensures !ok && fits ==> !AllFree(ds, start, BufCount(max, |bytes|))
      ensures ok ==> Ready(max, ds, orig, bufs[..], start, fits, bytes, d + 1, 0, dmaTxDesc, length + |src|)
    {
      MemCpy(buffer, off, src, orig, start, fits, bytes, d, length, ds);
      NextReady(max, ds, orig, bufs[..], start, fits, bytes, d, buffer, length + |src|);
      dmaTxDesc := desc[buffer].next;
      ok := !desc[dmaTxDesc].own;
    }

    /** The copy of one pbuf: the inner loop and the copy after it.  It gives up
        at the first descriptor that the DMA owns. */
    method CopyPbuf(payload: seq<Byte>, cur0: nat, off0: nat, ghost orig: seq<seq<Byte>>, ghost start: nat,
                    ghost fits: bool, ghost bytes: seq<Byte>, ghost d0: nat, ghost length0: nat, ghost ds: seq<Desc>)
      returns (ok: bool, dmaTxDesc: nat, bufferOffset: nat, ghost d: nat)
      requires Valid() && ds == desc[..] && (fits ==> 0 < |bytes| <= Start(max, desc.Length))
      requires length0 + |payload| <= |bytes| && payload == bytes[length0..length0 + |payload|]
      requires Ready(max, ds, orig, bufs[..], start, fits, bytes, d0, off0, cur0, length0)
      requires d0 > 0 ==> off0 > 0
      modifies bufs
      ensures Valid() && desc[..] == ds
      ensures Untouched(max, ds, orig, bufs[..])
      ensures !ok && fits ==> !AllFree(ds, start, BufCount(max, |bytes|))
      ensures ok ==>
        Ready(max, ds, orig, bufs[..], start, fits, bytes, d, bufferOffset, dmaTxDesc, length0 + |payload|)
        && (d > 0 ==> bufferOffset > 0)
    {
      var payloadOffset;
      ok, dmaTxDesc, bufferOffset, payloadOffset, d :=
        FillBuffers(payload, cur0, off0, orig, start, fits, bytes, d0, length0, ds);
      if ok {
        SubSlice(bytes, length0, payload, payloadOffset, |payload| - payloadOffset);
        MemCpy(desc[dmaTxDesc].buf, bufferOffset, payload[payloadOffset..payloadOffset + (|payload| - payloadOffset)],
               orig, start, fits, bytes, d, length0 + payloadOffset, ds);
        bufferOffset := bufferOffset + (|payload| - payloadOffset);
      }
    }

    /** The inner loop, up to the last bytes of the pbuf. */
    method FillBuffers(payload: seq<Byte>, cur0: nat, off0: nat, ghost orig: seq<seq<Byte>>, ghost start: nat,
                       ghost fits: bool, ghost bytes: seq<Byte>, ghost d0: nat, ghost length0: nat, ghost ds: seq<Desc>)
      returns (ok: bool, dmaTxDesc: nat, bufferOffset: nat, payloadOffset: nat, ghost d: nat)
      requires Valid() && ds == desc[..] && (fits ==> 0 < |bytes| <= Start(max, desc.Length))
      requires length0 + |payload| <= |bytes| && payload == bytes[length0..length0 + |payload|]
      requires Ready(max, ds, orig, bufs[..], start, fits, bytes, d0, off0, cur0, length0)
      requires d0 > 0 ==> off0 > 0
      modifies bufs
      ensures Valid() && desc[..] == ds
      ensures Untouched(max, ds, orig, bufs[..])
      ensures !ok && fits ==> !AllFree(ds, start, BufCount(max, |bytes|))
      ensures ok ==>
        payloadOffset <= |payload| && bufferOffset + (|payload| - payloadOffset) <= max
        && Ready(max, ds, orig, bufs[..], start, fits, bytes, d, bufferOffset, dmaTxDesc, length0 + payloadOffset)
        && (d > 0 ==> bufferOffset + (|payload| - payloadOffset) > 0)
    {
      dmaTxDesc, bufferOffset, d, payloadOffset := cur0, off0, d0, 0;
      var copyCount := |payload|;
      while copyCount + bufferOffset > max
        invariant copyCount >= 0 && copyCount + payloadOffset == |payload|
        invariant desc[..] == ds
        invariant Ready(max, ds, orig, bufs[..], start, fits, bytes, d, bufferOffset, dmaTxDesc, length0 + payloadOffset)
        invariant d > 0 ==> bufferOffset + copyCount > 0
        decreases copyCount, if bufferOffset == max then 1 else 0
      {
        var part := max - bufferOffset;
        SubSlice(bytes, length0, payload, payloadOffset, part);
        ok, dmaTxDesc := FillBuffer(desc[dmaTxDesc].buf, bufferOffset, payload[payloadOffset..payloadOffset + part],
                                    orig, start, fits, bytes, d, length0 + payloadOffset, ds);
        if !ok {
          return;
        }
        d := d + 1;
        copyCount := copyCount - part;
        payloadOffset := payloadOffset + part;
        bufferOffset := 0;
      }
      ok := true;
    }
  }

  lemma SubSlice(bytes: seq<Byte>, at: nat, payload: seq<Byte>, p: nat, c: nat)
    requires at + |payload| <= |bytes| && payload == bytes[at..at + |payload|] && p + c <= |payload|
    ensures payload[p..p + c] == bytes[at + p..at + p + c]
  {
    Slice(bytes, at, |payload|, p, c);
  }

  /** Buffers keep their size, and those the DMA owns their contents. */
  ghost predicate Untouched(max: nat, desc: seq<Desc>, orig: seq<seq<Byte>>, bufs: seq<seq<Byte>>) {
    && |desc| == |bufs| == |orig|
    && Sized(max, bufs)
    && forall i | 0 <= i < |bufs| :: desc[i].own ==> bufs[i] == orig[i]
  }

  /** The state of the copy: `length` bytes are in place, buffers the DMA owns
      are untouched, and a frame that fits the ring is laid out from start on. */
  ghost predicate CopyInv(max: nat, desc: seq<Desc>, orig: seq<seq<Byte>>, bufs: seq<seq<Byte>>, start: nat, fits: bool,
                          bytes: seq<Byte>, d: nat, off: nat, cur: nat, length: nat)
  {
    && Untouched(max, desc, orig, bufs) && start < |desc| && cur < |desc| && off <= max
    && length == Start(max, d) + off && length <= |bytes|
    && (fits ==> d < |desc| && cur == At(|desc|, start, d) && Progress(max, bufs, start, d, off, bytes))
  }

  lemma CopyStep(max: nat, desc: seq<Desc>, orig: seq<seq<Byte>>, bufs: seq<seq<Byte>>, start: nat, fits: bool,
                 bytes: seq<Byte>, d: nat, off: nat, cur: nat, length: nat, src: seq<Byte>)
    requires CopyInv(max, desc, orig, bufs, start, fits, bytes, d, off, cur, length)
    requires !desc[cur].own && off + |src| <= max
    requires length + |src| <= |bytes| && src == bytes[length..length + |src|]
    ensures CopyInv(max, desc, orig, bufs[cur := Put(bufs[cur], off, src)], start, fits, bytes, d, off + |src|, cur, length + |src|)
  {
    if fits {
      ProgressCopy(max, bufs, start, d, off, bytes, src);
    }
  }

  /** The copy may write the current buffer, and every descriptor up to it was
      found free. */
  ghost predicate Ready(max: nat, desc: seq<Desc>, orig: seq<seq<Byte>>, bufs: seq<seq<Byte>>, start: nat, fits: bool,
                        bytes: seq<Byte>, d: nat, off: nat, cur: nat, length: nat)
  {
    && CopyInv(max, desc, orig, bufs, start, fits, bytes, d, off, cur, length)
    && !desc[cur].own
    && (fits ==> AllFree(desc, start, d + 1))
  }

  /** Moving on from a full buffer with bytes left to copy. */
  lemma NextReady(max: nat, desc: seq<Desc>, orig: seq<seq<Byte>>, bufs: seq<seq<Byte>>, start: nat, fits: bool,
                  bytes: seq<Byte>, d: nat, cur: nat, length: nat)
    requires max > 0 && CopyInv(max, desc, orig, bufs, start, fits, bytes, d, max, cur, length)
    requires !desc[cur].own && (fits ==> AllFree(desc, start, d + 1))
    requires Linked(desc) && (fits ==> length < |bytes| <= Start(max, |desc|))
    ensures var cur' := desc[cur].next;
      cur' < |desc|
      && (fits && desc[cur'].own ==> !AllFree(desc, start, BufCount(max, |bytes|)))
      && (!desc[cur'].own ==> Ready(max, desc, orig, bufs, start, fits, bytes, d + 1, 0, cur', length))
  {
    StartStep(max, d);
    if fits {
      RoomAhead(|desc|, max, d, |bytes|);
      ProgressAdvance(max, bufs, start, d, bytes);
      if desc[desc[cur].next].own {
        OwnedAhead(max, desc, start, d + 1, 0, bytes, fits);
      }
    }
  }

  /** A descriptor the copy reached and may not write is one the frame needs. */
  lemma OwnedAhead(max: nat, desc: seq<Desc>, start: nat, d: nat, off: nat, bytes: seq<Byte>, fits: bool)
    requires max > 0 && start < |desc|
    requires fits ==> d < |desc| && desc[At(|desc|, start, d)].own && |bytes| > 0
    requires fits ==> Start(max, d) + off <= |bytes| && (d > 0 && off == 0 ==> Start(max, d) < |bytes|)
    ensures fits ==> !AllFree(desc, start, BufCount(max, |bytes|))
  {
    if fits {
      var k := BufCount(max, |bytes|);
      BufCountIs(max, |bytes|, k);
      if k <= d {
        StartMonotone(max, k, d);
      }
      assert Distance(|desc|, start, At(|desc|, start, d)) == d;
    }
  }
}

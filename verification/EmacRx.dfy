/** The receive side of libraries/rt_drivers/drv_emac.c: collecting the segments
    of a frame, scattering its bytes into a pbuf chain and returning the
    descriptors to the DMA. */
module EmacRx {
  import opened Arith
  import opened EmacRing
  import opened Wrappers

  datatype Status = EOK | ERROR

  /** The frame check sequence the length field counts (clause 3.2.9 of
      IEEE 802.3). */
  const FCS := 4

  function Sum(shape: seq<nat>): nat {
    if shape == [] then 0 else shape[0] + Sum(shape[1..])
  }

  lemma {:induction false} SumAppend(a: seq<nat>, b: seq<nat>)
    ensures Sum(a + b) == Sum(a) + Sum(b)
  {
    if a == [] {
      assert a + b == b;
    } else {
      assert (a + b)[1..] == a[1..] + b;
      SumAppend(a[1..], b);
    }
  }

  lemma SumAt(shape: seq<nat>, q: nat)
    requires q < |shape|
    ensures Sum(shape[..q + 1]) == Sum(shape[..q]) + shape[q] <= Sum(shape)
  {
    assert shape == shape[..q] + [shape[q]] + shape[q + 1..];
    SumAppend(shape[..q] + [shape[q]], shape[q + 1..]);
    SumAppend(shape[..q], [shape[q]]);
    assert shape[..q + 1] == shape[..q] + [shape[q]];
  }

  /** The k descriptors from start on hold one received frame, check sequence
      included, and belong to the CPU. */
  ghost predicate FrameAt(max: nat, desc: seq<Desc>, bufs: seq<seq<Byte>>, start: nat, k: nat, frame: seq<Byte>) {
    && start < |desc| == |bufs| && 1 <= k <= |desc|
    && FCS <= |frame| < FL_RANGE
    && Start(max, k - 1) < |frame| <= Start(max, k)
    && Carries(max, bufs, start, k, frame)
    && desc[At(|desc|, start, k - 1)].size == |frame|
    && forall i | 0 <= i < |desc| ::
         var j := Distance(|desc|, start, i);
         j < k ==> !desc[i].own && desc[i].fs == (j == 0) && desc[i].ls == (j + 1 == k)
  }

  /** The first m descriptors from start on went back to the DMA; nothing else
      changed. */
  ghost predicate HandedBack(before: seq<Desc>, after: seq<Desc>, start: nat, m: nat) {
    && start < |before| == |after|
    && forall i | 0 <= i < |before| ::
         after[i] == if Distance(|before|, start, i) < m then before[i].(own := true) else before[i]
  }

  lemma HandBackOne(before: seq<Desc>, after: seq<Desc>, start: nat, m: nat)
    requires HandedBack(before, after, start, m) && m < |before| && Linked(after)
    ensures var x := At(|before|, start, m);
      var next := after[x := after[x].(own := true)];
      HandedBack(before, next, start, m + 1) && Linked(next)
  {
    assert Distance(|before|, start, At(|before|, start, m)) == m;
  }

  /** The state of the copy out: where it stands in the ring and, for a good
      frame, which bytes it has read. */
  ghost predicate Reading(max: nat, n: nat, bufs: seq<seq<Byte>>, start: nat, k: nat, frame: seq<Byte>, good: bool,
                          d: nat, off: nat, cur: nat, out: seq<Byte>)
  {
    && |bufs| == n && cur < n && off <= max
    && (good ==>
          start < n && k <= n && d < k && cur == At(n, start, d)
          && Start(max, d) + off <= |frame| <= Start(max, k) && out == frame[..Start(max, d) + off])
  }

  lemma ReadStep(max: nat, n: nat, bufs: seq<seq<Byte>>, start: nat, k: nat, frame: seq<Byte>, good: bool,
                 d: nat, off: nat, cur: nat, out: seq<Byte>, c: nat)
    requires Reading(max, n, bufs, start, k, frame, good, d, off, cur, out)
    requires |bufs[cur]| == max && off + c <= max
    requires good ==> Carries(max, bufs, start, k, frame) && Start(max, d) + off + c <= |frame|
    ensures Reading(max, n, bufs, start, k, frame, good, d, off + c, cur, out + bufs[cur][off..off + c])
  {
    if good {
      assert RowCarries(max, bufs, start, d, frame);
      var s, h := Start(max, d), Chunk(max, |frame|, d);
      Slice(bufs[cur], 0, h, off, c);
      Slice(frame, s, h, off, c);
      assert bufs[cur][0..h] == bufs[cur][..h];
      assert frame[..s + off] + frame[s + off..s + off + c] == frame[..s + off + c];
    }
  }

  lemma ReadAdvance(max: nat, n: nat, bufs: seq<seq<Byte>>, start: nat, k: nat, frame: seq<Byte>, good: bool,
                    d: nat, cur: nat, out: seq<Byte>)
    requires Reading(max, n, bufs, start, k, frame, good, d, max, cur, out)
    requires good ==> Start(max, d) + max < |frame|
    ensures Reading(max, n, bufs, start, k, frame, good, d + 1, 0, Next(n, cur), out)
  {
    StartStep(max, d);
  }

  /** pbuf_alloc, as a function of the length: no memory, or a chain of pbufs of
      any lengths that add up. */
  ghost predicate Allocates(pbufAlloc: nat -> Option<seq<nat>>) {
    forall len :: pbufAlloc(len).Some? ==> Sum(pbufAlloc(len).value) == len
  }

  /** The chain has pbufs of the given lengths. */
  predicate Shaped(chain: seq<seq<Byte>>, shape: seq<nat>) {
    |chain| == |shape| && forall q | 0 <= q < |chain| :: |chain[q]| == shape[q]
  }

  class RxRing {
    const max: nat
    const desc: array<Desc>
    const bufs: array<seq<Byte>>
    /** dma_rx_desc_to_get and the fields of rx_frame. */
    var toGet: nat
    var segCount: nat
    var fsDesc: nat
    var lsDesc: Option<nat>
    var length: nat
    var buffer: nat

    ghost predicate Valid()
      reads this, desc, bufs
    {
      && 0 < max < TBS1_RANGE
      && desc.Length == bufs.Length && 0 < desc.Length < 0x100
      && toGet < desc.Length && fsDesc < desc.Length
      && Linked(desc[..])
      && forall i | 0 <= i < bufs.Length :: |bufs[i]| == max
    }

    /** A frame of k segments lies in the ring and j of them were collected. */
    ghost predicate Collected(start: nat, k: nat, j: nat, frame: seq<Byte>)
      reads this, desc, bufs
    {
      && FrameAt(max, desc[..], bufs[..], start, k, frame)
      && j < k && toGet == At(desc.Length, start, j)
      && segCount == j && (j > 0 ==> fsDesc == start)
    }

    /** emac_dma_descriptor_list_address_set for the receive list. */
    constructor (n: nat, max: nat)
      requires 0 < n < 0x100 && 0 < max < TBS1_RANGE
      ensures Valid() && fresh(desc) && fresh(bufs) && desc.Length == n && this.max == max
      ensures toGet == 0 && segCount == 0 && forall i | 0 <= i < n :: desc[i].own
    {
      this.max := max;
      var d := new Desc[n](i => Desc(true, false, false, 0, 0, 0));
      var b := new seq<Byte>[n](i => seq(max, _ => 0));
      desc := d;
      bufs := b;
      toGet, segCount, fsDesc, lsDesc, length, buffer := 0, 0, 0, None, 0, 0;
      var i := 0;
      while i < n
        invariant 0 <= i <= n
        invariant forall x | 0 <= x < n :: d[x].own && |b[x]| == max
        invariant forall x | 0 <= x < i :: d[x].next == Next(n, x) && d[x].buf == x
      {
        d[i] := Desc(true, false, false, 0, if i < n - 1 then i + 1 else 0, i);
        i := i + 1;
      }
    }

    /** emac_rxpkt_chainmode: look at one segment. */
    method ChainMode() returns (r: Status)
      requires Valid()
      modifies this
      ensures Valid()
      ensures var d := old(desc[toGet]);
        if d.own then
          r == ERROR && toGet == old(toGet) && segCount == old(segCount) && fsDesc == old(fsDesc)
        else
          r == (if d.ls then EOK else ERROR) && toGet == Next(desc.Length, old(toGet))
          && segCount == (if d.fs && !d.ls then 1 else (old(segCount) + 1) % 0x100)
          && fsDesc == (if (d.fs && !d.ls) || (d.ls && segCount == 1) then old(toGet) else old(fsDesc))
          && (d.ls ==> length == (d.size - FCS) % 0x1_0000_0000 && buffer == fsDesc)
    {
      var d := desc[toGet];
      if d.own {
        return ERROR;
      }
      if d.ls {
        segCount := (segCount + 1) % 0x100;
        if segCount == 1 {
          fsDesc := toGet;
        }
        lsDesc := Some(toGet);
        length := (d.size - FCS) % 0x1_0000_0000;
        buffer := desc[fsDesc].buf;
        toGet := d.next;
        return EOK;
      } else if d.fs {
        segCount := 1;
        fsDesc := toGet;
        lsDesc := None;
        toGet := d.next;
      } else {
        segCount := (segCount + 1) % 0x100;
        toGet := d.next;
      }
      return ERROR;
    }

    /** rt_at32_emac_rx.  The ghost arguments name a frame in the ring; what is
        promised about frames holds for every one that is there. */
    method Receive(pbufAlloc: nat -> Option<seq<nat>>, ghost start: nat, ghost k: nat, ghost j: nat, ghost frame: seq<Byte>)
      returns (p: Option<seq<seq<Byte>>>)
      requires Valid() && Allocates(pbufAlloc)
      modifies this, desc
      ensures Valid()
      ensures old(desc[toGet].own) ==>
        p == None && desc[..] == old(desc[..]) && toGet == old(toGet) && segCount == old(segCount)
      ensures p.Some? ==> !old(desc[toGet].own) && old(desc[toGet].ls)
      ensures old(Collected(start, k, j, frame)) && j + 1 < k ==>
        p == None && desc[..] == old(desc[..]) && Collected(start, k, j + 1, frame)
      ensures old(Collected(start, k, j, frame)) && j + 1 == k ==>
        segCount == 0 && toGet == At(desc.Length, start, k)
        && HandedBack(old(desc[..]), desc[..], start, k)
        && (p.Some? <==> |frame| > FCS && pbufAlloc(|frame| - FCS).Some?)
        && (p.Some? ==> Flatten(p.value) == frame[..|frame| - FCS] && Shaped(p.value, pbufAlloc(|frame| - FCS).value))
    {
      ghost var good := Collected(start, k, j, frame) && j + 1 == k;
      var r := Collect(start, k, j, frame);
      if r != EOK {
        return None;
      }
      var len := length % 0x1_0000;
      p := None;
      if len > 0 {
        var shape := pbufAlloc(len);
        if shape.Some? {
          var chain := CopyOut(shape.value, start, k, frame, good);
          p := Some(chain);
        }
      }
      HandBack(start, k, good);
    }

    /** Chain mode on a segment of a frame that lies in the ring. */
    method Collect(ghost start: nat, ghost k: nat, ghost j: nat, ghost frame: seq<Byte>) returns (r: Status)
      requires Valid()
      modifies this
      ensures Valid() && (r == EOK ==> buffer == fsDesc)
      ensures r == EOK <==> !old(desc[toGet].own) && old(desc[toGet].ls)
      ensures old(desc[toGet].own) ==> toGet == old(toGet) && segCount == old(segCount)
      ensures old(Collected(start, k, j, frame)) && j + 1 < k ==> r == ERROR && Collected(start, k, j + 1, frame)
      ensures old(Collected(start, k, j, frame)) && j + 1 == k ==>
        r == EOK && length == |frame| - FCS && fsDesc == start && segCount == k && toGet == At(desc.Length, start, k)
    {
      if Collected(start, k, j, frame) {
        assert Distance(desc.Length, start, toGet) == j;
      }
      r := ChainMode();
    }

    /** The copy from the ring into pbufs of the given lengths. */
    method CopyOut(shape: seq<nat>, ghost start: nat, ghost k: nat, ghost frame: seq<Byte>, ghost good: bool)
      returns (chain: seq<seq<Byte>>)
      requires Valid() && buffer == fsDesc
      requires good ==> FrameAt(max, desc[..], bufs[..], start, k, frame) && fsDesc == start && Sum(shape) == |frame| - FCS
      ensures Shaped(chain, shape)
      ensures good ==> Flatten(chain) == frame[..Sum(shape)]
    {
      chain := [];
      var dmaRxDesc, bufferOffset := fsDesc, 0;
      ghost var d := 0;
      var q := 0;
      while q < |shape|
        invariant 0 <= q <= |shape| && Shaped(chain, shape[..q])
        invariant Reading(max, desc.Length, bufs[..], start, k, frame, good, d, bufferOffset, dmaRxDesc, Flatten(chain))
        invariant good ==> Start(max, d) + bufferOffset == Sum(shape[..q])
      {
        SumAt(shape, q);
        var payload;
        payload, dmaRxDesc, bufferOffset, d := FillPbuf(shape[q], dmaRxDesc, bufferOffset, start, k, frame, good, d, Flatten(chain));
        FlattenAppend(chain, [payload]);
        assert Flatten([payload]) == payload;
        chain := chain + [payload];
        q := q + 1;
      }
      assert shape[..q] == shape;
    }

    /** The copy into one pbuf. */
    method FillPbuf(count: nat, cur0: nat, off0: nat, ghost start: nat, ghost k: nat, ghost frame: seq<Byte>, ghost good: bool,
                    ghost d0: nat, ghost out: seq<Byte>)
      returns (payload: seq<Byte>, dmaRxDesc: nat, bufferOffset: nat, ghost d: nat)
      requires Valid()
      requires Reading(max, desc.Length, bufs[..], start, k, frame, good, d0, off0, cur0, out)
      requires good ==> Carries(max, bufs[..], start, k, frame) && Start(max, d0) + off0 + count + FCS <= |frame|
      ensures |payload| == count
      ensures Reading(max, desc.Length, bufs[..], start, k, frame, good, d, bufferOffset, dmaRxDesc, out + payload)
      ensures good ==> Start(max, d) + bufferOffset == Start(max, d0) + off0 + count
    {
      payload, dmaRxDesc, bufferOffset, d := [], cur0, off0, d0;
      assert out + payload == out;
      var copyCount := count;
      var from := desc[dmaRxDesc].buf;
      while copyCount + bufferOffset > max
        invariant 0 <= copyCount <= count && |payload| == count - copyCount && from == dmaRxDesc
        invariant Reading(max, desc.Length, bufs[..], start, k, frame, good, d, bufferOffset, dmaRxDesc, out + payload)
        invariant good ==> Start(max, d) + bufferOffset + copyCount == Start(max, d0) + off0 + count
        decreases copyCount, if bufferOffset == max then 1 else 0
      {
        var part := bufs[from][bufferOffset..max];
        ReadStep(max, desc.Length, bufs[..], start, k, frame, good, d, bufferOffset, dmaRxDesc, out + payload, max - bufferOffset);
        assert out + payload + part == out + (payload + part);
        ReadAdvance(max, desc.Length, bufs[..], start, k, frame, good, d, dmaRxDesc, out + (payload + part));
        StartStep(max, d);
        payload := payload + part;
        copyCount := copyCount - (max - bufferOffset);
        bufferOffset := 0;
        dmaRxDesc := desc[dmaRxDesc].next;
        from := desc[dmaRxDesc].buf;
        d := d + 1;
      }
      var part := bufs[from][bufferOffset..bufferOffset + copyCount];
      ReadStep(max, desc.Length, bufs[..], start, k, frame, good, d, bufferOffset, dmaRxDesc, out + payload, copyCount);
      assert out + payload + part == out + (payload + part);
      payload := payload + part;
      bufferOffset := bufferOffset + copyCount;
    }

    /** The loop that returns the collected segments to the DMA. */
    method HandBack(ghost start: nat, ghost k: nat, ghost good: bool)
      requires Valid()
      requires good ==> fsDesc == start && segCount == k && k <= desc.Length
      modifies this`segCount, desc
      ensures Valid() && segCount == 0
      ensures good ==> HandedBack(old(desc[..]), desc[..], start, k)
    {
      var dmaRxDesc, index := fsDesc, 0;
      ghost var before, n := desc[..], desc.Length;
      while index < segCount
        invariant 0 <= index <= segCount && segCount == old(segCount) && 0 <= dmaRxDesc < n && Linked(desc[..])
        invariant good ==> dmaRxDesc == At(n, start, index) && HandedBack(before, desc[..], start, index)
      {
        ghost var was := desc[..];
        if good {
          HandBackOne(before, was, start, index);
        }
        desc[dmaRxDesc] := desc[dmaRxDesc].(own := true);
        assert desc[..] == was[dmaRxDesc := was[dmaRxDesc].(own := true)];
        dmaRxDesc := desc[dmaRxDesc].next;
        index := index + 1;
      }
      segCount := 0;
    }
  }
}

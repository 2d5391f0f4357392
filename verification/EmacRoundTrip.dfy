/** The two sides of libraries/rt_drivers/drv_emac.c back to back: the DMA engine
    and the wire move what the transmit descriptors describe, with a frame check
    sequence, into the receive ring. */
module EmacRoundTrip {
  import opened Arith
  import opened EmacRing
  import opened Wrappers
  import Tx = EmacTx
  import Rx = EmacRx

  /** The engine has laid the first m of k segments of the frame into the ring. */
  ghost predicate Laid(max: nat, desc: seq<Desc>, bufs: seq<seq<Byte>>, start: nat, k: nat, m: nat, frame: seq<Byte>) {
    && start < |desc| == |bufs| && m <= k <= |desc|
    && Carries(max, bufs, start, m, frame)
    && forall j | 0 <= j < m ::
         var d := desc[At(|desc|, start, j)];
         !d.own && d.fs == (j == 0) && d.ls == (j + 1 == k) && (j + 1 == k ==> d.size == |frame|)
  }

  lemma LayOne(max: nat, desc: seq<Desc>, bufs: seq<seq<Byte>>, start: nat, k: nat, m: nat, frame: seq<Byte>, d: Desc, row: seq<Byte>)
    requires Laid(max, desc, bufs, start, k, m, frame) && m < k
    requires !d.own && d.fs == (m == 0) && d.ls == (m + 1 == k) && (m + 1 == k ==> d.size == |frame|)
    requires var x := At(|desc|, start, m); RowCarries(max, bufs[x := row], start, m, frame)
    ensures var x := At(|desc|, start, m);
      Laid(max, desc[x := d], bufs[x := row], start, k, m + 1, frame)
  {
    var x := At(|desc|, start, m);
    var bufs' := bufs[x := row];
    forall j | 0 <= j < m + 1 ensures RowCarries(max, bufs', start, j, frame) {
      if j < m {
        assert RowCarries(max, bufs, start, j, frame);
      }
    }
  }

  lemma LaidIsFrame(max: nat, desc: seq<Desc>, bufs: seq<seq<Byte>>, start: nat, k: nat, frame: seq<Byte>)
    requires max > 0 && Laid(max, desc, bufs, start, k, k, frame)
    requires Rx.FCS <= |frame| < FL_RANGE && k == BufCount(max, |frame|)
    ensures Rx.FrameAt(max, desc, bufs, start, k, frame)
  {
    BufCountIs(max, |frame|, k);
    forall i | 0 <= i < |desc| && Distance(|desc|, start, i) < k
      ensures var j := Distance(|desc|, start, i);
        !desc[i].own && desc[i].fs == (j == 0) && desc[i].ls == (j + 1 == k)
    {
      var j := Distance(|desc|, start, i);
      assert At(|desc|, start, j) == i;
    }
  }

  /** A ring of n buffers can receive a payload exactly when the check sequence
      fits too, so the last lengths a ring of the same size can transmit are
      too long for it to receive. */
  lemma ReceivableIff(n: nat, max: nat, payload: nat)
    requires max > 0 && n > 0
    ensures BufCount(max, payload + Rx.FCS) <= n <==> payload + Rx.FCS <= Start(max, n)
  {
    var k := BufCount(max, payload + Rx.FCS);
    BufCountIs(max, payload + Rx.FCS, k);
    if k <= n {
      StartMonotone(max, k, n);
    } else {
      StartMonotone(max, n, k - 1);
    }
  }

  /** A frame arrives: the engine fills the next descriptors, MAX bytes each, marks
      the first and the last and writes the length into the last.  Nothing below
      depends on who owned them before. */
  method Deliver(rx: Rx.RxRing, frame: seq<Byte>)
    requires rx.Valid() && Rx.FCS <= |frame| < FL_RANGE && |frame| <= Start(rx.max, rx.desc.Length)
    modifies rx.desc, rx.bufs
    ensures rx.Valid() && BufCount(rx.max, |frame|) <= rx.desc.Length
    ensures Rx.FrameAt(rx.max, rx.desc[..], rx.bufs[..], rx.toGet, BufCount(rx.max, |frame|), frame)
  {
    var max, start, n, k := rx.max, rx.toGet, rx.desc.Length, BufCount(rx.max, |frame|);
    BufCountIs(max, |frame|, k);
    if n < k {
      StartMonotone(max, n, k - 1);
    }
    var x, j := start, 0;
    while j < k
      invariant 0 <= j <= k <= n && x == At(n, start, j) && rx.Valid()
      invariant Laid(max, rx.desc[..], rx.bufs[..], start, k, j, frame)
    {
      StartStep(max, j);
      StartMonotone(max, j, k - 1);
      var at, c := j * max, Chunk(max, |frame|, j);
      var row := frame[at..at + c] + rx.bufs[x][c..];
      var d := rx.desc[x].(own := false, fs := j == 0, ls := j + 1 == k, size := if j + 1 == k then |frame| else 0);
      ghost var desc0, bufs0 := rx.desc[..], rx.bufs[..];
      assert row[..c] == frame[at..at + c];
      LayOne(max, desc0, bufs0, start, k, j, frame, d, row);
      rx.desc[x] := d;
      rx.bufs[x] := row;
      assert rx.desc[..] == desc0[x := d] && rx.bufs[..] == bufs0[x := row];
      x := rx.desc[x].next;
      j := j + 1;
    }
    LaidIsFrame(max, rx.desc[..], rx.bufs[..], start, k, frame);
  }

  /** Receive once for each segment of a frame that lies in the ring. */
  method Poll(rx: Rx.RxRing, frame: seq<Byte>, pbufAlloc: nat -> Option<seq<nat>>) returns (p: Option<seq<seq<Byte>>>)
    requires rx.Valid() && rx.segCount == 0 && Rx.Allocates(pbufAlloc) && BufCount(rx.max, |frame|) <= rx.desc.Length
    requires Rx.FrameAt(rx.max, rx.desc[..], rx.bufs[..], rx.toGet, BufCount(rx.max, |frame|), frame)
    modifies rx, rx.desc
    ensures rx.Valid() && rx.segCount == 0
    ensures p.Some? <==> |frame| > Rx.FCS && pbufAlloc(|frame| - Rx.FCS).Some?
    ensures p.Some? ==>
      Flatten(p.value) == frame[..|frame| - Rx.FCS] && Rx.Shaped(p.value, pbufAlloc(|frame| - Rx.FCS).value)
    ensures var k := BufCount(rx.max, |frame|);
      rx.toGet == At(rx.desc.Length, old(rx.toGet), k)
      && Rx.HandedBack(old(rx.desc[..]), rx.desc[..], old(rx.toGet), k)
  {
    var start, k := rx.toGet, BufCount(rx.max, |frame|);
    ghost var before := rx.desc[..];
    p := None;
    var j := 0;
    while j < k - 1
      invariant 0 <= j < k && rx.Valid() && rx.desc[..] == before
      invariant rx.Collected(start, k, j, frame)
    {
      p := rx.Receive(pbufAlloc, start, k, j, frame);
      j := j + 1;
    }
    p := rx.Receive(pbufAlloc, start, k, j, frame);
  }

  /** Transmit a pbuf chain, let the engine and the wire carry it with a check
      sequence appended, and poll the receive side once per segment: the pbuf
      chain that comes out holds the same bytes, however either side splits
      them, and all segments are back with the DMA. */
  method RoundTrip(tx: Tx.TxRing, rx: Rx.RxRing, chain: seq<seq<Byte>>, fcs: seq<Byte>, pbufAlloc: nat -> Option<seq<nat>>)
    returns (p: Option<seq<seq<Byte>>>)
    requires tx.Valid() && rx.Valid() && tx.desc != rx.desc && tx.bufs != rx.bufs
    requires |fcs| == Rx.FCS && rx.segCount == 0 && Rx.Allocates(pbufAlloc)
    requires 0 < |Flatten(chain)| <= Start(tx.max, tx.desc.Length)
    requires Tx.AllFree(tx.desc[..], tx.toSet, BufCount(tx.max, |Flatten(chain)|))
    requires |Flatten(chain)| + Rx.FCS < FL_RANGE && |Flatten(chain)| + Rx.FCS <= Start(rx.max, rx.desc.Length)
    modifies tx, tx.desc, tx.bufs, rx, rx.desc, rx.bufs
    ensures tx.Valid() && rx.Valid() && rx.segCount == 0
    ensures p.Some? <==> pbufAlloc(|Flatten(chain)|).Some?
    ensures p.Some? ==> Flatten(p.value) == Flatten(chain) && Rx.Shaped(p.value, pbufAlloc(|Flatten(chain)|).value)
    ensures var k := BufCount(rx.max, |Flatten(chain)| + Rx.FCS);
      k <= rx.desc.Length && rx.toGet == At(rx.desc.Length, old(rx.toGet), k)
      && forall i | 0 <= i < rx.desc.Length :: Distance(rx.desc.Length, old(rx.toGet), i) < k ==> rx.desc[i].own
  {
    var first, sent := tx.toSet, BufCount(tx.max, |Flatten(chain)|);
    ghost var txBefore := tx.desc[..];
    var r := tx.Transmit(chain);
    var wire := Described(tx.desc[..], tx.bufs[..], first, sent);
    Tx.HandedOverDescribes(tx.max, txBefore, tx.desc[..], tx.bufs[..], first, Flatten(chain), sent);
    var frame := wire + fcs;
    Deliver(rx, frame);
    p := Poll(rx, frame, pbufAlloc);
    assert frame[..|frame| - Rx.FCS] == wire;
  }
}

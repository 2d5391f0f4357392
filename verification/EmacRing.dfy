/** What the transmit and receive sides of libraries/rt_drivers/drv_emac.c share:
    a ring of descriptors, each with one fixed-size buffer, and frames laid over
    consecutive buffers. */
module EmacRing {
  import opened Arith

  type Byte = bv8

  /** A DMA descriptor.  `size` is the low 13 bits of controlsize on the transmit
      side and the frame length field on the receive side; `next` and `buf` are
      buf2nextdescaddr and buf1addr, as indices. */
  datatype Desc = Desc(own: bool, fs: bool, ls: bool, size: nat, next: nat, buf: nat)

  /** The masks of the two length fields: 13 and 14 bits. */
  const TBS1_RANGE := 0x2000
  const FL_RANGE := 0x4000

  /** The bytes of a pbuf chain. */
  function Flatten(chain: seq<seq<Byte>>): seq<Byte> {
    if chain == [] then [] else chain[0] + Flatten(chain[1..])
  }

  lemma {:induction false} FlattenAppend(c: seq<seq<Byte>>, d: seq<seq<Byte>>)
    ensures Flatten(c + d) == Flatten(c) + Flatten(d)
  {
    if c == [] {
      assert c + d == d;
    } else {
      assert (c + d)[1..] == c[1..] + d;
      FlattenAppend(c[1..], d);
    }
  }

  /** The pbuf after the first i starts where the first i end. */
  lemma FlattenAt(chain: seq<seq<Byte>>, i: nat)
    requires i < |chain|
    ensures var before := Flatten(chain[..i]); var all := Flatten(chain);
      |before| + |chain[i]| <= |all|
      && all[|before|..|before| + |chain[i]|] == chain[i]
      && Flatten(chain[..i + 1]) == before + chain[i]
  {
    assert chain == chain[..i] + ([chain[i]] + chain[i + 1..]);
    FlattenAppend(chain[..i], [chain[i]] + chain[i + 1..]);
    FlattenAppend([chain[i]], chain[i + 1..]);
    assert chain[..i + 1] == chain[..i] + [chain[i]];
    FlattenAppend(chain[..i], [chain[i]]);
    assert Flatten([chain[i]]) == chain[i];
  }

  lemma Slice(s: seq<Byte>, a: nat, len: nat, p: nat, c: nat)
    requires a + len <= |s| && p + c <= len
    ensures s[a..a + len][p..p + c] == s[a + p..a + p + c]
  {
    var whole := s[a..a + len];
    var part := whole[p..p + c];
    forall i | 0 <= i < c ensures part[i] == s[a + p + i] {
      assert part[i] == whole[p + i];
    }
  }

  // ----- positions in a ring of n -----

  /** How many places i lies after start. */
  function Distance(n: nat, start: nat, i: nat): (j: nat)
    requires start < n && i < n
    ensures j < n && At(n, start, j) == i
  {
    if i >= start then i - start else i + n - start
  }

  function Next(n: nat, i: nat): nat
    requires i < n
  {
    if i + 1 < n then i + 1 else 0
  }

  /** The descriptor list is linked as the driver's set-up leaves it. */
  ghost predicate Linked(desc: seq<Desc>) {
    forall i | 0 <= i < |desc| :: desc[i].next == Next(|desc|, i) && desc[i].buf == i
  }

  // ----- a frame over consecutive buffers -----

  /** Where buffer j of a frame starts. */
  function Start(max: nat, j: nat): nat {
    j * max
  }

  lemma StartStep(max: nat, j: nat)
    ensures Start(max, j + 1) == Start(max, j) + max
  {
  }

  lemma StartMonotone(max: nat, i: nat, j: nat)
    requires i <= j
    ensures Start(max, i) <= Start(max, j)
  {
    assert (j - i) * max >= 0;
    assert j * max == i * max + (j - i) * max;
  }

  /** How many bytes of a frame of `len` bytes buffer j takes. */
  function Chunk(max: nat, len: nat, j: nat): nat {
    if len <= Start(max, j) then 0
    else if len - Start(max, j) < max then len - Start(max, j) else max
  }

  /** emac_txpkt_chainmode's buf_cnt. */
  function BufCount(max: nat, len: nat): nat
    requires max > 0
  {
    if len > max then len / max + (if len % max != 0 then 1 else 0) else 1
  }

  /** k buffers are needed exactly when the first k-1 are too few and k do. */
  lemma BufCountIs(max: nat, len: nat, k: nat)
    requires max > 0 && len > 0
    ensures BufCount(max, len) == k <==> k > 0 && Start(max, k - 1) < len <= Start(max, k)
  {
    var b := BufCount(max, len);
    assert len == (len / max) * max + len % max;
    if len % max != 0 || len <= max {
      assert Start(max, b - 1) < len <= Start(max, b);
    } else {
      assert Start(max, b) == len;
      StartStep(max, b - 1);
    }
    if 0 < k && k != b && Start(max, k - 1) < len <= Start(max, k) {
      if k < b {
        StartMonotone(max, k, b - 1);
      } else {
        StartMonotone(max, b, k - 1);
      }
    }
  }

  /** Buffer j of the frame holds its part of the bytes. */
  ghost predicate RowCarries(max: nat, bufs: seq<seq<Byte>>, start: nat, j: nat, bytes: seq<Byte>)
    requires start < |bufs| && j <= |bufs|
  {
    var row := bufs[At(|bufs|, start, j)];
    var c := Chunk(max, |bytes|, j);
    |row| == max && c <= max && Start(max, j) + c <= |bytes| &&
    row[..c] == bytes[Start(max, j)..Start(max, j) + c]
  }

  /** The first k buffers from start on hold the bytes in order. */
  ghost predicate Carries(max: nat, bufs: seq<seq<Byte>>, start: nat, k: nat, bytes: seq<Byte>)
    requires start < |bufs| && k <= |bufs|
  {
    forall j | 0 <= j < k :: RowCarries(max, bufs, start, j, bytes)
  }

  // ----- what the DMA engine sees -----

  /** The bytes that k descriptors from start on describe. */
  function Described(desc: seq<Desc>, bufs: seq<seq<Byte>>, start: nat, k: nat): seq<Byte>
    requires start < |desc| == |bufs| && k <= |desc|
  {
    if k == 0 then []
    else
      var d := desc[At(|desc|, start, k - 1)];
      Described(desc, bufs, start, k - 1)
      + (if d.buf < |bufs| && d.size <= |bufs[d.buf]| then bufs[d.buf][..d.size] else [])
  }

  lemma {:induction false} DescribedIsPrefix(max: nat, desc: seq<Desc>, bufs: seq<seq<Byte>>, start: nat, k: nat, bytes: seq<Byte>)
    requires start < |desc| == |bufs| && k <= |desc| && Linked(desc) && Carries(max, bufs, start, k, bytes)
    requires k > 0 ==> Start(max, k - 1) < |bytes|
    requires forall j | 0 <= j < k :: desc[At(|desc|, start, j)].size == Chunk(max, |bytes|, j)
    ensures k > 0 ==> Described(desc, bufs, start, k) == bytes[..Start(max, k - 1) + Chunk(max, |bytes|, k - 1)]
  {
    if k > 1 {
      StartStep(max, k - 2);
      DescribedIsPrefix(max, desc, bufs, start, k - 1, bytes);
    }
    if k > 0 {
      assert RowCarries(max, bufs, start, k - 1, bytes);
      assert Described(desc, bufs, start, k - 1) == bytes[..Start(max, k - 1)];
    }
  }
}

/** The ring buffer in front of the circular DMA buffer of a UART:
    rt-thread/components/drivers/ipc/ringbuffer.c with the write index update of
    dev_serial_v2.c. */
module SerialRing {
  import opened Arith

  /** A full ring and an empty one have the same indices; the mirror bits differ. */
  datatype Ring = Ring(size: nat, ri: nat, rm: bool, wi: nat, wm: bool)
  {
    predicate Valid() {
      && (ri < size || ri == 0)
      && (wi < size || wi == 0)
    }

    predicate Empty() {
      ri == wi && rm == wm
    }
  }

  /** rt_ringbuffer_data_len. */
  function DataLen(r: Ring): (n: nat)
    requires r.Valid()
    ensures n <= r.size
  {
    if r.ri == r.wi then
      if r.rm == r.wm then 0 else r.size
    else
      if r.wi > r.ri then r.wi - r.ri else r.size - (r.ri - r.wi)
  }

  /** rt_serial_update_write_index; `length` is the 16-bit parameter. */
  function UpdateWrite(r: Ring, length: nat): (r': Ring)
    requires r.Valid()
    ensures r'.Valid() && r'.size == r.size
  {
    var space := r.size - DataLen(r);
    var len := if length > r.size then r.size else length;
    if r.size - r.wi > len then
      var wi := r.wi + len;
      r.(wi := wi, ri := if len > space then wi else r.ri)
    else
      var wi := len - (r.size - r.wi);
      if len > space then
        r.(wm := !r.wm, wi := wi, rm := if wi <= r.ri then !r.rm else r.rm, ri := wi)
      else
        r.(wm := !r.wm, wi := wi)
  }

  /** rt_ringbuffer_peek: the place and length of a linear piece. */
  datatype Piece = Piece(ring: Ring, start: nat, size: nat)

  function Peek(r: Ring): (p: Piece)
    requires r.Valid()
    ensures p.ring.Valid() && p.ring.size == r.size && p.start + p.size <= r.size
  {
    var size := DataLen(r);
    if size == 0 then Piece(r, 0, 0)
    else if r.size - r.ri > size then Piece(r.(ri := r.ri + size), r.ri, size)
    else Piece(r.(rm := !r.rm, ri := 0), r.ri, r.size - r.ri)
  }

  /** The n elements from place a on, going around at the end of the buffer. */
  function Walk<T>(buf: seq<T>, a: nat, n: nat): (w: seq<T>)
    requires a < |buf| && n <= |buf|
  {
    seq(n, k requires 0 <= k < n => buf[At(|buf|, a, k)])
  }

  lemma WalkSplit<T>(buf: seq<T>, a: nat, u: nat, n: nat)
    requires a < |buf| && n <= u <= |buf|
    ensures Walk(buf, a, n) == Walk(buf, a, u)[..n]
    ensures Walk(buf, At(|buf|, a, n), u - n) == Walk(buf, a, u)[n..]
  {
  }

  lemma WalkStore<T>(buf: seq<T>, a: nat, u: nat, x: T)
    requires a < |buf| && u < |buf|
    ensures Walk(buf[At(|buf|, a, u) := x], a, u + 1) == Walk(buf, a, u) + [x]
  {
  }

  function Extract<T>(buf: seq<T>, p: Piece): (e: seq<T>)
    requires p.start + p.size <= |buf|
  {
    buf[p.start..p.start + p.size]
  }

  /** A write index update on an empty ring and the two peeks after it yield
      exactly the reported elements, in order, and leave the ring empty. */
  lemma PeeksCover<T>(r: Ring, buf: seq<T>, len: nat)
    requires r.Valid() && r.Empty() && |buf| == r.size && 0 < len <= r.size
    ensures var p := Peek(UpdateWrite(r, len));
      var q := Peek(p.ring);
      && Extract(buf, p) + Extract(buf, q) == Walk(buf, r.ri, len)
      && q.ring.Empty() && q.ring.ri == At(r.size, r.ri, len)
  {
    var p := Peek(UpdateWrite(r, len));
    var q := Peek(p.ring);
    if r.size - r.ri >= len {
      assert p.start == r.ri && p.size == len && q.size == 0;
    } else {
      assert p.start == r.ri && p.size == r.size - r.ri;
      assert q.start == 0 && q.size == len - p.size;
    }
  }

  /** The mirror bits say which index is ahead. */
  predicate Consistent(r: Ring) {
    r.ri < r.size && r.wi < r.size && (if r.rm == r.wm then r.ri <= r.wi else r.wi <= r.ri)
  }

  /** A write index update keeps the mirror bits right and moves the write index by
      the length, at most a buffer; the ring then has that many elements more, or is
      full, in which case it starts over at the write index: what it lists is the
      newest elements in front of the write index. */
  lemma UpdateKeepsNewest(r: Ring, length: nat)
    requires Consistent(r)
    ensures var r', len := UpdateWrite(r, length), if length > r.size then r.size else length;
      && Consistent(r') && r'.size == r.size && r'.wi == At(r.size, r.wi, len)
      && (if DataLen(r) + len <= r.size then r'.ri == r.ri && DataLen(r') == DataLen(r) + len
          else r'.ri == r'.wi && DataLen(r') == r.size)
  {
  }

  /** A peek takes the elements from the read index on, up to the end of the
      buffer, and leaves the others in the ring. */
  lemma PeekTakes(r: Ring)
    requires Consistent(r)
    ensures var p := Peek(r);
      && p.size == (if DataLen(r) <= r.size - r.ri then DataLen(r) else r.size - r.ri)
      && (p.size > 0 ==> p.start == r.ri)
      && Consistent(p.ring) && p.ring.size == r.size && p.ring.wi == r.wi && p.ring.wm == r.wm
      && p.ring.ri == At(r.size, r.ri, p.size) && DataLen(p.ring) == DataLen(r) - p.size
  {
  }

  class RingBuffer {
    const size: nat
    var readIndex: nat
    var readMirror: bool
    var writeIndex: nat
    var writeMirror: bool

    function Snap(): Ring
      reads this
    {
      Ring(size, readIndex, readMirror, writeIndex, writeMirror)
    }

    /** rt_ringbuffer_init: the size is rounded down to RT_ALIGN_SIZE, 8. */
    constructor (bytes: nat)
      ensures Snap() == Ring(bytes - bytes % 8, 0, false, 0, false)
    {
      size := bytes - bytes % 8;
      readIndex, readMirror := 0, false;
      writeIndex, writeMirror := 0, false;
    }

    method UpdateWriteIndex(length: nat)
      requires Snap().Valid()
      modifies this
      ensures Snap() == UpdateWrite(old(Snap()), length)
    {
      var space := size - DataLen(Snap());
      var len := length;
      if len > size {
        len := size;
      }
      if size - writeIndex > len {
        writeIndex := writeIndex + len;
        if len > space {
          readIndex := writeIndex;
        }
        return;
      }
      writeMirror := !writeMirror;
      writeIndex := len - (size - writeIndex);
      if len > space {
        if writeIndex <= readIndex {
          readMirror := !readMirror;
        }
        readIndex := writeIndex;
      }
    }

    method PeekPiece() returns (start: nat, n: nat)
      requires Snap().Valid()
      modifies this
      ensures Piece(Snap(), start, n) == Peek(old(Snap()))
    {
      n := DataLen(Snap());
      start := 0;
      if n == 0 {
        return;
      }
      start := readIndex;
      if size - readIndex > n {
        readIndex := readIndex + n;
        return;
      }
      n := size - readIndex;
      readMirror := !readMirror;
      readIndex := 0;
    }
  }
}

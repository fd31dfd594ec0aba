/**
 * The filesystem as the traversal sees it. A directory is what reading it
 * yields: the metadata `fstat` reports for its open descriptor, the batches
 * that successive `getdents64` calls fill, and how the final read ended.
 * A batch is the filled part of the 4096-byte buffer, one cell per byte; a
 * packed `linux_dirent64` record occupies `reclen` consecutive cells, the
 * first carrying its decoded header and name.
 */
module Dirents {

  /** Capacity of the read buffer (`std::array<char, 4096>`). */
  const BufSize: nat := 4096

  /** Outcome of `fstat` on an open directory descriptor. */
  datatype StatResult = Stat(size: nat, nlinks: nat) | StatError(reason: string)

  /** How the read loop of a directory ends: a read returning 0, or a read
      returning -1 (also what a failed `open` leads to, since the invalid
      descriptor is read without a check). */
  datatype ReadEnd = EndOfDir | ReadError(reason: string)

  /** The `d_type` tag of a record (DT_UNKNOWN 0, DT_FIFO 1, DT_CHR 2,
      DT_DIR 4, DT_BLK 6, DT_REG 8, DT_LNK 10, DT_SOCK 12, DT_WHT 14). A
      directory record carries what reading that directory yields. */
  datatype FileType =
    | Unknown
    | Fifo
    | CharDevice
    | Directory(contents: Dir)
    | BlockDevice
    | Regular
    | Symlink
    | Socket
    | Whiteout

  /** A decoded `linux_dirent64` record: `d_ino`, `d_reclen`, `d_type` and
      `d_name` up to its terminating NUL. */
  datatype Dirent = Dirent(ino: nat, reclen: nat, ftype: FileType, name: string)

  /** One byte of a filled buffer: the first byte of a record, or any other. */
  datatype Cell = Header(ent: Dirent) | Body

  /** The `nread` filled bytes of one `getdents64` call. */
  datatype Batch = Batch(cells: seq<Cell>)

  /** An open directory: its own metadata, the batches read from it and the
      result of the read after the last batch. */
  datatype Dir = Dir(stat: StatResult, batches: seq<Batch>, end: ReadEnd)

  /** What the kernel guarantees about a filled buffer from byte `off` on:
      records follow one another, each with a positive length that stays
      inside the filled part, until the cursor lands exactly on the end. */
  predicate Packed(cells: seq<Cell>, off: nat)
    decreases |cells| - off
  {
    off == |cells|
    || (&& off < |cells|
        && cells[off].Header?
        && 0 < cells[off].ent.reclen
        && off + cells[off].ent.reclen <= |cells|
        && (forall j :: off < j < off + cells[off].ent.reclen ==> cells[j].Body?)
        && Packed(cells, off + cells[off].ent.reclen))
  }

  /** A read that returned `nread` bytes: 0 < nread <= the buffer size, and
      the bytes hold whole records. */
  predicate ValidBatch(b: Batch)
  {
    0 < |b.cells| <= BufSize && Packed(b.cells, 0)
  }

  /** Every batch of the directory, and of every directory one of its
      records describes, is a valid read. */
  predicate WellFormed(d: Dir)
    decreases d
  {
    && (forall k :: 0 <= k < |d.batches| ==> ValidBatch(d.batches[k]))
    && (forall k, off ::
          && 0 <= k < |d.batches|
          && 0 <= off < |d.batches[k].cells|
          && d.batches[k].cells[off].Header?
          && d.batches[k].cells[off].ent.ftype.Directory?
          ==> WellFormed(d.batches[k].cells[off].ent.ftype.contents))
  }

  /** Total length of a sequence of records. */
  function Span(es: seq<Dirent>): nat
  {
    if |es| == 0 then 0 else es[0].reclen + Span(es[1..])
  }

  /** The cursor walk over one batch, from byte `off`: read the record at
      the cursor, advance by its `reclen`, stop when the cursor reaches
      `nread`. Yields the records in buffer order. */
  function Walk(cells: seq<Cell>, off: nat): (es: seq<Dirent>)
    requires Packed(cells, off)
    ensures Span(es) == |cells| - off
    ensures forall i :: 0 <= i < |es| ==> 0 < es[i].reclen
    decreases |cells| - off
  {
    if off == |cells| then []
    else [cells[off].ent] + Walk(cells, off + cells[off].ent.reclen)
  }

  /** `n` non-header bytes. */
  function Bodies(n: nat): (bs: seq<Cell>)
    ensures |bs| == n
    ensures forall j :: 0 <= j < n ==> bs[j].Body?
  {
    if n == 0 then [] else [Body] + Bodies(n - 1)
  }

  /** Lays records out back to back, as the kernel fills the buffer. */
  function Pack(es: seq<Dirent>): (cells: seq<Cell>)
    requires forall i :: 0 <= i < |es| ==> 0 < es[i].reclen
    ensures |cells| == Span(es)
  {
    if |es| == 0 then []
    else [Header(es[0])] + Bodies(es[0].reclen - 1) + Pack(es[1..])
  }

  /** Bytes in front of the cursor do not change what it reads. */
  lemma {:induction false} WalkShift(pre: seq<Cell>, cells: seq<Cell>, off: nat)
    requires Packed(cells, off)
    ensures Packed(pre + cells, |pre| + off)
    ensures Walk(pre + cells, |pre| + off) == Walk(cells, off)
    decreases |cells| - off
  {
    if off < |cells| {
      var n := cells[off].ent.reclen;
      assert (pre + cells)[|pre| + off] == cells[off];
      forall j | |pre| + off < j < |pre| + off + n
        ensures (pre + cells)[j].Body?
      {
        assert (pre + cells)[j] == cells[j - |pre|];
      }
      WalkShift(pre, cells, off + n);
    }
  }

  /** One record in front of a packed buffer keeps it packed, and the
      cursor reads that record first. */
  lemma PackedCons(e: Dirent, rest: seq<Cell>)
    requires 0 < e.reclen && Packed(rest, 0)
    ensures Packed([Header(e)] + Bodies(e.reclen - 1) + rest, 0)
    ensures Walk([Header(e)] + Bodies(e.reclen - 1) + rest, 0) == [e] + Walk(rest, 0)
  {
    var head := [Header(e)] + Bodies(e.reclen - 1);
    var cells := head + rest;
    WalkShift(head, rest, 0);
    assert cells[0] == Header(e);
    forall j | 0 < j < e.reclen
      ensures cells[j].Body?
    {
      assert cells[j] == Bodies(e.reclen - 1)[j - 1];
    }
  }

  /** Decoding a packed layout gives back the records it was packed from. */
  lemma {:induction false} WalkPack(es: seq<Dirent>)
    requires forall i :: 0 <= i < |es| ==> 0 < es[i].reclen
    ensures Packed(Pack(es), 0)
    ensures Walk(Pack(es), 0) == es
  {
    if |es| > 0 {
      WalkPack(es[1..]);
      PackedCons(es[0], Pack(es[1..]));
      assert Pack(es) == [Header(es[0])] + Bodies(es[0].reclen - 1) + Pack(es[1..]);
      assert [es[0]] + es[1..] == es;
    }
  }

  /** A packed buffer is exactly the layout of the records the cursor reads
      from it: packing is a bijection between record lists and buffers. */
  lemma {:induction false} PackWalk(cells: seq<Cell>, off: nat)
    requires Packed(cells, off)
    ensures Pack(Walk(cells, off)) == cells[off..]
    decreases |cells| - off
  {
    if off < |cells| {
      var e := cells[off].ent;
      var next := off + e.reclen;
      PackWalk(cells, next);
      var es := Walk(cells, off);
      assert es[0] == e && es[1..] == Walk(cells, next);
      assert cells[off + 1..next] == Bodies(e.reclen - 1);
      assert cells[off..] == [cells[off]] + cells[off + 1..next] + cells[next..];
    }
  }

  /** The records of a directory from the `k`-th batch on, batch after
      batch, each batch in cursor order. */
  function Listing(d: Dir, k: nat): seq<Dirent>
    requires WellFormed(d) && k <= |d.batches|
    decreases |d.batches| - k
  {
    if k == |d.batches| then [] else Walk(d.batches[k].cells, 0) + Listing(d, k + 1)
  }
}

/**
 * The pager (`pager.go`, `pager.rs`, `pager.py`): a byte blob framed into fixed-size,
 * zero-padded pages, and the `.dat` file image `MDB1 | u32 LE page size | u64 LE
 * length | pages`. File reads and writes are left out: `Flush` produces the bytes that
 * would be written and `Load` reads a state back from given bytes.
 */
module Pager {
  import opened Base

  type byte = b: int | 0 <= b < 256

  /** The header's magic number, the ASCII bytes of `MDB1`. */
  const MAGIC: seq<byte> := [0x4D, 0x44, 0x42, 0x31]
  const HEADER_SIZE: nat := 16
  const U32_LIMIT: nat := 0x1_0000_0000
  const U64_LIMIT: nat := 0x1_0000_0000_0000_0000

  /**
   * In-memory pager state: the page size, the pages, and the logical length of the
   * stored blob. The file path is left out.
   */
  datatype PagerState = PagerState(pageSize: nat, pages: seq<seq<byte>>, length: nat)

  /** Every page is exactly one page long. */
  predicate PagesSized(s: PagerState) {
    forall i :: 0 <= i < |s.pages| ==> |s.pages[i]| == s.pageSize
  }

  /**
   * The states a pager reaches: a positive page size that fits the u32 header field,
   * a length that fits the u64 field, full-size pages, and no length without pages.
   */
  predicate Valid(s: PagerState) {
    0 < s.pageSize < U32_LIMIT && s.length < U64_LIMIT && PagesSized(s)
    && (s.pages == [] ==> s.length == 0)
  }

  function Zeros(n: nat): (r: seq<byte>)
    ensures |r| == n && forall i :: 0 <= i < n ==> r[i] == 0
  {
    seq(n, _ => 0)
  }

  /** All pages laid end to end. */
  function Concat(pages: seq<seq<byte>>): seq<byte>
    decreases |pages|
  {
    if pages == [] then [] else pages[0] + Concat(pages[1..])
  }

  /** `buf` cut into consecutive pieces of `size` bytes, the last zero-padded. */
  function Chunks(buf: seq<byte>, size: nat): (r: seq<seq<byte>>)
    requires size > 0
    ensures forall i :: 0 <= i < |r| ==> |r[i]| == size
    ensures r == [] <==> buf == []
    ensures |r| * size >= |buf|
    ensures r != [] ==> (|r| - 1) * size < |buf|
    decreases |buf|
  {
    if buf == [] then []
    else if |buf| <= size then [buf + Zeros(size - |buf|)]
    else
      var rest := Chunks(buf[size..], size);
      assert (|rest| + 1) * size == |rest| * size + size;
      [buf[..size]] + rest
  }

  // ---------------------------------------------------------------------------
  // Blobs.

  /** `WriteBlob`: record the length and re-page the data, or drop every page when empty. */
  function WriteBlob(s: PagerState, data: seq<byte>): (r: PagerState)
    requires s.pageSize > 0
    ensures r.pageSize == s.pageSize && r.length == |data|
    ensures PagesSized(r)
    ensures data == [] <==> r.pages == []
    ensures |r.pages| * s.pageSize >= |data|
    ensures r.pages != [] ==> (|r.pages| - 1) * s.pageSize < |data|
  {
    PagerState(s.pageSize, Chunks(data, s.pageSize), |data|)
  }

  /**
   * `read_blob` (Rust, Python): nothing when there are no pages or the length is 0,
   * else the pages laid end to end and cut to the length (no cut when shorter).
   */
  function ReadBlob(s: PagerState): (r: seq<byte>)
    ensures |r| <= s.length && |r| <= |Concat(s.pages)|
    ensures r == Concat(s.pages)[..|r|]
  {
    if s.pages == [] || s.length == 0 then []
    else
      var all := Concat(s.pages);
      if s.length <= |all| then all[..s.length] else all
  }

  /** Go `ReadBlob`: the same, except that a length beyond the pages is an out-of-range slice. */
  function ReadBlobGo(s: PagerState): (r: Outcome<seq<byte>>)
    ensures r.Fault? <==> s.pages != [] && s.length > |Concat(s.pages)|
    ensures r.Done? ==> r.value == ReadBlob(s)
  {
    if s.pages == [] || s.length == 0 then Done([])
    else
      var all := Concat(s.pages);
      if s.length <= |all| then Done(all[..s.length]) else Fault("slice bounds out of range")
  }

  lemma {:induction false} ConcatChunks(buf: seq<byte>, size: nat)
    requires size > 0
    ensures |Concat(Chunks(buf, size))| >= |buf|
    ensures Concat(Chunks(buf, size))[..|buf|] == buf
    decreases |buf|
  {
    if buf == [] {
    } else if |buf| <= size {
      var c := Chunks(buf, size);
      assert Concat(c) == c[0] + Concat(c[1..]);
      assert c[1..] == [];
    } else {
      var c := Chunks(buf, size);
      ConcatChunks(buf[size..], size);
      assert c[0] == buf[..size] && c[1..] == Chunks(buf[size..], size);
      assert Concat(c) == buf[..size] + Concat(Chunks(buf[size..], size));
      assert buf == buf[..size] + buf[size..];
    }
  }

  /** Reading back a written blob gives exactly the written bytes. */
  lemma BlobRoundTrip(s: PagerState, data: seq<byte>)
    requires s.pageSize > 0
    ensures ReadBlob(WriteBlob(s, data)) == data
    ensures ReadBlobGo(WriteBlob(s, data)) == Done(data)
  {
    ConcatChunks(data, s.pageSize);
  }

  /** A written blob always leaves a valid pager when its length fits the header. */
  lemma WriteBlobValid(s: PagerState, data: seq<byte>)
    requires Valid(s) && |data| < U64_LIMIT
    ensures Valid(WriteBlob(s, data))
  {
  }

  // ---------------------------------------------------------------------------
  // Pages.

  /** The page list extended with zero pages until `index` is a valid position. */
  function Grow(pages: seq<seq<byte>>, index: nat, size: nat): (r: seq<seq<byte>>)
    ensures |r| == if index < |pages| then |pages| else index + 1
    ensures r[..|pages|] == pages
    ensures forall i :: |pages| <= i < |r| ==> r[i] == Zeros(size)
    decreases index + 1 - |pages|
  {
    if index < |pages| then pages else Grow(pages + [Zeros(size)], index, size)
  }

  /** `AllocatePage`: append one zero page and return its position, the old page count. */
  function AllocatePage(s: PagerState): (r: (PagerState, nat))
    ensures r.1 == |s.pages|
    ensures r.0.pages == s.pages + [Zeros(s.pageSize)]
    ensures r.0.pageSize == s.pageSize && r.0.length == s.length
  {
    (s.(pages := s.pages + [Zeros(s.pageSize)]), |s.pages|)
  }

  /** The first `min(|data|, size)` bytes of `data`. */
  function Clip(data: seq<byte>, size: nat): (r: seq<byte>)
    ensures |r| == Min(|data|, size) && r == data[..|r|]
  {
    if |data| <= size then data else data[..size]
  }

  /**
   * Go `WritePage` and Python `write_page`: grow the page list to reach `index`, then
   * replace that page with a fresh zero page holding the data's first bytes.
   */
  function WritePage(s: PagerState, index: nat, data: seq<byte>): (r: PagerState)
    ensures r.pageSize == s.pageSize && r.length == s.length
    ensures |r.pages| == Max(|s.pages|, index + 1)
    ensures r.pages[index] == Clip(data, s.pageSize) + Zeros(s.pageSize - |Clip(data, s.pageSize)|)
    ensures forall i :: 0 <= i < |r.pages| && i != index ==>
      r.pages[i] == (if i < |s.pages| then s.pages[i] else Zeros(s.pageSize))
  {
    var grown := Grow(s.pages, index, s.pageSize);
    var head := Clip(data, s.pageSize);
    s.(pages := grown[index := head + Zeros(s.pageSize - |head|)])
  }

  /**
   * Rust `write_page`: the same growth, but the data's first bytes overwrite the page
   * in place and the rest of the old page stays.
   */
  function WritePageRust(s: PagerState, index: nat, data: seq<byte>): (r: PagerState)
    requires PagesSized(s)
    ensures r.pageSize == s.pageSize && r.length == s.length
    ensures |r.pages| == Max(|s.pages|, index + 1)
    ensures |r.pages[index]| == s.pageSize
    ensures r.pages[index][..|Clip(data, s.pageSize)|] == Clip(data, s.pageSize)
    ensures forall j :: |Clip(data, s.pageSize)| <= j < s.pageSize ==>
      r.pages[index][j] == (if index < |s.pages| then s.pages[index][j] else 0)
    ensures forall i :: 0 <= i < |r.pages| && i != index ==>
      r.pages[i] == (if i < |s.pages| then s.pages[i] else Zeros(s.pageSize))
  {
    var grown := Grow(s.pages, index, s.pageSize);
    var head := Clip(data, s.pageSize);
    var old_ := grown[index];
    assert |old_| == s.pageSize;
    s.(pages := grown[index := head + old_[|head|..]])
  }

  /** Both page writes keep every page full-size. */
  lemma WritePagePreservesValid(s: PagerState, index: nat, data: seq<byte>)
    requires Valid(s)
    ensures Valid(WritePage(s, index, data)) && Valid(WritePageRust(s, index, data))
  {
  }

  /** Go's zeroing write and Rust's in-place write differ exactly in the stale page tail. */
  lemma WritePageDivergence()
    ensures var s := PagerState(2, [[7, 7]], 2);
      WritePage(s, 0, [1]).pages == [[1, 0]] && WritePageRust(s, 0, [1]).pages == [[1, 7]]
  {
    var s := PagerState(2, [[7, 7]], 2);
    assert Grow(s.pages, 0, 2) == s.pages;
    assert Clip([1], 2) == [1];
    assert Zeros(1) == [0];
    assert [1] + Zeros(1) == [1, 0];
    assert WritePage(s, 0, [1]).pages == [[1] + Zeros(1)];
    assert [7, 7][1..] == [7];
    assert [1] + [7, 7][1..] == [1, 7];
    assert WritePageRust(s, 0, [1]).pages == [[1] + [7, 7][1..]];
  }

  /** Go `ReadPage` and Rust `read_page`: the page when in range, nothing otherwise. */
  function ReadPage(s: PagerState, index: nat): (r: Option<seq<byte>>)
    ensures r.Some? <==> index < |s.pages|
    ensures r.Some? ==> r.value == s.pages[index]
  {
    if index < |s.pages| then Some(s.pages[index]) else None
  }

  /** Python `read_page`: the page when in range, an `IndexError` otherwise. */
  function ReadPagePy(s: PagerState, index: nat): (r: Outcome<seq<byte>>)
    ensures r.Done? <==> ReadPage(s, index).Some?
    ensures r.Done? ==> r.value == ReadPage(s, index).value
  {
    if index < |s.pages| then Done(s.pages[index]) else Fault("IndexError: list index out of range")
  }

  /** A written page reads back as the clipped data, zero-padded. */
  lemma ReadAfterWritePage(s: PagerState, index: nat, data: seq<byte>)
    ensures ReadPage(WritePage(s, index, data), index).Some?
    ensures ReadPage(WritePage(s, index, data), index).value[..Min(|data|, s.pageSize)] == data[..Min(|data|, s.pageSize)]
  {
  }

  // ---------------------------------------------------------------------------
  // The file image.

  /** `n` modulo `256^width`, least significant byte first. */
  function EncodeLE(n: nat, width: nat): (r: seq<byte>)
    ensures |r| == width
  {
    if width == 0 then [] else [n % 256] + EncodeLE(n / 256, width - 1)
  }

  function DecodeLE(bs: seq<byte>): nat {
    if bs == [] then 0 else bs[0] + 256 * DecodeLE(bs[1..])
  }

  function Pow256(width: nat): (r: nat)
    ensures r > 0
  {
    if width == 0 then 1 else 256 * Pow256(width - 1)
  }

  lemma {:induction false} DecodeEncodeLE(n: nat, width: nat)
    requires n < Pow256(width)
    ensures DecodeLE(EncodeLE(n, width)) == n
  {
    if width > 0 {
      var e := EncodeLE(n, width);
      assert e[1..] == EncodeLE(n / 256, width - 1);
      DecodeEncodeLE(n / 256, width - 1);
    }
  }

  lemma Pow256Values()
    ensures Pow256(4) == U32_LIMIT && Pow256(8) == U64_LIMIT
  {
    assert Pow256(1) == 256;
    assert Pow256(2) == 65536;
    assert Pow256(4) == 65536 * 65536;
  }

  /** A page size of 2^32 does not fit the u32 field: Go's and Rust's casts store 0. */
  lemma PageSizeFieldWraps()
    ensures EncodeLE(U32_LIMIT, 4) == [0, 0, 0, 0]
  {
  }

  /** `flush`: an empty image when there are no pages, otherwise header then pages. */
  function Flush(s: PagerState): (r: seq<byte>)
    ensures s.pages == [] ==> r == []
    ensures s.pages != [] ==> |r| == HEADER_SIZE + |Concat(s.pages)| && r[..4] == MAGIC
    ensures s.pages != [] ==> r[HEADER_SIZE..] == Concat(s.pages)
  {
    if s.pages == [] then []
    else MAGIC + EncodeLE(s.pageSize, 4) + EncodeLE(s.length, 8) + Concat(s.pages)
  }

  /** A short last chunk comes back zero-padded. */
  function Pad(chunk: seq<byte>, size: nat): (r: seq<byte>)
    ensures |chunk| <= size ==> |r| == size
  {
    if |chunk| < size then chunk + Zeros(size - |chunk|) else chunk
  }

  /**
   * `load`: a file shorter than the header or without the magic leaves the freshly
   * constructed pager (configured size, no pages, length 0); otherwise the stored size
   * (the configured one when it is 0), the stored length and the payload re-paged.
   */
  function Load(file: seq<byte>, configured: nat): (r: PagerState)
    requires configured > 0
    ensures r.pageSize > 0
    ensures (|file| < HEADER_SIZE || file[..4] != MAGIC) ==> r == PagerState(configured, [], 0)
  {
    if |file| < HEADER_SIZE || file[..4] != MAGIC then PagerState(configured, [], 0)
    else
      var stored := DecodeLE(file[4..8]);
      var size := if stored > 0 then stored else configured;
      PagerState(size, Chunks(file[HEADER_SIZE..], size), DecodeLE(file[8..16]))
  }

  lemma {:induction false} ChunksOfConcat(pages: seq<seq<byte>>, size: nat)
    requires size > 0
    requires forall i :: 0 <= i < |pages| ==> |pages[i]| == size
    ensures Chunks(Concat(pages), size) == pages
    decreases |pages|
  {
    if pages != [] {
      var c := Concat(pages);
      assert c == pages[0] + Concat(pages[1..]);
      ChunksOfConcat(pages[1..], size);
      if |pages| == 1 {
        assert Concat(pages[1..]) == [];
        assert c == pages[0];
        assert Zeros(0) == [];
        assert c + Zeros(0) == c;
      } else {
        assert |Concat(pages[1..])| > 0 by { assert |pages[1]| == size; ConcatLength(pages[1..], size); }
        assert c[..size] == pages[0];
        assert c[size..] == Concat(pages[1..]);
      }
    }
  }

  lemma {:induction false} ConcatLength(pages: seq<seq<byte>>, size: nat)
    requires forall i :: 0 <= i < |pages| ==> |pages[i]| == size
    ensures |Concat(pages)| == |pages| * size
    decreases |pages|
  {
    if pages != [] {
      ConcatLength(pages[1..], size);
    }
  }

  /** Loading what `flush` wrote restores the pager state exactly. */
  lemma LoadFlushRoundTrip(s: PagerState)
    requires Valid(s)
    ensures Load(Flush(s), s.pageSize) == s
  {
    if s.pages != [] {
      var f := Flush(s);
      Pow256Values();
      var sz := EncodeLE(s.pageSize, 4);
      var ln := EncodeLE(s.length, 8);
      assert f == MAGIC + sz + ln + Concat(s.pages);
      assert f[4..8] == sz;
      assert f[8..16] == ln;
      DecodeEncodeLE(s.pageSize, 4);
      DecodeEncodeLE(s.length, 8);
      ChunksOfConcat(s.pages, s.pageSize);
    }
  }

  /** With pages present, the configured size given to `load` plays no part. */
  lemma LoadIgnoresConfiguredSize(s: PagerState, configured: nat)
    requires Valid(s) && s.pages != [] && configured > 0
    ensures Load(Flush(s), configured) == s
  {
    var f := Flush(s);
    Pow256Values();
    assert f[4..8] == EncodeLE(s.pageSize, 4);
    assert f[8..16] == EncodeLE(s.length, 8);
    DecodeEncodeLE(s.pageSize, 4);
    DecodeEncodeLE(s.length, 8);
    ChunksOfConcat(s.pages, s.pageSize);
  }

  /** Writing a blob, flushing, loading and reading gives back the blob. */
  lemma BlobSurvivesFile(s: PagerState, data: seq<byte>)
    requires Valid(s) && |data| < U64_LIMIT
    ensures ReadBlob(Load(Flush(WriteBlob(s, data)), s.pageSize)) == data
  {
    WriteBlobValid(s, data);
    LoadFlushRoundTrip(WriteBlob(s, data));
    BlobRoundTrip(s, data);
  }
}

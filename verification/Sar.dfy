// The Simple ARchive: tools/sar.c writes it, lists it and unpacks it, kernel/sar.c looks
// files up in it.
module Sar {
  import opened Common

  const SAR_MAGIC: U32 := 0x52415307
  /** sizeof(struct sar_header), sizeof(struct sar_file) */
  const ARCHIVE_HEADER: nat := 4
  const FILE_HEADER: nat := 12

  /** What strlen sees of a file name: no NUL. */
  type Name = s: seq<Byte> | 0 !in s

  datatype File = File(name: Name, data: seq<Byte>)

  /** A file named on the command line: it may fail to open, and is then skipped. */
  datatype Input = Input(name: Name, data: Option<seq<Byte>>)

  function Files(inputs: seq<Input>): (files: seq<File>)
    ensures |files| <= |inputs|
  {
    if inputs == [] then []
    else
      var last := inputs[|inputs| - 1];
      Files(inputs[..|inputs| - 1]) + (if last.data.Some? then [File(last.name, last.data.value)] else [])
  }

  lemma MagicBytes()
    ensures Le32(SAR_MAGIC) == [7, 'S' as int, 'A' as int, 'R' as int]
  {}

  // ----- alignment -----

  function AlignUp(n: nat): (m: nat)
    ensures n <= m < n + 4096 && m % 4096 == 0
  {
    (n + 4095) / 4096 * 4096
  }

  /** PALIGN, in 32-bit arithmetic. */
  function PAlign(n: U32): U32 {
    (n + 4095) % WORD_SPAN / 4096 * 4096
  }

  /** PALIGN rounds up exactly when the result fits. */
  lemma PAlignFits(n: U32)
    ensures PAlign(n) == AlignUp(n) <==> AlignUp(n) < WORD_SPAN
  {}

  // ----- the archive as bytes -----

  function Zeros(n: nat): (z: seq<Byte>)
    ensures |z| == n && forall i :: 0 <= i < n ==> z[i] == 0
  {
    seq(n, i => 0)
  }

  /** pwrite: a hole left before the bytes reads as zeros. */
  function Pwrite(a: seq<Byte>, bytes: seq<Byte>, offset: nat): (a': seq<Byte>)
  {
    if bytes == [] then a
    else if offset >= |a| then a + Zeros(offset - |a|) + bytes
    else if offset + |bytes| >= |a| then a[..offset] + bytes
    else a[..offset] + bytes + a[offset + |bytes|..]
  }

  predicate Holds(a: seq<Byte>, offset: nat, bytes: seq<Byte>) {
    offset + |bytes| <= |a| && a[offset..offset + |bytes|] == bytes
  }

  lemma PwriteHolds(a: seq<Byte>, bytes: seq<Byte>, offset: nat)
    requires bytes != []
    ensures Holds(Pwrite(a, bytes, offset), offset, bytes)
  {}

  lemma PwriteKeeps(a: seq<Byte>, bytes: seq<Byte>, offset: nat, at: nat, kept: seq<Byte>)
    requires Holds(a, at, kept)
    requires at + |kept| <= offset || offset + |bytes| <= at
    ensures Holds(Pwrite(a, bytes, offset), at, kept)
  {
    var a' := Pwrite(a, bytes, offset);
    assert at + |kept| <= |a'|;
    forall i | 0 <= i < |kept| ensures a'[at + i] == kept[i] {
      assert a[at + i] == a[at..at + |kept|][i];
    }
  }

  lemma HoldsSplit(a: seq<Byte>, offset: nat, x: seq<Byte>, y: seq<Byte>)
    ensures Holds(a, offset, x + y) <==> Holds(a, offset, x) && Holds(a, offset + |x|, y)
  {
    if offset + |x| + |y| <= |a| {
      assert a[offset..offset + |x| + |y|] == a[offset..offset + |x|] + a[offset + |x|..offset + |x| + |y|];
      if Holds(a, offset, x + y) {
        assert x == (x + y)[..|x|] && y == (x + y)[|x|..];
      }
    }
  }

  // ----- the layout -----

  /** Where the k-th file's header lies. */
  function HeaderPos(files: seq<File>, k: nat): (pos: nat)
    requires k <= |files|
    ensures pos >= ARCHIVE_HEADER
  {
    if k == 0 then ARCHIVE_HEADER else HeaderPos(files, k - 1) + FILE_HEADER + |files[k - 1].name| + 1
  }

  /** Where the k-th file's contents lie, the first ones at `base`. */
  function DataPos(files: seq<File>, base: nat, k: nat): (pos: nat)
    requires k <= |files|
    ensures pos >= base
  {
    if k == 0 then base else DataPos(files, base, k - 1) + AlignUp(|files[k - 1].data|)
  }

  function HeaderBytes(f: File, offset: nat): seq<Byte>
    requires |f.data| < WORD_SPAN && offset < WORD_SPAN && |f.name| + 1 < WORD_SPAN
  {
    Le32(|f.data|) + Le32(offset) + Le32(|f.name| + 1) + (f.name + [0])
  }

  function Padded(data: seq<Byte>): seq<Byte> {
    data + Zeros(AlignUp(|data|) - |data|)
  }

  /** One file in the archive: its header, and its contents padded to a page. An empty file
      takes no room, so nothing need lie at its offset. */
  ghost predicate Entered(a: seq<Byte>, f: File, pos: nat, offset: nat) {
    && |f.data| < WORD_SPAN && offset < WORD_SPAN && |f.name| + 1 < WORD_SPAN
    && Holds(a, pos, HeaderBytes(f, offset))
    && (f.data != [] ==> Holds(a, offset, Padded(f.data)))
  }

  ghost predicate KthEntered(a: seq<Byte>, files: seq<File>, base: nat, k: nat)
    requires k < |files|
  {
    Entered(a, files[k], HeaderPos(files, k), DataPos(files, base, k))
  }

  ghost predicate Stored(a: seq<Byte>, files: seq<File>, base: nat) {
    && Holds(a, 0, Le32(SAR_MAGIC))
    && forall k :: 0 <= k < |files| ==> KthEntered(a, files, base, k)
  }

  /** A whole archive: the files, and the terminating header of zeros after the last one. */
  ghost predicate Archive(a: seq<Byte>, files: seq<File>, base: nat) {
    && base % 4096 == 0 && HeaderPos(files, |files|) + FILE_HEADER <= base
    && Stored(a, files, base)
    && Holds(a, HeaderPos(files, |files|), Zeros(FILE_HEADER))
  }

  lemma {:induction false} PositionsOfPrefix(files: seq<File>, more: seq<File>, base: nat, k: nat)
    requires k <= |files| && files <= more
    ensures HeaderPos(more, k) == HeaderPos(files, k)
    ensures DataPos(more, base, k) == DataPos(files, base, k)
  {
    if k > 0 { PositionsOfPrefix(files, more, base, k - 1); }
  }

  lemma {:induction false} PositionsGrow(files: seq<File>, base: nat, j: nat, k: nat)
    requires j <= k <= |files|
    ensures HeaderPos(files, j) <= HeaderPos(files, k)
    ensures DataPos(files, base, j) <= DataPos(files, base, k)
    ensures j < k ==> HeaderPos(files, j) + FILE_HEADER + |files[j].name| + 1 <= HeaderPos(files, k)
    ensures j < k ==> DataPos(files, base, j) + AlignUp(|files[j].data|) <= DataPos(files, base, k)
    decreases k
  {
    if j < k { PositionsGrow(files, base, j, k - 1); }
  }

  lemma EnteredKept(a: seq<Byte>, f: File, pos: nat, offset: nat, bytes: seq<Byte>, at: nat)
    requires Entered(a, f, pos, offset)
    requires pos + FILE_HEADER + |f.name| + 1 <= at || at + |bytes| <= pos
    requires offset + AlignUp(|f.data|) <= at || at + |bytes| <= offset
    ensures Entered(Pwrite(a, bytes, at), f, pos, offset)
  {
    PwriteKeeps(a, bytes, at, pos, HeaderBytes(f, offset));
    if f.data != [] { PwriteKeeps(a, bytes, at, offset, Padded(f.data)); }
  }

  /** Writing clear of what is stored keeps it. */
  lemma StoredKept(a: seq<Byte>, files: seq<File>, base: nat, bytes: seq<Byte>, at: nat)
    requires Stored(a, files, base)
    requires HeaderPos(files, |files|) <= at
    requires at + |bytes| <= base || DataPos(files, base, |files|) <= at
    ensures Stored(Pwrite(a, bytes, at), files, base)
  {
    PwriteKeeps(a, bytes, at, 0, Le32(SAR_MAGIC));
    forall k | 0 <= k < |files|
      ensures KthEntered(Pwrite(a, bytes, at), files, base, k)
    {
      assert KthEntered(a, files, base, k);
      PositionsGrow(files, base, k, |files|);
      EnteredKept(a, files[k], HeaderPos(files, k), DataPos(files, base, k), bytes, at);
    }
  }

  lemma StoredMore(a: seq<Byte>, files: seq<File>, base: nat, f: File)
    requires Stored(a, files, base)
    requires Entered(a, f, HeaderPos(files, |files|), DataPos(files, base, |files|))
    ensures Stored(a, files + [f], base)
  {
    forall k | 0 <= k < |files| + 1
      ensures KthEntered(a, files + [f], base, k)
    {
      assert k < |files| ==> KthEntered(a, files, base, k);
      PositionsOfPrefix(files, files + [f], base, k);
    }
  }

  // ----- the writer -----

  /** The bytes that create counts for the headers of all inputs, also those it will skip. */
  function HeadersSize(inputs: seq<Input>, k: nat): (n: nat)
    requires k <= |inputs|
    ensures n >= k * (FILE_HEADER + 1)
  {
    if k == 0 then 0 else HeadersSize(inputs, k - 1) + FILE_HEADER + |inputs[k - 1].name| + 1
  }

  function Base(inputs: seq<Input>): nat {
    AlignUp(HeadersSize(inputs, |inputs|) + ARCHIVE_HEADER + FILE_HEADER)
  }

  function ArchiveSize(inputs: seq<Input>): nat {
    DataPos(Files(inputs), Base(inputs), |Files(inputs)|)
  }

  lemma FilesOneMore(inputs: seq<Input>, k: nat)
    requires k < |inputs|
    ensures Files(inputs[..k + 1])
         == Files(inputs[..k]) + (if inputs[k].data.Some? then [File(inputs[k].name, inputs[k].data.value)] else [])
  {
    assert inputs[..k + 1][..k] == inputs[..k];
  }

  lemma {:induction false} FilesOfPrefix(inputs: seq<Input>, k: nat)
    requires k <= |inputs|
    ensures Files(inputs[..k]) <= Files(inputs)
    decreases |inputs| - k
  {
    if k == |inputs| {
      assert inputs[..k] == inputs;
    } else {
      FilesOneMore(inputs, k);
      FilesOfPrefix(inputs, k + 1);
    }
  }

  lemma {:induction false} HeadersFit(inputs: seq<Input>, k: nat)
    requires k <= |inputs|
    ensures HeaderPos(Files(inputs[..k]), |Files(inputs[..k])|) <= HeadersSize(inputs, k) + ARCHIVE_HEADER
  {
    if k > 0 {
      HeadersFit(inputs, k - 1);
      FilesOneMore(inputs, k - 1);
      var files := Files(inputs[..k - 1]);
      PositionsOfPrefix(files, Files(inputs[..k]), 0, |files|);
    }
  }

  lemma {:induction false} HeadersGrow(inputs: seq<Input>, k: nat)
    requires k <= |inputs|
    ensures HeadersSize(inputs, k) <= HeadersSize(inputs, |inputs|)
    decreases |inputs| - k
  {
    if k < |inputs| { HeadersGrow(inputs, k + 1); }
  }

  /** Before the archive's end, create's running offsets stay below 2^32. */
  lemma OffsetsFit(inputs: seq<Input>, k: nat)
    requires k <= |inputs| && ArchiveSize(inputs) < WORD_SPAN
    ensures var files := Files(inputs[..k]);
      && HeaderPos(files, |files|) + FILE_HEADER <= Base(inputs)
      && Base(inputs) <= DataPos(files, Base(inputs), |files|) <= ArchiveSize(inputs)
  {
    var files := Files(inputs[..k]);
    HeadersFit(inputs, k);
    HeadersGrow(inputs, k);
    FilesOfPrefix(inputs, k);
    PositionsOfPrefix(files, Files(inputs), Base(inputs), |files|);
    PositionsGrow(Files(inputs), Base(inputs), |files|, |Files(inputs)|);
  }

  lemma HeadersCounted(inputs: seq<Input>, k: nat)
    requires k <= |inputs| && ArchiveSize(inputs) < WORD_SPAN
    ensures HeadersSize(inputs, k) + ARCHIVE_HEADER + FILE_HEADER + 4095 < WORD_SPAN
  {
    HeadersGrow(inputs, k);
    assert Base(inputs) <= ArchiveSize(inputs);
    assert Base(inputs) <= WORD_SPAN - 4096;
  }

  /** Appending one file's header, name and padded contents. */
  lemma FileWritten(a0: seq<Byte>, a1: seq<Byte>, a2: seq<Byte>, a3: seq<Byte>,
                    files: seq<File>, base: nat, f: File, pos: nat, offset: nat)
    requires Stored(a0, files, base)
    requires pos == HeaderPos(files, |files|) && offset == DataPos(files, base, |files|)
    requires |f.data| < WORD_SPAN && offset < WORD_SPAN && |f.name| + 1 < WORD_SPAN
    requires pos + FILE_HEADER + |f.name| + 1 <= base
    requires a1 == Pwrite(a0, Le32(|f.data|) + Le32(offset) + Le32(|f.name| + 1), pos)
    requires a2 == Pwrite(a1, f.name + [0], pos + FILE_HEADER)
    requires a3 == Pwrite(a2, Padded(f.data), offset)
    ensures Stored(a3, files + [f], base)
  {
    StoredKept(a0, files, base, Le32(|f.data|) + Le32(offset) + Le32(|f.name| + 1), pos);
    StoredKept(a1, files, base, f.name + [0], pos + FILE_HEADER);
    StoredKept(a2, files, base, Padded(f.data), offset);
    Written(a0, a1, a2, a3, f, pos, offset);
    StoredMore(a3, files, base, f);
  }

  lemma Written(a0: seq<Byte>, a1: seq<Byte>, a2: seq<Byte>, a3: seq<Byte>, f: File, pos: nat, offset: nat)
    requires |f.data| < WORD_SPAN && offset < WORD_SPAN && |f.name| + 1 < WORD_SPAN
    requires pos + FILE_HEADER + |f.name| + 1 <= offset
    requires a1 == Pwrite(a0, Le32(|f.data|) + Le32(offset) + Le32(|f.name| + 1), pos)
    requires a2 == Pwrite(a1, f.name + [0], pos + FILE_HEADER)
    requires a3 == Pwrite(a2, Padded(f.data), offset)
    ensures Entered(a3, f, pos, offset)
  {
    var header := Le32(|f.data|) + Le32(offset) + Le32(|f.name| + 1);
    PwriteHolds(a0, header, pos);
    PwriteKeeps(a1, f.name + [0], pos + FILE_HEADER, pos, header);
    PwriteHolds(a1, f.name + [0], pos + FILE_HEADER);
    HoldsSplit(a2, pos, header, f.name + [0]);
    PwriteKeeps(a2, Padded(f.data), offset, pos, HeaderBytes(f, offset));
    if f.data != [] { PwriteHolds(a2, Padded(f.data), offset); }
  }

  lemma NextPositions(files: seq<File>, f: File, base: nat)
    ensures HeaderPos(files + [f], |files + [f]|) == HeaderPos(files, |files|) + FILE_HEADER + |f.name| + 1
    ensures DataPos(files + [f], base, |files + [f]|) == DataPos(files, base, |files|) + AlignUp(|f.data|)
  {
    PositionsOfPrefix(files, files + [f], base, |files|);
  }

  lemma Terminated(a: seq<Byte>, files: seq<File>, base: nat)
    requires Stored(a, files, base)
    requires base % 4096 == 0 && HeaderPos(files, |files|) + FILE_HEADER <= base
    ensures Archive(Pwrite(a, Zeros(FILE_HEADER), HeaderPos(files, |files|)), files, base)
  {
    StoredKept(a, files, base, Zeros(FILE_HEADER), HeaderPos(files, |files|));
    PwriteHolds(a, Zeros(FILE_HEADER), HeaderPos(files, |files|));
  }

  // ----- the archive to the byte -----

  function Front(files: seq<File>): seq<File>
    requires files != []
  {
    files[..|files| - 1]
  }

  /** Where the contents behind those of all the files would lie. */
  function DataEnd(files: seq<File>, base: nat): nat { DataPos(files, base, |files|) }

  /** Lengths and offsets have 32 bits. */
  predicate Encodable(files: seq<File>, base: nat) {
    files == [] ||
    var last := files[|files| - 1];
    && Encodable(Front(files), base) && DataEnd(Front(files), base) < WORD_SPAN
    && |last.data| < WORD_SPAN && |last.name| + 1 < WORD_SPAN
  }

  /** The magic number and the headers. */
  function Heads(files: seq<File>, base: nat): (bytes: seq<Byte>)
    requires Encodable(files, base)
  {
    if files == [] then Le32(SAR_MAGIC)
    else Heads(Front(files), base) + HeaderBytes(files[|files| - 1], DataEnd(Front(files), base))
  }

  /** The contents, each padded to a page. */
  function Datas(files: seq<File>): (bytes: seq<Byte>) {
    if files == [] then [] else Datas(Front(files)) + Padded(files[|files| - 1].data)
  }

  lemma {:induction false} BytesLength(files: seq<File>, base: nat)
    requires Encodable(files, base)
    ensures |Heads(files, base)| == HeaderPos(files, |files|) && base + |Datas(files)| == DataEnd(files, base)
  {
    if files != [] {
      BytesLength(Front(files), base);
      assert files == Front(files) + [files[|files| - 1]];
      NextPositions(Front(files), files[|files| - 1], base);
    }
  }

  /** Headers, a gap of zeros, and contents; while nothing has contents, only headers. */
  function Framed(heads: seq<Byte>, base: nat, datas: seq<Byte>): seq<Byte>
    requires |heads| <= base
  {
    heads + (if datas == [] then [] else Zeros(base - |heads|) + datas)
  }

  /** With these files, and without the terminator. */
  ghost predicate IsPart(a: seq<Byte>, files: seq<File>, base: nat) {
    Encodable(files, base) && |Heads(files, base)| <= base && a == Framed(Heads(files, base), base, Datas(files))
  }

  /** The whole archive: behind the headers comes one of zeros. */
  ghost predicate IsImage(a: seq<Byte>, files: seq<File>, base: nat) {
    && Encodable(files, base) && |Heads(files, base)| + FILE_HEADER <= base
    && a == Framed(Heads(files, base) + Zeros(FILE_HEADER), base, Datas(files))
  }

  /** Writing behind the headers, in front of the contents. */
  lemma PwriteHead(heads: seq<Byte>, base: nat, datas: seq<Byte>, bytes: seq<Byte>)
    requires |heads| + |bytes| <= base
    ensures Pwrite(Framed(heads, base, datas), bytes, |heads|) == Framed(heads + bytes, base, datas)
  {
    var a := Framed(heads, base, datas);
    if bytes != [] && datas != [] {
      var gap := base - |heads|;
      assert a[..|heads|] == heads;
      assert a[|heads| + |bytes|..] == Zeros(gap)[|bytes|..] + datas;
      assert Zeros(gap)[|bytes|..] == Zeros(gap - |bytes|);
    }
  }

  /** Writing behind the contents, the first of which start at base. */
  lemma PwriteData(heads: seq<Byte>, base: nat, datas: seq<Byte>, bytes: seq<Byte>)
    requires |heads| <= base
    ensures Pwrite(Framed(heads, base, datas), bytes, base + |datas|) == Framed(heads, base, datas + bytes)
  {
    assert datas != [] ==> |Framed(heads, base, datas)| == base + |datas|;
  }

  /** The three writes for a file. */
  lemma ThreeWrites(heads: seq<Byte>, base: nat, datas: seq<Byte>, header: seq<Byte>, name: seq<Byte>, data: seq<Byte>,
                    pos: nat, offset: nat, a0: seq<Byte>, a1: seq<Byte>, a2: seq<Byte>, a3: seq<Byte>)
    requires |heads| + |header| + |name| <= base && pos == |heads| && offset == base + |datas|
    requires a0 == Framed(heads, base, datas) && a1 == Pwrite(a0, header, pos)
    requires a2 == Pwrite(a1, name, pos + |header|) && a3 == Pwrite(a2, data, offset)
    ensures a3 == Framed(heads + (header + name), base, datas + data)
  {
    PwriteHead(heads, base, datas, header);
    PwriteHead(heads + header, base, datas, name);
    PwriteData(heads + header + name, base, datas, data);
    assert heads + header + name == heads + (header + name);
  }

  lemma OneFileMore(files: seq<File>, base: nat, f: File, offset: nat)
    requires Encodable(files, base) && offset == DataEnd(files, base)
    requires |f.data| < WORD_SPAN && offset < WORD_SPAN && |f.name| + 1 < WORD_SPAN
    ensures Encodable(files + [f], base)
    ensures Heads(files + [f], base) == Heads(files, base) + HeaderBytes(f, offset)
    ensures Datas(files + [f]) == Datas(files) + Padded(f.data)
  {
    assert Front(files + [f]) == files;
  }

  lemma PartGrows(files: seq<File>, base: nat, f: File, a: seq<Byte>, offset: nat)
    requires Encodable(files, base) && HeaderPos(files, |files|) + FILE_HEADER + |f.name| + 1 <= base
    requires |Heads(files, base)| == HeaderPos(files, |files|) && offset == DataEnd(files, base)
    requires |f.data| < WORD_SPAN && offset < WORD_SPAN && |f.name| + 1 < WORD_SPAN
    requires a == Framed(Heads(files, base) + HeaderBytes(f, offset), base, Datas(files) + Padded(f.data))
    ensures IsPart(a, files + [f], base)
  {
    OneFileMore(files, base, f, offset);
  }

  lemma FileFramed(files: seq<File>, base: nat, f: File, a0: seq<Byte>, a1: seq<Byte>, a2: seq<Byte>, a3: seq<Byte>,
                   header: seq<Byte>, pos: nat, offset: nat)
    requires IsPart(a0, files, base) && pos + FILE_HEADER + |f.name| + 1 <= base
    requires pos == HeaderPos(files, |files|) && offset == DataEnd(files, base)
    requires |f.data| < WORD_SPAN && offset < WORD_SPAN && |f.name| + 1 < WORD_SPAN
    requires header == Le32(|f.data|) + Le32(offset) + Le32(|f.name| + 1)
    requires a1 == Pwrite(a0, header, pos) && a2 == Pwrite(a1, f.name + [0], pos + FILE_HEADER)
    requires a3 == Pwrite(a2, Padded(f.data), offset)
    ensures IsPart(a3, files + [f], base)
  {
    BytesLength(files, base);
    assert |header| == FILE_HEADER;
    ThreeWrites(Heads(files, base), base, Datas(files), header, f.name + [0], Padded(f.data), pos, offset,
                a0, a1, a2, a3);
    PartGrows(files, base, f, a3, offset);
  }

  lemma Closed(a: seq<Byte>, files: seq<File>, base: nat)
    requires IsPart(a, files, base) && HeaderPos(files, |files|) + FILE_HEADER <= base
    ensures IsImage(Pwrite(a, Zeros(FILE_HEADER), HeaderPos(files, |files|)), files, base)
  {
    BytesLength(files, base);
    PwriteHead(Heads(files, base), base, Datas(files), Zeros(FILE_HEADER));
  }

  /** The total header size, as create computes it before writing. */
  method CountHeaders(inputs: seq<Input>) returns (totalHdrSize: U32)
    requires ArchiveSize(inputs) < WORD_SPAN
    ensures totalHdrSize == Base(inputs)
  {
    totalHdrSize := 0;
    for i := 0 to |inputs|
      invariant totalHdrSize == HeadersSize(inputs, i)
    {
      HeadersCounted(inputs, i + 1);
      totalHdrSize := totalHdrSize + FILE_HEADER;
      totalHdrSize := totalHdrSize + |inputs[i].name| + 1;
    }
    HeadersCounted(inputs, |inputs|);
    totalHdrSize := totalHdrSize + ARCHIVE_HEADER;
    totalHdrSize := totalHdrSize + FILE_HEADER;
    PAlignFits(totalHdrSize);
    totalHdrSize := PAlign(totalHdrSize);
  }

  /** The three writes for one file: header and name at the file position, which moves past
      them, and the padded contents at their offset, which moves to the next page. */
  method WriteFile(archive: seq<Byte>, f: File, pos: nat, offset: U32, ghost files: seq<File>, ghost base: nat)
    returns (archive': seq<Byte>, pos': nat, offset': U32)
    requires Stored(archive, files, base) && IsPart(archive, files, base)
    requires pos == HeaderPos(files, |files|) && offset == DataPos(files, base, |files|)
    requires pos + FILE_HEADER + |f.name| + 1 <= base && offset + AlignUp(|f.data|) < WORD_SPAN
    requires |f.name| + 1 < WORD_SPAN
    ensures Stored(archive', files + [f], base) && IsPart(archive', files + [f], base)
    ensures pos' == HeaderPos(files + [f], |files + [f]|) && offset' == DataPos(files + [f], base, |files + [f]|)
  {
    NextPositions(files, f, base);
    PAlignFits(|f.data|);
    var header := Le32(|f.data|) + Le32(offset) + Le32(|f.name| + 1);
    var padding := PAlign(|f.data|) - |f.data|;
    var a1 := Pwrite(archive, header, pos);
    var a2 := Pwrite(a1, f.name + [0], pos + FILE_HEADER);
    archive' := Pwrite(a2, f.data + Zeros(padding), offset);
    FileWritten(archive, a1, a2, archive', files, base, f, pos, offset);
    FileFramed(files, base, f, archive, a1, a2, archive', header, pos, offset);
    pos' := pos + FILE_HEADER + |f.name| + 1;
    offset' := offset + PAlign(|f.data|);
  }

  /** The next file that opens has room, and where the one after it goes. */
  lemma FileFits(inputs: seq<Input>, i: nat, files: seq<File>, f: File, base: nat)
    requires i < |inputs| && inputs[i].data.Some? && ArchiveSize(inputs) < WORD_SPAN
    requires files == Files(inputs[..i]) && f == File(inputs[i].name, inputs[i].data.value) && base == Base(inputs)
    ensures files + [f] == Files(inputs[..i + 1])
    ensures HeaderPos(files, |files|) + FILE_HEADER + |f.name| + 1 + FILE_HEADER <= base < WORD_SPAN
    ensures DataPos(files, base, |files|) + AlignUp(|f.data|) < WORD_SPAN
    ensures HeaderPos(files + [f], |files + [f]|) == HeaderPos(files, |files|) + FILE_HEADER + |f.name| + 1
  {
    FilesOneMore(inputs, i);
    OffsetsFit(inputs, i + 1);
    NextPositions(files, f, base);
  }

  /** What create has written for the first k inputs, and where it goes on. */
  ghost predicate Writing(a: seq<Byte>, inputs: seq<Input>, k: nat, files: seq<File>, pos: nat, offset: nat)
    requires k <= |inputs|
  {
    && files == Files(inputs[..k]) && Stored(a, files, Base(inputs)) && IsPart(a, files, Base(inputs))
    && pos == HeaderPos(files, |files|) && offset == DataPos(files, Base(inputs), |files|)
  }

  /** One round of create: a file that fails to open is skipped. */
  method AddInput(archive: seq<Byte>, inputs: seq<Input>, i: nat, pos: nat, lastFhdrAddr: U32, offset: U32,
                  ghost files: seq<File>)
    returns (archive': seq<Byte>, pos': nat, lastFhdrAddr': U32, offset': U32, ghost files': seq<File>)
    requires i < |inputs| && ArchiveSize(inputs) < WORD_SPAN && pos == lastFhdrAddr
    requires Writing(archive, inputs, i, files, pos, offset)
    ensures Writing(archive', inputs, i + 1, files', pos', offset') && pos' == lastFhdrAddr'
  {
    FilesOneMore(inputs, i);
    if inputs[i].data.None? {
      return archive, pos, lastFhdrAddr, offset, files;
    }
    var f := File(inputs[i].name, inputs[i].data.value);
    FileFits(inputs, i, files, f, Base(inputs));
    lastFhdrAddr' := lastFhdrAddr + FILE_HEADER + |f.name| + 1;
    archive', pos', offset' := WriteFile(archive, f, pos, offset, files, Base(inputs));
    files' := files + [f];
  }

  /** create: for inputs whose archive is smaller than 4 GiB, the archive of those files
      that open, in the order given, and no other byte. */
  method Create(inputs: seq<Input>) returns (archive: seq<Byte>)
    requires ArchiveSize(inputs) < WORD_SPAN
    ensures Archive(archive, Files(inputs), Base(inputs)) && IsImage(archive, Files(inputs), Base(inputs))
  {
    var lastFhdrAddr: U32 := ARCHIVE_HEADER;
    archive := Pwrite([], Le32(SAR_MAGIC), 0);
    var pos: nat := ARCHIVE_HEADER;
    var lastFileOffset := CountHeaders(inputs);
    ghost var files := [];
    for i := 0 to |inputs|
      invariant Writing(archive, inputs, i, files, pos, lastFileOffset) && pos == lastFhdrAddr
    {
      archive, pos, lastFhdrAddr, lastFileOffset, files :=
        AddInput(archive, inputs, i, pos, lastFhdrAddr, lastFileOffset, files);
    }
    assert inputs[..|inputs|] == inputs;
    OffsetsFit(inputs, |inputs|);
    Terminated(archive, files, Base(inputs));
    Closed(archive, files, Base(inputs));
    archive := Pwrite(archive, Zeros(FILE_HEADER), lastFhdrAddr);
  }

  // ----- the readers -----

  datatype Entry = Entry(size: U32, offset: U32, namelen: U32, name: Name)

  function WordAt(a: seq<Byte>, pos: nat): U32
    requires pos + 4 <= |a|
  {
    FromLe32(a[pos..pos + 4])
  }

  /** The C string at a position, if it ends inside the archive. */
  function CStringAt(a: seq<Byte>, pos: nat): (name: Option<Name>)
    decreases |a| - pos
  {
    if pos >= |a| then None
    else if a[pos] == 0 then Some([])
    else match CStringAt(a, pos + 1)
      case None => None
      case Some(rest) => Some([a[pos]] + rest)
  }

  /** The header at a position, if it and its name lie inside the archive. */
  function EntryAt(a: seq<Byte>, pos: nat): (e: Option<Entry>) {
    if pos + FILE_HEADER > |a| then None
    else match CStringAt(a, pos + FILE_HEADER)
      case None => None
      case Some(name) => Some(Entry(WordAt(a, pos), WordAt(a, pos + 4), WordAt(a, pos + 8), name))
  }

  /** The loop condition of the walk: not all of the fields are zero. */
  predicate Terminates(a: seq<Byte>, pos: nat)
    requires pos + FILE_HEADER <= |a|
  {
    WordAt(a, pos) == 0 && WordAt(a, pos + 4) == 0 && WordAt(a, pos + 8) == 0
  }

  /** The headers from a position up to the terminator, if the walk stays inside the archive. */
  function Walk(a: seq<Byte>, pos: nat): (entries: Option<seq<Entry>>)
    decreases |a| - pos
  {
    if pos + FILE_HEADER > |a| then None
    else if Terminates(a, pos) then Some([])
    else match EntryAt(a, pos)
      case None => None
      case Some(e) =>
        match Walk(a, pos + FILE_HEADER + e.namelen)
        case None => None
        case Some(rest) => Some([e] + rest)
  }

  /** The bytes that extract writes for an entry. */
  function Contents(a: seq<Byte>, e: Entry): (data: Option<seq<Byte>>) {
    if e.size == 0 then Some([])
    else if e.offset + e.size <= |a| then Some(a[e.offset..e.offset + e.size])
    else None
  }

  lemma {:induction false} NameReads(a: seq<Byte>, pos: nat, name: Name)
    requires Holds(a, pos, name + [0])
    ensures CStringAt(a, pos) == Some(name)
    decreases |name|
  {
    assert a[pos] == (name + [0])[0];
    if name != [] {
      HoldsSplit(a, pos, name[..1], name[1..] + [0]);
      assert name[..1] + (name[1..] + [0]) == name + [0];
      NameReads(a, pos + 1, name[1..]);
      assert [name[0]] + name[1..] == name;
    }
  }

  lemma WordReads(a: seq<Byte>, pos: nat, w: U32)
    requires Holds(a, pos, Le32(w))
    ensures WordAt(a, pos) == w
  {
    Le32RoundTrip(w);
  }

  lemma HeaderParts(a: seq<Byte>, pos: nat, size: U32, offset: U32, namelen: U32, name: seq<Byte>)
    requires Holds(a, pos, Le32(size) + Le32(offset) + Le32(namelen) + name)
    ensures Holds(a, pos, Le32(size)) && Holds(a, pos + 4, Le32(offset)) && Holds(a, pos + 8, Le32(namelen))
    ensures Holds(a, pos + FILE_HEADER, name)
  {
    HoldsSplit(a, pos, Le32(size) + Le32(offset) + Le32(namelen), name);
    HoldsSplit(a, pos, Le32(size) + Le32(offset), Le32(namelen));
    HoldsSplit(a, pos, Le32(size), Le32(offset));
  }

  /** What create wrote for a file is read back, and is never taken for the terminator. */
  lemma HeaderReads(a: seq<Byte>, f: File, pos: nat, offset: nat)
    requires Entered(a, f, pos, offset)
    ensures EntryAt(a, pos) == Some(Entry(|f.data|, offset, |f.name| + 1, f.name))
    ensures !Terminates(a, pos)
    ensures Contents(a, EntryAt(a, pos).value) == Some(f.data)
  {
    HeaderParts(a, pos, |f.data|, offset, |f.name| + 1, f.name + [0]);
    WordReads(a, pos, |f.data|);
    WordReads(a, pos + 4, offset);
    WordReads(a, pos + 8, |f.name| + 1);
    NameReads(a, pos + FILE_HEADER, f.name);
    ContentsRead(a, f, offset, Entry(|f.data|, offset, |f.name| + 1, f.name));
  }

  lemma ContentsRead(a: seq<Byte>, f: File, offset: U32, e: Entry)
    requires f.data != [] ==> Holds(a, offset, Padded(f.data))
    requires e.size == |f.data| && e.offset == offset
    ensures Contents(a, e) == Some(f.data)
  {
    if f.data != [] { HoldsSplit(a, offset, f.data, Zeros(AlignUp(|f.data|) - |f.data|)); }
  }

  /** The i-th of the entries names, measures and locates the k-th of the files. */
  ghost predicate Describes(a: seq<Byte>, e: Entry, files: seq<File>, base: nat, k: nat)
    requires k < |files|
  {
    && e.name == files[k].name && e.namelen == |files[k].name| + 1
    && e.size == |files[k].data| && e.offset == DataPos(files, base, k)
    && Contents(a, e) == Some(files[k].data)
  }

  ghost predicate DescribesAll(a: seq<Byte>, entries: seq<Entry>, files: seq<File>, base: nat, from: nat)
    requires from <= |files|
  {
    && |entries| == |files| - from
    && forall i :: 0 <= i < |entries| ==> Describes(a, entries[i], files, base, from + i)
  }

  lemma DescribesMore(a: seq<Byte>, e: Entry, rest: seq<Entry>, files: seq<File>, base: nat, k: nat)
    requires k < |files| && Describes(a, e, files, base, k) && DescribesAll(a, rest, files, base, k + 1)
    ensures DescribesAll(a, [e] + rest, files, base, k)
  {
    forall i | 0 <= i < 1 + |rest| ensures Describes(a, ([e] + rest)[i], files, base, k + i) {
      if i > 0 {
        assert Describes(a, rest[i - 1], files, base, k + 1 + (i - 1));
      }
    }
  }

  lemma WalkStep(a: seq<Byte>, pos: nat, e: Entry, rest: seq<Entry>)
    requires EntryAt(a, pos) == Some(e) && !Terminates(a, pos)
    requires Walk(a, pos + FILE_HEADER + e.namelen) == Some(rest)
    ensures Walk(a, pos) == Some([e] + rest)
  {}

  /** Reading what was written: the header walk over an archive ends at its terminator, and
      yields exactly the files, in order. */
  lemma WalkReadsBack(a: seq<Byte>, files: seq<File>, base: nat, k: nat)
    requires Archive(a, files, base) && k <= |files|
    ensures var entries := Walk(a, HeaderPos(files, k));
      entries.Some? && DescribesAll(a, entries.value, files, base, k)
  {
    TerminatorReads(a, HeaderPos(files, |files|));
    ReadRest(a, files, base, k);
  }

  /** From a position on, the walk yields the files from the k-th on. */
  ghost predicate Walked(a: seq<Byte>, pos: nat, files: seq<File>, base: nat, k: nat)
    requires k <= |files|
  {
    Walk(a, pos).Some? && DescribesAll(a, Walk(a, pos).value, files, base, k)
  }

  lemma {:induction false} ReadRest(a: seq<Byte>, files: seq<File>, base: nat, k: nat)
    requires k <= |files| && Stored(a, files, base) && Walked(a, HeaderPos(files, |files|), files, base, |files|)
    ensures Walked(a, HeaderPos(files, k), files, base, k)
    decreases |files| - k
  {
    if k < |files| {
      ReadRest(a, files, base, k + 1);
      ReadOne(a, files, base, k);
    }
  }

  lemma ReadOne(a: seq<Byte>, files: seq<File>, base: nat, k: nat)
    requires k < |files| && Stored(a, files, base) && Walked(a, HeaderPos(files, k + 1), files, base, k + 1)
    ensures Walked(a, HeaderPos(files, k), files, base, k)
  {
    KthReads(a, files, base, k);
    WalkReadsOne(a, HeaderPos(files, k), HeaderPos(files, k + 1), files, base, k);
  }

  lemma WalkReadsOne(a: seq<Byte>, pos: nat, next: nat, files: seq<File>, base: nat, k: nat)
    requires k < |files| && EntryAt(a, pos).Some? && !Terminates(a, pos)
    requires next == pos + FILE_HEADER + EntryAt(a, pos).value.namelen
    requires Describes(a, EntryAt(a, pos).value, files, base, k)
    requires Walked(a, next, files, base, k + 1)
    ensures Walked(a, pos, files, base, k)
  {
    WalkStep(a, pos, EntryAt(a, pos).value, Walk(a, next).value);
    DescribesMore(a, EntryAt(a, pos).value, Walk(a, next).value, files, base, k);
  }

  lemma KthReads(a: seq<Byte>, files: seq<File>, base: nat, k: nat)
    requires k < |files| && Stored(a, files, base)
    ensures var e := EntryAt(a, HeaderPos(files, k));
      && e.Some? && !Terminates(a, HeaderPos(files, k))
      && Describes(a, e.value, files, base, k)
      && HeaderPos(files, k + 1) == HeaderPos(files, k) + FILE_HEADER + e.value.namelen
  {
    assert KthEntered(a, files, base, k);
    HeaderReads(a, files[k], HeaderPos(files, k), DataPos(files, base, k));
  }

  lemma ReadsBack(a: seq<Byte>, files: seq<File>, base: nat)
    requires Archive(a, files, base)
    ensures var entries := Walk(a, ARCHIVE_HEADER);
      && entries.Some? && |entries.value| == |files|
      && forall i :: 0 <= i < |files| ==> Describes(a, entries.value[i], files, base, i)
  {
    WalkReadsBack(a, files, base, 0);
    var entries := Walk(a, ARCHIVE_HEADER).value;
    forall i | 0 <= i < |files| ensures Describes(a, entries[i], files, base, i) {
      assert Describes(a, entries[i], files, base, 0 + i);
    }
  }

  /** The walk ends at a header of zeros, and nowhere else. */
  lemma TerminatesIff(a: seq<Byte>, pos: nat)
    requires pos + FILE_HEADER <= |a|
    ensures Terminates(a, pos) <==> Holds(a, pos, Zeros(FILE_HEADER))
  {
    var z: U32 := 0;
    assert Le32(z) == Zeros(4) && Zeros(FILE_HEADER) == Le32(z) + Le32(z) + Le32(z);
    HoldsSplit(a, pos, Le32(z) + Le32(z), Le32(z));
    HoldsSplit(a, pos, Le32(z), Le32(z));
    WordIsZeroIff(a, pos);
    WordIsZeroIff(a, pos + 4);
    WordIsZeroIff(a, pos + 8);
  }

  lemma WordIsZeroIff(a: seq<Byte>, pos: nat)
    requires pos + 4 <= |a|
    ensures WordAt(a, pos) == 0 <==> Holds(a, pos, Le32(0))
  {
    if WordAt(a, pos) == 0 {
      FromLe32RoundTrip(a[pos..pos + 4]);
    } else if Holds(a, pos, Le32(0)) {
      WordReads(a, pos, 0);
    }
  }

  /** One step of the walk. */
  lemma WalkNext(a: seq<Byte>, pos: nat, entries: seq<Entry>, k: nat)
    requires k <= |entries| && Walk(a, pos) == Some(entries[k..]) && !Terminates(a, pos)
    ensures k < |entries| && EntryAt(a, pos) == Some(entries[k])
    ensures Walk(a, pos + FILE_HEADER + entries[k].namelen) == Some(entries[k + 1..])
    ensures pos + FILE_HEADER <= |a|
  {
    var e := EntryAt(a, pos).value;
    var tail, rest := entries[k..], Walk(a, pos + FILE_HEADER + e.namelen).value;
    assert tail == [e] + rest;
    assert |tail| == |entries| - k && tail[0] == e && tail[1..] == rest;
    assert entries[k + 1..] == tail[1..];
  }

  lemma TerminatorReads(a: seq<Byte>, pos: nat)
    requires Holds(a, pos, Zeros(FILE_HEADER))
    ensures Walk(a, pos) == Some([])
  {
    TerminatesIff(a, pos);
  }

  /** Contents start on pages of their own, behind all headers and the terminator, and no two
      overlap. */
  lemma LayoutIsSafe(a: seq<Byte>, files: seq<File>, base: nat, i: nat, j: nat)
    requires Archive(a, files, base) && i <= j < |files|
    ensures Walk(a, ARCHIVE_HEADER).Some?
    ensures var entries := Walk(a, ARCHIVE_HEADER).value;
      && |entries| == |files|
      && entries[i].offset % 4096 == 0
      && HeaderPos(files, |files|) + FILE_HEADER <= entries[i].offset
      && (i < j ==> entries[i].offset + entries[i].size <= entries[j].offset)
  {
    ReadsBack(a, files, base);
    var entries := Walk(a, ARCHIVE_HEADER).value;
    assert Describes(a, entries[i], files, base, i) && Describes(a, entries[j], files, base, j);
    PositionsGrow(files, base, i, j);
    DataAligned(files, base, i);
  }

  lemma {:induction false} DataAligned(files: seq<File>, base: nat, k: nat)
    requires k <= |files| && base % 4096 == 0
    ensures DataPos(files, base, k) % 4096 == 0
  {
    if k > 0 { DataAligned(files, base, k - 1); }
  }

  /** Every header up to the terminator, with its name and contents, lies inside the archive. */
  ghost predicate WellFormed(a: seq<Byte>) {
    Walk(a, ARCHIVE_HEADER).Some? && forall e :: e in Walk(a, ARCHIVE_HEADER).value ==> Contents(a, e).Some?
  }

  ghost predicate Unpacks(a: seq<Byte>, f: File, e: Entry) {
    f.name == e.name && Contents(a, e) == Some(f.data)
  }

  lemma ContentsInside(a: seq<Byte>, k: nat)
    requires WellFormed(a) && k < |Walk(a, ARCHIVE_HEADER).value|
    ensures Contents(a, Walk(a, ARCHIVE_HEADER).value[k]).Some?
  {}

  /** One round of extract: the file that a header describes, and where the next header is. */
  method Unpack(a: seq<Byte>, fhdr: nat, ghost e: Entry) returns (f: File, next: nat)
    requires EntryAt(a, fhdr) == Some(e) && Contents(a, e).Some?
    ensures Unpacks(a, f, e) && next == fhdr + FILE_HEADER + e.namelen
  {
    var size: nat, offset: nat, namelen: nat := WordAt(a, fhdr), WordAt(a, fhdr + 4), WordAt(a, fhdr + 8);
    var name := CStringAt(a, fhdr + FILE_HEADER).value;
    f := File(name, if size == 0 then [] else a[offset..offset + size]);
    next := fhdr + FILE_HEADER + namelen;
  }

  /** extract, for a well-formed archive. */
  method Extract(a: seq<Byte>) returns (files: seq<File>)
    requires WellFormed(a)
    ensures var entries := Walk(a, ARCHIVE_HEADER).value;
      |files| == |entries| && forall i :: 0 <= i < |files| ==> Unpacks(a, files[i], entries[i])
  {
    ghost var entries := Walk(a, ARCHIVE_HEADER).value;
    files := [];
    var fhdr := ARCHIVE_HEADER;
    ghost var k := 0;
    while !Terminates(a, fhdr)
      invariant k == |files| <= |entries| && Walk(a, fhdr) == Some(entries[k..])
      invariant forall i :: 0 <= i < |files| ==> Unpacks(a, files[i], entries[i])
      decreases |a| - fhdr
    {
      WalkNext(a, fhdr, entries, k);
      ContentsInside(a, k);
      var f;
      f, fhdr := Unpack(a, fhdr, entries[k]);
      files, k := files + [f], k + 1;
    }
  }

  /** Entry k is the first with the name. */
  ghost predicate IsFirst(entries: seq<Entry>, fname: Name, k: nat) {
    k < |entries| && entries[k].name == fname && forall i :: 0 <= i < k ==> entries[i].name != fname
  }

  ghost predicate NoneNamed(entries: seq<Entry>, fname: Name) {
    forall i :: 0 <= i < |entries| ==> entries[i].name != fname
  }

  /** Where the search for a name ends: at a header with the name, or with nothing at the
      terminator. None if it leaves the archive before. */
  function Seek(a: seq<Byte>, pos: nat, fname: Name): (found: Option<Option<nat>>)
    ensures found.Some? && found.value.Some? ==>
      EntryAt(a, found.value.value).Some? && EntryAt(a, found.value.value).value.name == fname
    decreases |a| - pos
  {
    if pos + FILE_HEADER > |a| then None
    else if Terminates(a, pos) then Some(None)
    else match EntryAt(a, pos)
      case None => None
      case Some(e) => if e.name == fname then Some(Some(pos)) else Seek(a, pos + FILE_HEADER + e.namelen, fname)
  }

  /** What the search finds in an archive that can be walked to its end: the first of the
      entries with the name, or nothing if none has it. */
  ghost predicate Finds(a: seq<Byte>, found: Option<nat>, entries: seq<Entry>, fname: Name) {
    match found
    case None => NoneNamed(entries, fname)
    case Some(pos) => exists k: nat :: IsFirst(entries, fname, k) && EntryAt(a, pos) == Some(entries[k])
  }

  lemma {:induction false} SeekFinds(a: seq<Byte>, pos: nat, fname: Name)
    requires Walk(a, pos).Some?
    ensures Seek(a, pos, fname).Some? && Finds(a, Seek(a, pos, fname).value, Walk(a, pos).value, fname)
    decreases |a| - pos
  {
    if !Terminates(a, pos) {
      var entries, e := Walk(a, pos).value, EntryAt(a, pos).value;
      if e.name == fname {
        assert IsFirst(entries, fname, 0);
      } else {
        var next := pos + FILE_HEADER + e.namelen;
        SeekFinds(a, next, fname);
        FindsLater(a, Seek(a, next, fname).value, e, Walk(a, next).value, fname);
      }
    }
  }

  lemma FindsLater(a: seq<Byte>, found: Option<nat>, e: Entry, rest: seq<Entry>, fname: Name)
    requires e.name != fname && Finds(a, found, rest, fname)
    ensures Finds(a, found, [e] + rest, fname)
  {
    if found.Some? {
      var k: nat :| IsFirst(rest, fname, k) && EntryAt(a, found.value) == Some(rest[k]);
      assert IsFirst([e] + rest, fname, k + 1) && ([e] + rest)[k + 1] == rest[k];
    }
  }

  /** sar_lookup, where the search stays inside the archive. */
  method Lookup(a: seq<Byte>, fname: Name) returns (fhdr: Option<nat>)
    requires Seek(a, ARCHIVE_HEADER, fname).Some?
    ensures Seek(a, ARCHIVE_HEADER, fname) == Some(fhdr)
  {
    var pos := ARCHIVE_HEADER;
    while !Terminates(a, pos)
      invariant pos + FILE_HEADER <= |a| && Seek(a, pos, fname) == Seek(a, ARCHIVE_HEADER, fname)
      decreases |a| - pos
    {
      var e := EntryAt(a, pos).value;
      if e.name == fname {
        return Some(pos);
      }
      pos := pos + FILE_HEADER + e.namelen;
    }
    fhdr := None;
  }

  /** sar_get_contents: the offset of the first file with the name. */
  method GetContents(a: seq<Byte>, fname: Name) returns (offset: Option<U32>)
    requires Seek(a, ARCHIVE_HEADER, fname).Some?
    ensures match Seek(a, ARCHIVE_HEADER, fname).value
      case None => offset == None
      case Some(pos) => EntryAt(a, pos).Some? && offset == Some(EntryAt(a, pos).value.offset)
  {
    var fhdr := Lookup(a, fname);
    offset := match fhdr case None => None case Some(pos) => Some(WordAt(a, pos + 4));
  }

  lemma CreatedWellFormed(a: seq<Byte>, files: seq<File>, base: nat)
    requires Archive(a, files, base)
    ensures WellFormed(a)
  {
    ReadsBack(a, files, base);
    var entries := Walk(a, ARCHIVE_HEADER).value;
    forall e | e in entries ensures Contents(a, e).Some? {
      var i :| 0 <= i < |entries| && entries[i] == e;
      assert Describes(a, entries[i], files, base, i);
    }
  }

  /** The files of an archive come out as they went in, but for the skipped ones. */
  method CreateThenExtract(inputs: seq<Input>) returns (files: seq<File>)
    requires ArchiveSize(inputs) < WORD_SPAN
    ensures files == Files(inputs)
  {
    var archive := Create(inputs);
    ReadsBack(archive, Files(inputs), Base(inputs));
    CreatedWellFormed(archive, Files(inputs), Base(inputs));
    files := Extract(archive);
    forall i | 0 <= i < |files| ensures files[i] == Files(inputs)[i] {
      assert Describes(archive, Walk(archive, ARCHIVE_HEADER).value[i], Files(inputs), Base(inputs), i);
    }
  }

  function FirstNamed(files: seq<File>, fname: Name): (data: Option<seq<Byte>>) {
    if files == [] then None
    else if files[0].name == fname then Some(files[0].data)
    else FirstNamed(files[1..], fname)
  }

  lemma {:induction false} FirstNamedAt(files: seq<File>, fname: Name, k: nat)
    requires k <= |files| && forall i :: 0 <= i < k ==> files[i].name != fname
    requires k < |files| ==> files[k].name == fname
    ensures FirstNamed(files, fname) == if k < |files| then Some(files[k].data) else None
  {
    if k > 0 { FirstNamedAt(files[1..], fname, k - 1); }
  }

  /** Looking a name up in a new archive finds the bytes of the first file that has it. */
  method CreateThenLookup(inputs: seq<Input>, fname: Name) returns (archive: seq<Byte>, offset: Option<U32>)
    requires ArchiveSize(inputs) < WORD_SPAN
    ensures match FirstNamed(Files(inputs), fname)
      case None => offset == None
      case Some(data) => offset.Some? && (data != [] ==> Holds(archive, offset.value, data))
  {
    archive := Create(inputs);
    ReadsBack(archive, Files(inputs), Base(inputs));
    SeekFinds(archive, ARCHIVE_HEADER, fname);
    offset := GetContents(archive, fname);
    if offset.None? {
      NameMissing(archive, Files(inputs), Base(inputs), fname);
    } else {
      ghost var entries := Walk(archive, ARCHIVE_HEADER).value;
      ghost var k: nat :| IsFirst(entries, fname, k) && offset.value == entries[k].offset;
      NameFound(archive, Files(inputs), Base(inputs), fname, k);
    }
  }

  lemma SameNames(a: seq<Byte>, files: seq<File>, base: nat)
    requires Archive(a, files, base)
    ensures Walk(a, ARCHIVE_HEADER).Some? && |Walk(a, ARCHIVE_HEADER).value| == |files|
    ensures forall i :: 0 <= i < |files| ==> Walk(a, ARCHIVE_HEADER).value[i].name == files[i].name
  {
    ReadsBack(a, files, base);
    forall i | 0 <= i < |files| ensures Walk(a, ARCHIVE_HEADER).value[i].name == files[i].name {
      assert Describes(a, Walk(a, ARCHIVE_HEADER).value[i], files, base, i);
    }
  }

  lemma NameMissing(a: seq<Byte>, files: seq<File>, base: nat, fname: Name)
    requires Archive(a, files, base) && Walk(a, ARCHIVE_HEADER).Some?
    requires NoneNamed(Walk(a, ARCHIVE_HEADER).value, fname)
    ensures FirstNamed(files, fname) == None
  {
    SameNames(a, files, base);
    FirstNamedAt(files, fname, |files|);
  }

  /** The first entry with a name leads to the contents of the first file with it. */
  lemma NameFound(a: seq<Byte>, files: seq<File>, base: nat, fname: Name, k: nat)
    requires Archive(a, files, base) && Walk(a, ARCHIVE_HEADER).Some?
    requires IsFirst(Walk(a, ARCHIVE_HEADER).value, fname, k)
    ensures var data := FirstNamed(files, fname);
      data.Some? && (data.value != [] ==> Holds(a, Walk(a, ARCHIVE_HEADER).value[k].offset, data.value))
  {
    SameNames(a, files, base);
    FirstNamedAt(files, fname, k);
    ReadsBack(a, files, base);
    assert Describes(a, Walk(a, ARCHIVE_HEADER).value[k], files, base, k);
  }
}

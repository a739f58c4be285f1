/** The chunked transfer engine of go/internal/transfer/chunked_transfer.go:
    the chunk manifest a sender builds (offsets, sizes and one SHA-256
    checksum per chunk), the read loop that feeds the digest exactly the
    bytes of one chunk, and the status each side of a transfer moves
    through. The digest itself is a parameter `sha`; sending the metadata
    and the chunks, and receiving them, are placeholders in the source and
    appear here only as their outcomes. */
module ChunkedTransfer {
  import opened Common

  const DefaultChunkSize: int := 1024 * 1024
  /** The size of the buffer the checksum loop reads through. */
  const ReadBufferSize: int := 64 * 1024
  const NanosPerSecond: int := 1_000_000_000

  datatype TransferOptions = TransferOptions(
    chunkSize: int,
    parallelism: int,
    retryCount: int,
    retryDelayNs: int,
    compressData: bool,
    verifyChecksums: bool)

  /** `DefaultTransferOptions`: 1 MiB chunks, five parallel sends, three
      retries one second apart, compression and checksum verification on. */
  function DefaultTransferOptions(): (o: TransferOptions)
    ensures o.chunkSize == 1048576 && o.parallelism == 5 && o.retryCount == 3
    ensures o.retryDelayNs == NanosPerSecond && o.compressData && o.verifyChecksums
  {
    TransferOptions(DefaultChunkSize, 5, 3, NanosPerSecond, true, true)
  }

  /** The `Status` strings of a transfer record; `Blank` is the empty string
      of a record nobody has set a status on yet. */
  datatype Status = Blank | Preparing | Transferring | Receiving | Completed | Failed

  datatype TransferError =
    | OpenFailed | StatFailed | ChecksumFailed | MetadataFailed
    | ChunksFailed | CreateFailed | PreallocateFailed

  datatype ChunkInfo = ChunkInfo(index: int, size: int, offset: int, checksum: string, completed: bool)

  // -----------------------------------------------------------------------
  // Chunk layout
  // -----------------------------------------------------------------------

  /** `(fileSize + chunkSize - 1) / chunkSize`. */
  function ChunkCount(fileSize: nat, chunkSize: nat): nat
    requires chunkSize > 0
  {
    (fileSize + chunkSize - 1) / chunkSize
  }

  /** The size the sender gives chunk `i`: a whole chunk, cut short at the end
      of the file. */
  function ChunkLength(i: nat, fileSize: nat, chunkSize: nat): int
  {
    if i * chunkSize + chunkSize > fileSize then fileSize - i * chunkSize else chunkSize
  }

  function Min(a: int, b: int): int { if a <= b then a else b }

  /** The chunk count is the ceiling of fileSize / chunkSize: enough chunks
      to cover the file, and not one more. */
  lemma ChunkCountIsCeiling(fileSize: nat, chunkSize: nat)
    requires chunkSize > 0
    ensures ChunkCount(fileSize, chunkSize) * chunkSize >= fileSize
    ensures ChunkCount(fileSize, chunkSize) > 0 ==> (ChunkCount(fileSize, chunkSize) - 1) * chunkSize < fileSize
    ensures ChunkCount(fileSize, chunkSize) == 0 <==> fileSize == 0
  {
    var n := ChunkCount(fileSize, chunkSize);
    var t := fileSize + chunkSize - 1;
    var r := t % chunkSize;
    assert t == n * chunkSize + r && 0 <= r < chunkSize;
    assert n * chunkSize == t - r;
    assert (n - 1) * chunkSize == n * chunkSize - chunkSize;
  }

  /** Every chunk is non-empty and lies inside the file; all chunks but the
      last are whole, and the last one ends exactly at the end of the file. */
  lemma ChunkBounds(i: nat, fileSize: nat, chunkSize: nat)
    requires chunkSize > 0 && i < ChunkCount(fileSize, chunkSize)
    ensures 0 < ChunkLength(i, fileSize, chunkSize) <= chunkSize
    ensures i * chunkSize + ChunkLength(i, fileSize, chunkSize) <= fileSize
    ensures i * chunkSize + ChunkLength(i, fileSize, chunkSize) == Min((i + 1) * chunkSize, fileSize)
    ensures i + 1 < ChunkCount(fileSize, chunkSize) ==> ChunkLength(i, fileSize, chunkSize) == chunkSize
    ensures i + 1 == ChunkCount(fileSize, chunkSize) ==> i * chunkSize + ChunkLength(i, fileSize, chunkSize) == fileSize
  {
    var n := ChunkCount(fileSize, chunkSize);
    ChunkCountIsCeiling(fileSize, chunkSize);
    assert (i + 1) * chunkSize == i * chunkSize + chunkSize;
    MulMonotone(i, n - 1, chunkSize);
    if i + 1 < n {
      MulMonotone(i + 1, n - 1, chunkSize);
    }
  }

  lemma MulMonotone(a: nat, b: nat, c: nat)
    requires a <= b
    ensures a * c <= b * c
  {
  }

  /** The sizes of the chunks add up to the size of the file. */
  function SizeSum(k: nat, fileSize: nat, chunkSize: nat): int
  {
    if k == 0 then 0 else SizeSum(k - 1, fileSize, chunkSize) + ChunkLength(k - 1, fileSize, chunkSize)
  }

  lemma {:induction false} SizeSumPrefix(k: nat, fileSize: nat, chunkSize: nat)
    requires chunkSize > 0 && k <= ChunkCount(fileSize, chunkSize)
    ensures SizeSum(k, fileSize, chunkSize) == Min(k * chunkSize, fileSize)
  {
    if k > 0 {
      SizeSumPrefix(k - 1, fileSize, chunkSize);
      ChunkBounds(k - 1, fileSize, chunkSize);
    }
  }

  lemma ChunkSizesSumToFileSize(fileSize: nat, chunkSize: nat)
    requires chunkSize > 0
    ensures SizeSum(ChunkCount(fileSize, chunkSize), fileSize, chunkSize) == fileSize
  {
    ChunkCountIsCeiling(fileSize, chunkSize);
    SizeSumPrefix(ChunkCount(fileSize, chunkSize), fileSize, chunkSize);
  }

  lemma DivBounds(p: nat, chunkSize: nat)
    requires chunkSize > 0
    ensures (p / chunkSize) * chunkSize <= p < (p / chunkSize) * chunkSize + chunkSize
  {
    assert p == (p / chunkSize) * chunkSize + p % chunkSize;
  }

  /** Two whole blocks of `chunkSize` bytes that share a byte are the same block. */
  lemma BlockUnique(p: nat, i: nat, j: nat, chunkSize: nat)
    requires chunkSize > 0
    requires i * chunkSize <= p < i * chunkSize + chunkSize
    requires j * chunkSize <= p < j * chunkSize + chunkSize
    ensures i == j
  {
    if j < i {
      assert (j + 1) * chunkSize == j * chunkSize + chunkSize;
      MulMonotone(j + 1, i, chunkSize);
    } else if i < j {
      assert (i + 1) * chunkSize == i * chunkSize + chunkSize;
      MulMonotone(i + 1, j, chunkSize);
    }
  }

  /** The chunks tile the file: byte `p` lies in chunk p / chunkSize and in no
      other chunk. */
  lemma ChunksTileFile(p: nat, j: nat, fileSize: nat, chunkSize: nat)
    requires chunkSize > 0 && p < fileSize
    requires j < ChunkCount(fileSize, chunkSize)
    ensures p / chunkSize < ChunkCount(fileSize, chunkSize)
    ensures (j * chunkSize <= p < j * chunkSize + ChunkLength(j, fileSize, chunkSize)) <==> j == p / chunkSize
  {
    var i := p / chunkSize;
    var n := ChunkCount(fileSize, chunkSize);
    DivBounds(p, chunkSize);
    ChunkCountIsCeiling(fileSize, chunkSize);
    if i >= n {
      MulMonotone(n, i, chunkSize);
      assert false;
    }
    ChunkBounds(j, fileSize, chunkSize);
    if j * chunkSize <= p < j * chunkSize + ChunkLength(j, fileSize, chunkSize) {
      BlockUnique(p, i, j, chunkSize);
    }
  }

  /** The bytes of chunk `i` of a file. */
  function ChunkData(content: seq<byte>, i: nat, chunkSize: nat): seq<byte>
    requires chunkSize > 0 && i < ChunkCount(|content|, chunkSize)
  {
    ChunkBounds(i, |content|, chunkSize);
    content[i * chunkSize .. i * chunkSize + ChunkLength(i, |content|, chunkSize)]
  }

  /** The first `k` chunks, laid end to end. */
  function JoinChunks(content: seq<byte>, k: nat, chunkSize: nat): seq<byte>
    requires chunkSize > 0 && k <= ChunkCount(|content|, chunkSize)
  {
    if k == 0 then [] else JoinChunks(content, k - 1, chunkSize) + ChunkData(content, k - 1, chunkSize)
  }

  lemma {:induction false} JoinChunksPrefix(content: seq<byte>, k: nat, chunkSize: nat)
    requires chunkSize > 0 && k <= ChunkCount(|content|, chunkSize)
    ensures JoinChunks(content, k, chunkSize) == content[..Min(k * chunkSize, |content|)]
  {
    if k > 0 {
      JoinChunksPrefix(content, k - 1, chunkSize);
      ChunkBounds(k - 1, |content|, chunkSize);
      ChunkCountIsCeiling(|content|, chunkSize);
      MulMonotone(k, ChunkCount(|content|, chunkSize), chunkSize);
      assert (k - 1) * chunkSize < |content| by {
        MulMonotone(k - 1, ChunkCount(|content|, chunkSize) - 1, chunkSize);
      }
    }
  }

  /** Laying all chunks end to end in index order rebuilds the file byte for
      byte. */
  lemma ChunksReassemble(content: seq<byte>, chunkSize: nat)
    requires chunkSize > 0
    ensures JoinChunks(content, ChunkCount(|content|, chunkSize), chunkSize) == content
  {
    ChunkCountIsCeiling(|content|, chunkSize);
    JoinChunksPrefix(content, ChunkCount(|content|, chunkSize), chunkSize);
  }

  /** The example of a 10,500,000-byte file in 1 MiB chunks: eleven chunks,
      the last at offset 10,485,760 holding 14,240 bytes. */
  lemma WorkedExample()
    ensures ChunkCount(10_500_000, DefaultChunkSize) == 11
    ensures 10 * DefaultChunkSize == 10_485_760
    ensures ChunkLength(10, 10_500_000, DefaultChunkSize) == 14_240
  {
  }

  // -----------------------------------------------------------------------
  // The file being read and the checksum loop
  // -----------------------------------------------------------------------

  /** A bad byte `p` makes every read that covers it fail with an I/O error. */
  predicate FaultIn(faultAt: Option<nat>, lo: int, hi: int)
  {
    faultAt.Some? && lo <= faultAt.value < hi
  }

  datatype ReadStatus = ReadOk | Eof | IoError

  /** An open file: fixed content, an optional unreadable byte, and the
      position the next read starts at. */
  class OpenFile {
    const content: seq<byte>
    const faultAt: Option<nat>
    var pos: nat

    constructor (content: seq<byte>, faultAt: Option<nat>)
      ensures this.content == content && this.faultAt == faultAt && pos == 0
    {
      this.content := content;
      this.faultAt := faultAt;
      pos := 0;
    }

    /** `Seek(offset, io.SeekStart)`; seeking past the end is allowed. */
    method Seek(offset: nat)
      modifies this
      ensures pos == offset
    {
      pos := offset;
    }

    /** `Read` into a buffer of `want` bytes: at the end of the file nothing
        and io.EOF; otherwise as many bytes as the buffer and the rest of the
        file allow, or an I/O error if they cover the bad byte. */
    method Read(want: nat) returns (data: seq<byte>, status: ReadStatus)
      modifies this
      ensures old(pos) >= |content| ==> data == [] && status == Eof && pos == old(pos)
      ensures old(pos) < |content| ==>
        var n := Min(want, |content| - old(pos));
        if FaultIn(faultAt, old(pos), old(pos) + n)
        then data == [] && status == IoError && pos == old(pos)
        else data == content[old(pos)..old(pos) + n] && status == ReadOk && pos == old(pos) + n
    {
      if pos >= |content| {
        data, status := [], Eof;
      } else {
        var n := Min(want, |content| - pos);
        if FaultIn(faultAt, pos, pos + n) {
          data, status := [], IoError;
        } else {
          data, status := content[pos..pos + n], ReadOk;
          pos := pos + n;
        }
      }
    }
  }

  /** Where a read of `size` bytes from `offset` stops: the end of the range,
      or the end of the file if that comes first. */
  function ClippedEnd(fileLen: nat, offset: nat, size: int): nat
  {
    if offset >= fileLen then offset
    else if size <= 0 then offset
    else Min(offset + size, fileLen)
  }

  /** The bytes of `[offset, offset+size)` that the file actually has. */
  function RangeBytes(content: seq<byte>, offset: nat, size: int): seq<byte>
  {
    if offset >= |content| then [] else content[offset..ClippedEnd(|content|, offset, size)]
  }

  /** `calculateChunkChecksum`: seek to `offset` and feed the digest the
      bytes read in steps of at most 64 KiB until `size` bytes have been read
      or the file ends. The digest is taken over exactly the bytes of the
      range that lie in the file, and an I/O error is reported exactly when
      the bad byte lies among them. */
  method CalculateChunkChecksum(file: OpenFile, offset: nat, size: int, sha: seq<byte> -> string)
    returns (r: Result<string, TransferError>)
    modifies file
    ensures FaultIn(file.faultAt, offset, ClippedEnd(|file.content|, offset, size)) ==> r == Err(ChecksumFailed)
    ensures !FaultIn(file.faultAt, offset, ClippedEnd(|file.content|, offset, size)) ==>
      r == Ok(sha(RangeBytes(file.content, offset, size)))
  {
    file.Seek(offset);
    var fed: seq<byte> := [];
    var totalRead := 0;
    while totalRead < size
      invariant 0 <= totalRead && (size <= 0 ==> totalRead == 0) && (size > 0 ==> totalRead <= size)
      invariant file.pos == offset + totalRead
      invariant offset + totalRead == ClippedEnd(|file.content|, offset, totalRead)
      invariant fed == RangeBytes(file.content, offset, totalRead)
      invariant !FaultIn(file.faultAt, offset, offset + totalRead)
      decreases size - totalRead
    {
      var readSize := size - totalRead;
      if readSize > ReadBufferSize {
        readSize := ReadBufferSize;
      }
      var data, status := file.Read(readSize);
      if status == IoError {
        return Err(ChecksumFailed);
      }
      if |data| == 0 {
        break;
      }
      fed := fed + data;
      totalRead := totalRead + |data|;
      if status == Eof {
        break;
      }
    }
    assert fed == RangeBytes(file.content, offset, size);
    r := Ok(sha(fed));
  }

  // -----------------------------------------------------------------------
  // Transfer records and the two sides of a transfer
  // -----------------------------------------------------------------------

  /** `FileTransferInfo`. `statusTrail` records every status the record has
      held, in order. */
  class FileTransferInfo {
    var fileId: string
    var fileName: string
    var filePath: string
    var fileSize: int
    var chunkSize: int
    var chunks: array<ChunkInfo>
    var totalChunks: int
    var completed: int
    var startTime: int
    var transferRate: int
    var status: Status
    var error: Option<TransferError>
    ghost var statusTrail: seq<Status>

    /** The record's status is the last one in its trail. */
    ghost predicate Valid()
      reads this
    {
      |statusTrail| > 0 && status == statusTrail[|statusTrail| - 1]
    }

    /** The zero value `&FileTransferInfo{}`. */
    constructor Empty()
      ensures fileId == "" && fileName == "" && filePath == "" && fileSize == 0 && chunkSize == 0
      ensures chunks.Length == 0 && totalChunks == 0 && completed == 0
      ensures status == Blank && error == None && statusTrail == [Blank]
      ensures Valid()
    {
      fileId, fileName, filePath := "", "", "";
      fileSize, chunkSize := 0, 0;
      chunks := new ChunkInfo[0];
      totalChunks, completed, startTime, transferRate := 0, 0, 0, 0;
      status, error := Blank, None;
      statusTrail := [Blank];
    }

    /** The record the sender starts from: status "preparing" and an array of
        `totalChunks` zero chunks. */
    constructor Prepare(fileId: string, filePath: string, fileSize: nat, chunkSize: nat, totalChunks: nat, now: int)
      ensures this.fileId == fileId && this.fileName == Base(filePath) && this.filePath == filePath
      ensures this.fileSize == fileSize && this.chunkSize == chunkSize && this.totalChunks == totalChunks
      ensures fresh(chunks) && chunks.Length == totalChunks && completed == 0 && startTime == now
      ensures status == Preparing && error == None && statusTrail == [Preparing]
      ensures Valid()
    {
      this.fileId, this.fileName, this.filePath := fileId, Base(filePath), filePath;
      this.fileSize, this.chunkSize, this.totalChunks := fileSize, chunkSize, totalChunks;
      chunks := new ChunkInfo[totalChunks];
      completed, startTime, transferRate := 0, now, 0;
      status, error := Preparing, None;
      statusTrail := [Preparing];
    }

    method SetStatus(s: Status)
      requires Valid()
      modifies this
      ensures Valid()
      ensures status == s && statusTrail == old(statusTrail) + [s]
      ensures error == old(error) && chunks == old(chunks)
      ensures fileId == old(fileId) && fileName == old(fileName) && fileSize == old(fileSize)
      ensures chunkSize == old(chunkSize) && totalChunks == old(totalChunks)
    {
      status := s;
      statusTrail := statusTrail + [s];
    }

    method Fail(e: TransferError)
      requires Valid()
      modifies this
      ensures Valid()
      ensures status == Failed && error == Some(e) && statusTrail == old(statusTrail) + [Failed]
      ensures chunks == old(chunks)
      ensures fileId == old(fileId) && fileName == old(fileName) && fileSize == old(fileSize)
      ensures chunkSize == old(chunkSize) && totalChunks == old(totalChunks)
    {
      status, error := Failed, Some(e);
      statusTrail := statusTrail + [Failed];
    }
  }

  /** Manifest entry `i` of a file: its index, size and offset, the digest of
      its bytes, and not yet completed. */
  function ManifestEntry(content: seq<byte>, i: nat, chunkSize: nat, sha: seq<byte> -> string): ChunkInfo
  {
    ChunkInfo(i, ChunkLength(i, |content|, chunkSize), i * chunkSize,
              sha(RangeBytes(content, i * chunkSize, ChunkLength(i, |content|, chunkSize))), false)
  }

  function Manifest(content: seq<byte>, chunkSize: nat, sha: seq<byte> -> string): seq<ChunkInfo>
    requires chunkSize > 0
  {
    seq(ChunkCount(|content|, chunkSize), i requires 0 <= i => ManifestEntry(content, i, chunkSize, sha))
  }

  /** The loop of `SendFileChunked` that fills in the manifest: chunk `i`
      starts at i * chunkSize, is cut short at the end of the file and carries
      the digest of its bytes. It stops at the first checksum error, which
      happens exactly when the file has an unreadable byte. */
  method FillManifest(file: OpenFile, chunks: array<ChunkInfo>, chunkSize: nat, sha: seq<byte> -> string)
    returns (ok: bool)
    requires chunkSize > 0 && chunks.Length == ChunkCount(|file.content|, chunkSize)
    modifies file, chunks
    ensures ok <==> !FaultIn(file.faultAt, 0, |file.content|)
    ensures ok ==> chunks[..] == Manifest(file.content, chunkSize, sha)
  {
    var fileSize := |file.content|;
    var totalChunks := chunks.Length;
    ChunkCountIsCeiling(fileSize, chunkSize);
    var i := 0;
    while i < totalChunks
      invariant 0 <= i <= totalChunks
      invariant forall j :: 0 <= j < i ==> chunks[j] == ManifestEntry(file.content, j, chunkSize, sha)
      invariant !FaultIn(file.faultAt, 0, Min(i * chunkSize, fileSize))
    {
      var offset := i * chunkSize;
      var size := chunkSize;
      if offset + size > fileSize {
        size := fileSize - offset;
      }
      ChunkBounds(i, fileSize, chunkSize);
      var checksum := CalculateChunkChecksum(file, offset, size, sha);
      if checksum.Err? {
        return false;
      }
      chunks[i] := ChunkInfo(i, size, offset, checksum.value, false);
      i := i + 1;
    }
    assert Min(totalChunks * chunkSize, fileSize) == fileSize;
    ok := true;
  }

  /** `SendFileChunked`. Opening and stat-ing the file, sending the metadata
      and sending the chunks are I/O whose outcomes are parameters. The
      manifest is built chunk by chunk before anything is sent; a checksum
      error (the file has an unreadable byte) aborts before the metadata is
      sent, while the record still says "preparing"; otherwise the status
      moves to "transferring" and then to "completed" or "failed". */
  method SendFileChunked(filePath: string, file: OpenFile, openOk: bool, statOk: bool,
                         options: TransferOptions, sha: seq<byte> -> string, fileId: string, now: int,
                         metadataOk: bool, chunksOk: bool)
    returns (err: Option<TransferError>, info: FileTransferInfo?, metadataSent: Option<seq<ChunkInfo>>)
    requires options.chunkSize > 0
    modifies file
    ensures !openOk ==> err == Some(OpenFailed) && info == null && metadataSent == None
    ensures openOk && !statOk ==> err == Some(StatFailed) && info == null && metadataSent == None
    ensures openOk && statOk ==> info != null && fresh(info) && fresh(info.chunks) && info.Valid()
    ensures openOk && statOk ==>
      && info.fileSize == |file.content| && info.chunkSize == options.chunkSize
      && info.totalChunks == ChunkCount(|file.content|, options.chunkSize)
      && info.fileName == Base(filePath) && info.fileId == fileId
    ensures openOk && statOk && FaultIn(file.faultAt, 0, |file.content|) ==>
      err == Some(ChecksumFailed) && metadataSent == None
      && info.status == Preparing && info.error == None && info.statusTrail == [Preparing]
    ensures openOk && statOk && !FaultIn(file.faultAt, 0, |file.content|) ==>
      && info.chunks[..] == Manifest(file.content, options.chunkSize, sha)
      && metadataSent == Some(info.chunks[..])
      && (!metadataOk ==>
            err == Some(MetadataFailed) && info.status == Preparing && info.error == None
            && info.statusTrail == [Preparing])
      && (metadataOk && !chunksOk ==>
            err == Some(ChunksFailed) && info.status == Failed && info.error == Some(ChunksFailed)
            && info.statusTrail == [Preparing, Transferring, Failed])
      && (metadataOk && chunksOk ==>
            err == None && info.status == Completed && info.error == None
            && info.statusTrail == [Preparing, Transferring, Completed])
  {
    metadataSent := None;
    if !openOk {
      return Some(OpenFailed), null, None;
    }
    if !statOk {
      return Some(StatFailed), null, None;
    }
    var chunkSize := options.chunkSize;
    var fileSize := |file.content|;
    var totalChunks := ChunkCount(fileSize, chunkSize);
    info := new FileTransferInfo.Prepare(fileId, filePath, fileSize, chunkSize, totalChunks, now);

    var ok := FillManifest(file, info.chunks, chunkSize, sha);
    if !ok {
      return Some(ChecksumFailed), info, None;
    }

    metadataSent := Some(info.chunks[..]);
    if !metadataOk {
      return Some(MetadataFailed), info, metadataSent;
    }

    info.SetStatus(Transferring);
    if !chunksOk {
      info.Fail(ChunksFailed);
      return Some(ChunksFailed), info, metadataSent;
    }
    info.SetStatus(Completed);
    err := None;
  }

  /** `ReceiveFileChunked`. The metadata arrives as a record (or an error);
      creating and pre-sizing the destination file and receiving the chunks
      are outcomes passed in. Only once the file is ready does the record say
      "receiving", and it then ends "completed" or "failed". */
  method ReceiveFileChunked(destDir: string, metadata: Result<FileTransferInfo, TransferError>,
                            createOk: bool, truncateOk: bool, chunksOk: bool)
    returns (err: Option<TransferError>, destPath: string)
    requires metadata.Ok? ==> metadata.value.Valid()
    modifies if metadata.Ok? then {metadata.value} else {}
    ensures metadata.Err? ==> err == Some(MetadataFailed)
    ensures metadata.Ok? ==> destPath == Join(destDir, metadata.value.fileName) && metadata.value.Valid()
    ensures metadata.Ok? && !createOk ==>
      err == Some(CreateFailed) && metadata.value.status == old(metadata.value.status)
      && metadata.value.error == old(metadata.value.error)
      && metadata.value.statusTrail == old(metadata.value.statusTrail)
    ensures metadata.Ok? && createOk && !truncateOk ==>
      err == Some(PreallocateFailed) && metadata.value.status == old(metadata.value.status)
      && metadata.value.error == old(metadata.value.error)
      && metadata.value.statusTrail == old(metadata.value.statusTrail)
    ensures metadata.Ok? && createOk && truncateOk && !chunksOk ==>
      err == Some(ChunksFailed) && metadata.value.status == Failed && metadata.value.error == Some(ChunksFailed)
      && metadata.value.statusTrail == old(metadata.value.statusTrail) + [Receiving, Failed]
    ensures metadata.Ok? && createOk && truncateOk && chunksOk ==>
      err == None && metadata.value.status == Completed && metadata.value.error == old(metadata.value.error)
      && metadata.value.statusTrail == old(metadata.value.statusTrail) + [Receiving, Completed]
  {
    destPath := "";
    if metadata.Err? {
      return Some(MetadataFailed), destPath;
    }
    var info := metadata.value;
    destPath := Join(destDir, info.fileName);
    if !createOk {
      return Some(CreateFailed), destPath;
    }
    if !truncateOk {
      return Some(PreallocateFailed), destPath;
    }
    info.SetStatus(Receiving);
    if !chunksOk {
      info.Fail(ChunksFailed);
      return Some(ChunksFailed), destPath;
    }
    info.SetStatus(Completed);
    err := None;
  }
  /** A fault-free file sent and received without errors: the record ends
      "completed" on both sides, having passed through every status of the
      sender and then of the receiver. */
  method SendThenReceiveChunked(filePath: string, file: OpenFile, options: TransferOptions,
                                sha: seq<byte> -> string, fileId: string, now: int, destDir: string)
    returns (info: FileTransferInfo)
    requires options.chunkSize > 0 && !FaultIn(file.faultAt, 0, |file.content|)
    modifies file
    ensures info.status == Completed && info.error == None
    ensures info.statusTrail == [Preparing, Transferring, Completed, Receiving, Completed]
  {
    var err, sent, _ := SendFileChunked(filePath, file, true, true, options, sha, fileId, now, true, true);
    info := sent;
    var recvErr, _ := ReceiveFileChunked(destDir, Ok(info), true, true, true);
  }
}

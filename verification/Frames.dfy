/** Frame ingestion: validating a raw BGRA buffer, compacting its rows, and keeping at most the latest frame. */
module Frames {
  import opened Wrappers
  import opened Integers

  const MAX_FRAME_WIDTH: nat := 2_048
  const MAX_FRAME_HEIGHT: nat := 2_048
  const MAX_FRAME_BYTES: nat := 16 * 1024 * 1024
  const BYTES_PER_PIXEL: nat := 4

  datatype FrameStatus = Complete | Incomplete | Invalid

  datatype FrameInput = FrameInput(
    status: FrameStatus, width: nat, height: nat, bytesPerRow: nat, dataSize: nat,
    timestamp: Option<nat>, data: seq<Byte>)

  datatype Metadata = Metadata(width: nat, height: nat, bytesPerRow: nat, byteLen: nat, timestamp: Option<nat>)

  datatype Frame = Frame(metadata: Metadata, bytes: seq<Byte>, digest: nat)

  datatype Metrics = Metrics(
    accepted: nat, invalid: nat, duplicate: nat, dropped: nat, replaced: nat, streamErrors: nat,
    lastFrame: Option<Metadata>)

  datatype FrameError =
    | NotComplete | ZeroDimension | DimensionTooLarge | RowOverflow | StrideTooSmall
    | LengthOverflow | CompactOverflow | SizeOutOfBounds | DataIncomplete

  /** `validate_frame_input`, with the checked multiplications of a 64-bit target. */
  function FrameProblem(i: FrameInput): Option<FrameError> {
    if !i.status.Complete? then Some(NotComplete)
    else if i.width == 0 || i.height == 0 then Some(ZeroDimension)
    else if i.width > MAX_FRAME_WIDTH || i.height > MAX_FRAME_HEIGHT then Some(DimensionTooLarge)
    else if !MulFits(i.width, BYTES_PER_PIXEL) then Some(RowOverflow)
    else if i.bytesPerRow < i.width * BYTES_PER_PIXEL then Some(StrideTooSmall)
    else if !MulFits(i.bytesPerRow, i.height) then Some(LengthOverflow)
    else if !MulFits(i.width * BYTES_PER_PIXEL, i.height) then Some(CompactOverflow)
    else if i.dataSize < i.bytesPerRow * i.height || i.dataSize > MAX_FRAME_BYTES then Some(SizeOutOfBounds)
    else if i.bytesPerRow * i.height > |i.data| || i.width * BYTES_PER_PIXEL * i.height > MAX_FRAME_BYTES then
      Some(DataIncomplete)
    else None
  }

  lemma RowsBound(row: nat, height: nat)
    requires row <= 8_192 && height <= 2_048
    ensures row * height <= 16_777_216
  {
    assert (8_192 - row) * height >= 0;
    assert 8_192 * height == row * height + (8_192 - row) * height;
  }

  /** Which frames are taken in: complete ones of 1 to 2,048 pixels a side, with rows of four bytes a pixel,
      announced and delivered whole within 16 MiB. None of the overflow checks shuts out anything else. */
  lemma FrameAccepted(i: FrameInput)
    ensures FrameProblem(i).None? <==>
      && i.status == Complete && 1 <= i.width <= 2_048 && 1 <= i.height <= 2_048 && 4 * i.width <= i.bytesPerRow
      && i.bytesPerRow * i.height <= i.dataSize <= 16_777_216 && i.bytesPerRow * i.height <= |i.data|
  {
    if i.width <= 2_048 && i.height <= 2_048 {
      RowsBound(i.width * 4, i.height);
    }
  }

  /** Why a frame is refused: the first guard it fails. A row or a compacted frame never overflows, since the
      dimensions were bounded before. */
  lemma FrameRefused(i: FrameInput)
    ensures var problem := FrameProblem(i);
      var sized := 1 <= i.width <= 2_048 && 1 <= i.height <= 2_048;
      var bytes := i.bytesPerRow * i.height;
      && (problem == Some(NotComplete) <==> i.status != Complete)
      && (problem == Some(ZeroDimension) <==> i.status == Complete && (i.width < 1 || i.height < 1))
      && (problem == Some(DimensionTooLarge) <==>
            i.status == Complete && 1 <= i.width && 1 <= i.height && (i.width > 2_048 || i.height > 2_048))
      && (problem == Some(StrideTooSmall) <==> i.status == Complete && sized && i.bytesPerRow < 4 * i.width)
      && (problem == Some(LengthOverflow) <==>
            i.status == Complete && sized && i.bytesPerRow >= 4 * i.width && bytes >= 0x1_0000_0000_0000_0000)
      && (problem == Some(SizeOutOfBounds) <==>
            && i.status == Complete && sized && i.bytesPerRow >= 4 * i.width && bytes < 0x1_0000_0000_0000_0000
            && (bytes > i.dataSize || i.dataSize > 16_777_216))
      && problem != Some(RowOverflow) && problem != Some(CompactOverflow)
  {
    if i.width <= 2_048 && i.height <= 2_048 {
      RowsBound(i.width * 4, i.height);
    }
  }

  // ---------- compaction ----------

  lemma {:induction false} RowBounds(r: nat, h: nat, stride: nat, row: nat)
    requires r < h && row <= stride
    ensures r * stride + row <= (r + 1) * stride <= h * stride
  {
    assert (r + 1) * stride == r * stride + stride;
    if r + 1 < h {
      assert h * stride == (h - 1) * stride + stride;
      RowBounds(r, h - 1, stride, row);
    }
  }

  function Cell(r: nat, c: nat, row: nat): nat { r * row + c }

  /** The bytes of `n` rows: in row `r`, column `c` stands what the buffer holds there. */
  ghost predicate Compacted(bytes: seq<Byte>, data: seq<Byte>, n: nat, stride: nat, row: nat) {
    && |bytes| == n * row
    && forall r, c :: 0 <= r < n && 0 <= c < row ==>
         Cell(r, c, row) < |bytes| && Cell(r, c, stride) < |data| && bytes[Cell(r, c, row)] == data[Cell(r, c, stride)]
  }

  lemma CellBounds(r: nat, c: nat, n: nat, row: nat)
    requires r < n && c < row
    ensures Cell(r, c, row) < n * row
  {
    RowBounds(r, n, row, row);
  }

  lemma CompactedMore(bytes: seq<Byte>, data: seq<Byte>, n: nat, stride: nat, row: nat)
    requires Compacted(bytes, data, n, stride, row) && n * stride + row <= |data|
    ensures Compacted(bytes + data[n * stride..n * stride + row], data, n + 1, stride, row)
  {
    var more := bytes + data[n * stride..n * stride + row];
    assert |more| == (n + 1) * row;
    forall r, c | 0 <= r < n + 1 && 0 <= c < row
      ensures Cell(r, c, row) < |more| && Cell(r, c, stride) < |data|
      ensures more[Cell(r, c, row)] == data[Cell(r, c, stride)]
    {
      CellBounds(r, c, n + 1, row);
      if r < n {
        CellBounds(r, c, n, row);
        assert bytes[Cell(r, c, row)] == data[Cell(r, c, stride)];
      } else {
        assert Cell(r, c, row) == |bytes| + c && Cell(r, c, stride) == n * stride + c;
      }
    }
  }

  /** The copying loop: every slice it takes is inside the buffer. */
  method CompactRows(i: FrameInput) returns (bytes: seq<Byte>)
    requires FrameProblem(i).None?
    ensures Compacted(bytes, i.data, i.height, i.bytesPerRow, i.width * BYTES_PER_PIXEL)
    ensures |bytes| == 4 * i.width * i.height <= MAX_FRAME_BYTES
  {
    bytes := [];
    var row := i.width * BYTES_PER_PIXEL;
    for r := 0 to i.height
      invariant Compacted(bytes, i.data, r, i.bytesPerRow, row)
    {
      RowBounds(r, i.height, i.bytesPerRow, row);
      CompactedMore(bytes, i.data, r, i.bytesPerRow, row);
      bytes := bytes + i.data[r * i.bytesPerRow..r * i.bytesPerRow + row];
    }
    assert i.height * row == 4 * i.width * i.height;
  }

  /** The input `ingest_owned` validates for a frame it is handed. */
  function OwnedInput(f: Frame): FrameInput {
    var m := f.metadata;
    FrameInput(Complete, m.width, m.height, m.bytesPerRow, |f.bytes|, m.timestamp, f.bytes)
  }

  function CompactMetadata(i: FrameInput, byteLen: nat): Metadata {
    Metadata(i.width, i.height, i.width * BYTES_PER_PIXEL, byteLen, i.timestamp)
  }

  /** A compacted frame is itself a valid frame: handed back, it is accepted unchanged. */
  lemma CompactFrameIsValid(i: FrameInput, bytes: seq<Byte>, digest: nat)
    requires FrameProblem(i).None? && |bytes| == 4 * i.width * i.height
    ensures FrameProblem(OwnedInput(Frame(CompactMetadata(i, |bytes|), bytes, digest))).None?
    ensures CompactMetadata(i, |bytes|) == Metadata(i.width, i.height, 4 * i.width, 4 * i.width * i.height, i.timestamp)
  {
    var row := i.width * BYTES_PER_PIXEL;
    assert row * i.height == 4 * i.width * i.height;
  }

  // ---------- the latest frame and the counters ----------

  datatype Ingest = Ingest(latest: Option<Frame>, metrics: Metrics)

  const EMPTY := Ingest(None, Metrics(0, 0, 0, 0, 0, 0, None))

  function Refused(s: Ingest): Ingest { s.(metrics := s.metrics.(invalid := Bump(s.metrics.invalid))) }

  /** A frame with a digest equal to the latest one's is a duplicate: only its timestamp is taken over. */
  function Commit(s: Ingest, f: Frame): Ingest {
    if s.latest.Some? && s.latest.value.digest == f.digest then
      var kept := s.latest.value.(metadata := s.latest.value.metadata.(timestamp := f.metadata.timestamp));
      Ingest(Some(kept), s.metrics.(duplicate := Bump(s.metrics.duplicate), lastFrame := Some(kept.metadata)))
    else
      Ingest(Some(f), s.metrics.(
        replaced := if s.latest.Some? then Bump(s.metrics.replaced) else s.metrics.replaced,
        lastFrame := Some(f.metadata), accepted := Bump(s.metrics.accepted)))
  }

  function Total(m: Metrics): nat { m.accepted + m.duplicate + m.invalid }

  /** Every frame taken in is counted once, as long as no counter reached its limit. */
  predicate Counted(m: Metrics, ingests: nat) {
    && m.accepted <= ingests && m.duplicate <= ingests && m.invalid <= ingests
    && (ingests < U64_MODULUS ==> Total(m) == ingests)
  }

  lemma CommitCounts(s: Ingest, f: Frame, ingests: nat)
    requires Counted(s.metrics, ingests)
    ensures Counted(Commit(s, f).metrics, ingests + 1) && Counted(Refused(s).metrics, ingests + 1)
  {
  }

  /** What taking a frame in changes. One that looks like the latest leaves its bytes and only renews its time;
      any other takes its place. Each counter counts its own case. */
  lemma CommitExactly(s: Ingest, f: Frame)
    ensures var after := Commit(s, f);
      var same := s.latest.Some? && s.latest.value.digest == f.digest;
      && after.latest.Some? && after.latest.value.digest == f.digest
      && after.latest.value.metadata.timestamp == f.metadata.timestamp
      && after.metrics.lastFrame == Some(after.latest.value.metadata)
      && (!same ==> after.latest == Some(f))
      && (same ==> after.latest.value.bytes == s.latest.value.bytes
                   && after.latest.value.metadata
                      == s.latest.value.metadata.(timestamp := after.latest.value.metadata.timestamp))
      && after.metrics.accepted == (if same then s.metrics.accepted else Bump(s.metrics.accepted))
      && after.metrics.duplicate == (if same then Bump(s.metrics.duplicate) else s.metrics.duplicate)
      && after.metrics.replaced
         == (if !same && s.latest.Some? then Bump(s.metrics.replaced) else s.metrics.replaced)
      && after.metrics.invalid == s.metrics.invalid && after.metrics.dropped == s.metrics.dropped
      && after.metrics.streamErrors == s.metrics.streamErrors
  {
  }

  function CommitAll(s: Ingest, frames: seq<Frame>): Ingest {
    if frames == [] then s else Commit(CommitAll(s, frames[..|frames| - 1]), frames[|frames| - 1])
  }

  /** From an empty ingest, the latest frame holds the bytes of the first of the last frames that look alike,
      whatever stood between it and the end, and the time of the last. */
  lemma {:induction false} LatestIsFirstAlike(frames: seq<Frame>, first: nat)
    requires first < |frames| && (forall k | first <= k < |frames| :: frames[k].digest == frames[first].digest)
    requires first > 0 ==> frames[first - 1].digest != frames[first].digest
    ensures var last := frames[|frames| - 1].metadata.timestamp;
      CommitAll(EMPTY, frames).latest
      == Some(frames[first].(metadata := frames[first].metadata.(timestamp := last)))
  {
    var n := |frames| - 1;
    var before := frames[..n];
    if first < n {
      assert forall k | 0 <= k < n :: before[k] == frames[k];
      LatestIsFirstAlike(before, first);
    } else if n > 0 {
      CommitExactly(CommitAll(EMPTY, before[..n - 1]), before[n - 1]);
      assert before[n - 1] == frames[n - 1];
    }
  }

  class FrameIngest {
    const digest: seq<Byte> -> nat
    var latest: Option<Frame>
    var metrics: Metrics
    ghost var ingests: nat

    constructor (digest: seq<Byte> -> nat)
      ensures View() == EMPTY && Valid() && ingests == 0
    {
      this.digest := digest;
      latest, metrics, ingests := None, Metrics(0, 0, 0, 0, 0, 0, None), 0;
    }

    function View(): Ingest
      reads this
    {
      Ingest(latest, metrics)
    }

    ghost predicate Valid()
      reads this
    {
      Counted(metrics, ingests)
    }

    method IngestFrame(i: FrameInput) returns (r: Result<(), FrameError>)
      requires Valid()
      modifies this
      ensures Valid() && ingests == old(ingests) + 1
      ensures r.Err? <==> FrameProblem(i).Some?
      ensures r.Err? ==> View() == Refused(old(View())) && r.error == FrameProblem(i).value
      ensures r.Ok? ==> exists bytes ::
        && Compacted(bytes, i.data, i.height, i.bytesPerRow, i.width * BYTES_PER_PIXEL)
        && View() == Commit(old(View()), Frame(CompactMetadata(i, |bytes|), bytes, digest(bytes)))
    {
      hide FrameProblem, Counted;
      var problem := FrameProblem(i);
      CommitCounts(View(), Frame(CompactMetadata(i, 0), [], 0), ingests);
      if problem.Some? {
        metrics := metrics.(invalid := Bump(metrics.invalid));
        ingests := ingests + 1;
        return Err(problem.value);
      }
      var bytes := CompactRows(i);
      CommitFrame(Frame(CompactMetadata(i, |bytes|), bytes, 0));
      return Ok(());
    }

    method IngestOwned(f: Frame) returns (r: Result<(), FrameError>)
      requires Valid()
      modifies this
      ensures Valid() && ingests == old(ingests) + 1
      ensures r.Err? <==> FrameProblem(OwnedInput(f)).Some?
      ensures r.Err? ==> View() == Refused(old(View())) && r.error == FrameProblem(OwnedInput(f)).value
      ensures r.Ok? ==>
        View() == Commit(old(View()), Frame(f.metadata.(byteLen := |f.bytes|), f.bytes, digest(f.bytes)))
    {
      hide FrameProblem, Counted;
      var problem := FrameProblem(OwnedInput(f));
      CommitCounts(View(), f, ingests);
      if problem.Some? {
        metrics := metrics.(invalid := Bump(metrics.invalid));
        ingests := ingests + 1;
        return Err(problem.value);
      }
      CommitFrame(f.(metadata := f.metadata.(byteLen := |f.bytes|)));
      return Ok(());
    }

    method CommitFrame(f: Frame)
      requires Valid()
      modifies this
      ensures Valid() && ingests == old(ingests) + 1
      ensures View() == Commit(old(View()), f.(digest := digest(f.bytes)))
    {
      var frame := f.(digest := digest(f.bytes));
      CommitCounts(View(), frame, ingests);
      ingests := ingests + 1;
      if latest.Some? && latest.value.digest == frame.digest {
        metrics := metrics.(duplicate := Bump(metrics.duplicate));
        latest := Some(latest.value.(metadata := latest.value.metadata.(timestamp := frame.metadata.timestamp)));
        metrics := metrics.(lastFrame := Some(latest.value.metadata));
        return;
      }
      if latest.Some? {
        metrics := metrics.(replaced := Bump(metrics.replaced));
      }
      metrics := metrics.(lastFrame := Some(frame.metadata));
      latest := Some(frame);
      metrics := metrics.(accepted := Bump(metrics.accepted));
    }

    method RecordStreamError()
      requires Valid()
      modifies this
      ensures Valid() && ingests == old(ingests)
      ensures View() == old(View()).(metrics := old(metrics).(streamErrors := Bump(old(metrics).streamErrors)))
    {
      metrics := metrics.(streamErrors := Bump(metrics.streamErrors));
    }

    method ClearLatest()
      requires Valid()
      modifies this
      ensures Valid() && ingests == old(ingests) && View() == old(View()).(latest := None)
    {
      latest := None;
    }
  }
}

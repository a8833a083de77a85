// Client::PutObject (src/client.cc:791-984 and 1211-1666): the sequential and the parallel
// multipart upload over a ring of shared buffers. The network, the threads and the caller's
// progress function are oracles; workers act at any moment between dispatch and collection, before
// every byte the reader writes and before every event of its own, and read their buffers one byte
// at a time.
module Upload {
  import opened Wrappers
  import opened Buffers
  import opened Texts
  import opened PartPlan
  import opened Pieces
  import opened Server
  import opened UploadLedger

  lemma PlannedStep(total: nat, size: nat, count: nat, n: nat)
    requires Divides(total, size, count) && 1 <= n <= count
    ensures Offset(size, n) == Offset(size, n - 1) + size
    ensures if n == count then Offset(size, n - 1) <= total <= Offset(size, n) else Offset(size, n) <= total
  {
    NextOffset(size, n - 1);
    if n != count {
      MulMonotone(n, count - 1, size);
    }
  }

  lemma PlannedSizeOf(total: nat, size: nat, count: nat)
    requires Divides(total, size, count)
    ensures total > 0 ==> size > 0
  {
  }

  lemma PlannedLast(data: Bytes, total: nat, size: nat, n: nat)
    requires n >= 1 && total <= |data| && (total == 0 ==> n == 1) && (total > 0 ==> size > 0)
    requires Offset(size, n - 1) <= total <= Offset(size, n - 1) + size && (total > 0 ==> Offset(size, n - 1) < total)
    ensures Piece(Payload(data, Some(total)), size, n) == data[Offset(size, n - 1)..total]
    ensures n == PieceCount(|Payload(data, Some(total))|, size)
  {
    hide Offset, Piece, PieceCount;
    var payload := Payload(data, Some(total));
    LastPiece(payload, size, n);
    assert payload[Offset(size, n - 1)..] == data[Offset(size, n - 1)..total];
  }

  lemma PlannedFull(data: Bytes, total: nat, size: nat, n: nat)
    requires n >= 1 && size > 0 && Offset(size, n) <= |data| && Offset(size, n) <= total
    requires Offset(size, n) == Offset(size, n - 1) + size
    ensures n <= PieceCount(|Payload(data, Some(total))|, size)
    ensures Piece(Payload(data, Some(total)), size, n) == data[Offset(size, n - 1)..Offset(size, n)]
  {
    hide Offset, Piece, PieceCount;
    var payload := Payload(data, Some(total));
    FullPiece(payload, size, n);
    assert payload[Offset(size, n - 1)..Offset(size, n)] == data[Offset(size, n - 1)..Offset(size, n)];
  }

  /** A planned division has as many pieces as planned. */
  lemma PlannedCount(total: nat, size: nat, count: nat)
    requires Divides(total, size, count)
    ensures (total > 0 ==> size > 0) && PieceCount(total, size) == count
  {
    if total > 0 {
      CeilDivUnique(total, size, count);
    }
  }

  /** A planned part that was read in full is the piece its number says, and the last one is the last. */
  lemma PlannedPiece(data: Bytes, total: nat, size: nat, count: nat, n: nat)
    requires Divides(total, size, count) && 1 <= n <= count
    requires (if n == count then total else Offset(size, n)) <= |data|
    ensures var payload := Payload(data, Some(total));
      && (|payload| > 0 ==> size > 0)
      && n <= PieceCount(|payload|, size)
      && Offset(size, n - 1) <= (if n == count then total else Offset(size, n))
      && Piece(payload, size, n) == data[Offset(size, n - 1)..if n == count then total else Offset(size, n)]
      && (n == count ==> |payload| == total && n == PieceCount(|payload|, size))
  {
    PlannedStep(total, size, count, n);
    PlannedSizeOf(total, size, count);
    if n == count {
      PlannedLast(data, total, size, n);
    } else {
      PlannedFull(data, total, size, n);
    }
  }

  /** What reading one byte beyond a part reveals: a short read is the last piece, a full one is not. */
  lemma AheadPiece(data: Bytes, size: nat, n: nat, got: Bytes)
    requires size > 0 && n >= 1 && Offset(size, n - 1) <= |data| && (n > 1 ==> Offset(size, n - 1) < |data|)
    requires var from := Offset(size, n - 1);
      |got| == Min(size + 1, |data| - from) && got == data[from..from + |got|]
    ensures n <= PieceCount(|data|, size)
    ensures Offset(size, n) == Offset(size, n - 1) + size
    ensures if |got| <= size then got == Piece(data, size, n) && n == PieceCount(|data|, size)
            else got[..size] == Piece(data, size, n)
  {
    NextOffset(size, n - 1);
    if |got| <= size {
      LastPiece(data, size, n);
    } else {
      FullPiece(data, size, n);
    }
  }

  /** Two reads in a row, one behind the other. */
  lemma ReadOn(buffer: Bytes, data: Bytes, start: nat, a: nat, b: nat)
    requires a + b <= |buffer| && start + a + b <= |data|
    requires buffer[..a] == data[start..start + a] && buffer[a..a + b] == data[start + a..start + a + b]
    ensures buffer[..a + b] == data[start..start + a + b]
  {
    assert buffer[..a + b] == buffer[..a] + buffer[a..a + b];
  }

  /** The same parts in flight, each at least as far. */
  ghost predicate Progressed(before: seq<Worker>, after: seq<Worker>) {
    && |before| == |after|
    && forall j :: 0 <= j < |after| ==>
         && after[j].number == before[j].number
         && after[j].slot == before[j].slot
         && Remaining(after[j]) <= Remaining(before[j])
  }

  lemma ProgressedTwice(a: seq<Worker>, b: seq<Worker>, c: seq<Worker>)
    requires Progressed(a, b) && Progressed(b, c)
    ensures Progressed(a, c)
  {
  }

  class Session {
    const data: Bytes               // everything the stream will ever yield
    const objectSize: Option<nat>
    const baseSize: nat             // the planned part size
    const planned: Option<nat>      // the planned part count
    const hasProgress: bool
    const pool: seq<array<bv8>>

    var pos: nat                    // read position of the stream
    var partSize: nat
    var uploadedSize: nat
    var partNumber: nat
    var oneByte: Bytes
    var stop: bool
    var partCount: Option<nat>
    var uploadId: string
    var firstError: Option<UploadError>
    var parts: seq<Part>
    var inflight: seq<Worker>
    var bufIdx: nat
    var uploadedBytes: nat
    var history: History

    ghost var dispatched: nat
    ghost var blankId: bool         // the last Create handed out an ID of no use, and no part carries it yet
    ghost var owed: bool            // the part collected last is still to be reported

    ghost function TheJob(): Job {
      Job(Payload(data, objectSize), baseSize, |pool|, Short(data, objectSize), hasProgress)
    }

    ghost predicate Config() {
      && ValidJob(TheJob())
      && (forall i, j :: 0 <= i < j < |pool| ==> pool[i] != pool[j])
      && (forall i :: 0 <= i < |pool| ==> pool[i].Length == if planned.Some? then baseSize else baseSize + 1)
      && (objectSize.Some? <==> planned.Some?)
      && (planned.Some? ==> Divides(objectSize.value, baseSize, planned.value))
      && (planned.None? ==> baseSize > 0)
    }

    /** The buffer of a part in flight still holds the piece of that part. */
    ghost predicate Holds(w: Worker)
      reads pool
    {
      && 1 <= w.number
      && w.slot < |pool|
      && w.size == |Piece(TheJob().payload, baseSize, w.number)| <= pool[w.slot].Length
      && pool[w.slot][..w.size] == Piece(TheJob().payload, baseSize, w.number)
    }

    ghost predicate Buffers()
      reads this`inflight, pool
    {
      forall i :: 0 <= i < |inflight| ==> Holds(inflight[i])
    }

    ghost function Snapshot(): Run
      reads this`history, this`uploadId, this`inflight, this`dispatched, this`firstError, this`blankId
      reads this`parts, this`uploadedBytes, this`owed
    {
      Run(history, uploadId, inflight, dispatched, firstError, blankId, parts, uploadedBytes, owed)
    }

    /** Kept at every moment, between collecting a part and reporting it too. */
    ghost predicate Core()
      reads this`history, this`uploadId, this`inflight, this`dispatched, this`firstError, this`blankId
      reads this`parts, this`uploadedBytes, this`owed, this`bufIdx, pool
    {
      && Config()
      && bufIdx == dispatched % |pool|
      && Buffers()
      && RunOk(TheJob(), Snapshot())
    }

    /** Kept while no report is owed. */
    ghost predicate Inv()
      reads this`history, this`uploadId, this`inflight, this`dispatched, this`firstError, this`blankId
      reads this`parts, this`uploadedBytes, this`owed, this`bufIdx, pool
    {
      Core() && !owed
    }

    // ---------- workers ----------

    /** One step of the i-th worker: validate, read a byte, or hear from the server. */
    method WorkerStep(i: nat)
      requires Core() && i < |inflight|
      modifies this`inflight, this`history
      ensures Core() && Progressed(old(inflight), inflight)
      ensures Remaining(inflight[i]) == 0 || Remaining(inflight[i]) < old(Remaining(inflight[i]))
    {
      hide RunOk, Piece;
      assert Holds(inflight[i]);
      var w := inflight[i];
      var broken: bool := *;
      var etag: string := *;
      if w.outcome.Some? {
        return;
      } else if !Usable(w.uploadId) || w.number > MAX_MULTIPART_COUNT {
        RunAfterInvalid(TheJob(), Snapshot(), i);
        inflight := inflight[i := w.(outcome := Some(Failed))];
      } else if broken {
        RunAfterRefusal(TheJob(), Snapshot(), i);
        history := Then(history, PartRefused(w.number));
        inflight := inflight[i := w.(outcome := Some(Failed))];
      } else if |w.sent| < w.size {
        var b := pool[w.slot][|w.sent|];
        RunAfterByte(TheJob(), Snapshot(), i, b);
        inflight := inflight[i := w.(sent := w.sent + [b])];
      } else {
        RunAfterStored(TheJob(), Snapshot(), i, etag);
        history := Then(history, PartStored(w.uploadId, w.number, w.sent, etag));
        inflight := inflight[i := w.(outcome := Some(Acked(etag)))];
      }
    }

    /** Any number of steps of any workers: what may happen between two actions of the reader. */
    method Interleave()
      requires Core()
      modifies this`inflight, this`history
      ensures Core() && Progressed(old(inflight), inflight)
    {
      var k: nat := *;
      while k > 0
        invariant Core() && Progressed(old(inflight), inflight)
      {
        var i: nat := *;
        if i < |inflight| {
          WorkerStep(i);
        }
        k := k - 1;
      }
    }

    method Yield()
      requires Inv()
      modifies this`inflight, this`history
      ensures Inv() && Progressed(old(inflight), inflight)
    {
      Interleave();
    }

    /** future.get() on the oldest part: all run on until it has ended, and others beyond that. */
    method AwaitFront()
      requires Inv() && inflight != []
      modifies this`inflight, this`history
      ensures Inv() && Progressed(old(inflight), inflight) && inflight[0].outcome.Some?
    {
      hide Core;
      while inflight[0].outcome.None?
        invariant Inv() && Progressed(old(inflight), inflight)
        decreases Remaining(inflight[0])
      {
        Yield();
        WorkerStep(0);
      }
      Yield();
    }

    // ---------- the reader ----------

    /** No part in flight is sent from the slot the reader is about to fill. */
    ghost predicate SlotFree()
      reads this`inflight, this`bufIdx
    {
      bufIdx < |pool| && forall i :: 0 <= i < |inflight| ==> inflight[i].slot != bufIdx
    }

    /** utils::ReadPart (src/utils.cc:705-710), while the workers run. */
    method ReadPart(from: nat, size: nat) returns (n: nat)
      requires Inv() && SlotFree() && pos <= |data| && from + size <= pool[bufIdx].Length
      requires bufIdx < |pool|
      modifies this`pos, this`inflight, this`history, pool[bufIdx]
      ensures Inv() && SlotFree() && Progressed(old(inflight), inflight)
      ensures n == Min(size, |data| - old(pos)) && pos == old(pos) + n
      ensures pool[bufIdx][..from] == old(pool[bufIdx][..from])
      ensures pool[bufIdx][from..from + n] == data[old(pos)..pos]
    {
      hide Inv;
      n := 0;
      while n < size && pos < |data|
        invariant n <= size && pos == old(pos) + n <= |data|
        invariant Inv() && SlotFree() && Progressed(old(inflight), inflight)
        invariant pool[bufIdx][..from] == old(pool[bufIdx][..from])
        invariant pool[bufIdx][from..from + n] == data[old(pos)..pos]
      {
        Yield();
        ghost var before := pool[bufIdx][..];
        PutByte(from + n, data[pos]);
        assert pool[bufIdx][from..from + n + 1] == before[from..from + n] + [data[pos]];
        pos, n := pos + 1, n + 1;
      }
    }

    method PutByte(k: nat, b: bv8)
      requires Inv() && SlotFree() && k < pool[bufIdx].Length
      modifies pool[bufIdx]
      ensures Inv() && pool[bufIdx][..] == old(pool[bufIdx][..])[k := b]
    {
      hide RunOk, Piece;
      assert forall i :: 0 <= i < |inflight| ==> Holds(inflight[i]);
      pool[bufIdx][k] := b;
      assert forall i :: 0 <= i < |inflight| ==> Holds(inflight[i]);
    }

    /** The reader has cut `d` pieces, `uploaded` bytes, and may hold one byte of the next. */
    ghost predicate ReaderAt(d: nat, uploaded: nat)
      reads this`pos, this`partSize, this`partCount, this`oneByte, this`stop
    {
      && !stop
      && partSize == baseSize
      && partCount == planned
      && uploaded == Offset(baseSize, d)
      && pos == uploaded + |oneByte| <= |data|
      && oneByte == data[uploaded..pos]
      && if planned.Some? then d < planned.value && oneByte == [] else |oneByte| == if d == 0 then 0 else 1
    }

    /** The reader has cut everything, in `d` pieces. */
    ghost predicate ReaderDone(d: nat)
      reads this`partCount, this`stop
    {
      && stop
      && partCount == Some(d)
      && ValidJob(TheJob())
      && !TheJob().short
      && d == PieceCount(|TheJob().payload|, baseSize)
    }

    /** The buffer at bufIdx holds piece n, in its first `partSize` bytes. */
    ghost predicate BufferReady(n: nat)
      reads this`partSize, this`bufIdx, pool
    {
      && ValidJob(TheJob())
      && bufIdx < |pool|
      && 1 <= n <= PieceCount(|TheJob().payload|, baseSize)
      && partSize <= pool[bufIdx].Length
      && pool[bufIdx][..partSize] == Piece(TheJob().payload, baseSize, n)
    }

    /** Where the reader stands once n pieces, `uploaded` bytes, have been cut. */
    ghost predicate ReaderPast(n: nat, uploaded: nat)
      reads this`pos, this`partSize, this`partCount, this`oneByte, this`stop
    {
      if stop then ReaderDone(n) else ReaderAt(n, uploaded)
    }

    ghost predicate PartRead(n: nat, uploaded: nat)
      reads this`pos, this`partSize, this`partCount, this`oneByte, this`stop, this`bufIdx, pool
    {
      BufferReady(n) && ReaderPast(n, uploaded + partSize)
    }

    /** The lambda read_part_data (src/client.cc:813-860 and 1406-1453). */
    method ReadPartData() returns (short: bool)
      requires Inv() && SlotFree() && ReaderAt(dispatched, uploadedSize) && partNumber == dispatched + 1
      modifies this`pos, this`partSize, this`partCount, this`oneByte, this`stop
      modifies this`inflight, this`history, pool[bufIdx]
      ensures Inv() && SlotFree() && Progressed(old(inflight), inflight)
      ensures if short then TheJob().short else PartRead(partNumber, uploadedSize)
    {
      hide Inv;
      if partCount.Some? {
        short := ReadPlannedPart();
      } else {
        ReadUntilLast();
        short := false;
      }
    }

    method ReadPlannedPart() returns (short: bool)
      requires Inv() && SlotFree() && ReaderAt(dispatched, uploadedSize) && partNumber == dispatched + 1
      requires planned.Some?
      modifies this`pos, this`partSize, this`stop, this`inflight, this`history, pool[bufIdx]
      ensures Inv() && SlotFree() && Progressed(old(inflight), inflight)
      ensures if short then TheJob().short else PartRead(partNumber, uploadedSize)
    {
      hide Inv, Piece, PieceCount, Progressed, Offset, Divides, Config;
      RoomPlanned();
      PlannedStep(objectSize.value, baseSize, planned.value, partNumber);
      if partNumber == planned.value {
        partSize := objectSize.value - uploadedSize;
        stop := true;
      }
      var bytesRead := ReadPart(0, partSize);
      short := bytesRead != partSize;
      if !short {
        assert pool[bufIdx][..partSize] == pool[bufIdx][0..0 + bytesRead];
        PlannedPartRead();
      }
    }

    lemma PlannedPartRead()
      requires Config() && planned.Some? && 1 <= partNumber <= planned.value && bufIdx < |pool|
      requires partSize <= pool[bufIdx].Length && oneByte == [] && partCount == planned
      requires uploadedSize == Offset(baseSize, partNumber - 1) && pos == uploadedSize + partSize <= |data|
      requires pool[bufIdx][..partSize] == data[uploadedSize..pos]
      requires stop == (partNumber == planned.value)
      requires partSize == if stop then objectSize.value - uploadedSize else baseSize
      ensures PartRead(partNumber, uploadedSize)
    {
      PlannedStep(objectSize.value, baseSize, planned.value, partNumber);
      hide Piece, Divides, PieceCount, Offset;
      PlannedPiece(data, objectSize.value, baseSize, planned.value, partNumber);
    }

    /** With an unknown size every buffer has room for one byte more than a part. */
    lemma RoomAhead()
      requires Inv() && bufIdx < |pool|
      ensures Config() && (planned.None? ==> pool[bufIdx].Length == baseSize + 1 && baseSize > 0)
    {
      hide RunOk, Buffers;
    }

    lemma RoomPlanned()
      requires Inv() && bufIdx < |pool| && planned.Some?
      ensures Config() && pool[bufIdx].Length == baseSize
      ensures objectSize.Some? && Divides(objectSize.value, baseSize, planned.value)
    {
      hide RunOk, Buffers, Divides;
    }

    /** One byte more than a part, the held byte first. */
    method ReadAhead() returns (bytesRead: nat)
      requires Inv() && SlotFree() && ReaderAt(dispatched, uploadedSize) && planned.None?
      modifies this`pos, this`oneByte, this`inflight, this`history, pool[bufIdx]
      ensures Inv() && SlotFree() && Progressed(old(inflight), inflight)
      ensures oneByte == []
      ensures bytesRead == Min(partSize + 1, |data| - uploadedSize) <= pool[bufIdx].Length
      ensures pool[bufIdx][..bytesRead] == data[uploadedSize..uploadedSize + bytesRead]
      ensures pos == uploadedSize + bytesRead
    {
      hide Inv, Progressed, Payload, TheJob, Offset, Config;
      RoomAhead();
      bytesRead := PutHeldByte();
      ghost var between := inflight;
      var n := ReadPart(bytesRead, partSize + 1 - bytesRead);
      ProgressedTwice(old(inflight), between, inflight);
      ghost var from := bytesRead;
      bytesRead := bytesRead + n;
      ReadOn(pool[bufIdx][..], data, uploadedSize, from, n);
    }

    /** The byte held back from the last read goes first. */
    method PutHeldByte() returns (from: nat)
      requires Inv() && SlotFree() && ReaderAt(dispatched, uploadedSize) && planned.None?
      requires 0 < pool[bufIdx].Length
      modifies this`oneByte, this`inflight, this`history, pool[bufIdx]
      ensures Inv() && SlotFree() && Progressed(old(inflight), inflight)
      ensures oneByte == [] && from == |old(oneByte)| <= 1 && from <= pool[bufIdx].Length
      ensures pool[bufIdx][..from] == data[uploadedSize..pos]
    {
      hide Inv;
      from := 0;
      if oneByte != [] {
        Yield();
        PutByte(0, oneByte[0]);
        from, oneByte := 1, [];
      }
    }

    method ReadUntilLast()
      requires Inv() && SlotFree() && ReaderAt(dispatched, uploadedSize) && partNumber == dispatched + 1
      requires planned.None?
      modifies this`pos, this`partSize, this`partCount, this`oneByte, this`stop
      modifies this`inflight, this`history, pool[bufIdx]
      ensures Inv() && SlotFree() && Progressed(old(inflight), inflight)
      ensures PartRead(partNumber, uploadedSize)
    {
      hide Inv, Progressed, Offset, Config;
      RoomAhead();
      var bytesRead := ReadAhead();
      Conclude(bytesRead);
    }

    /** Was that the last part, or is its last byte to be held back? */
    method Conclude(bytesRead: nat)
      requires Config() && planned.None? && partNumber >= 1 && bufIdx < |pool|
      requires !stop && partSize == baseSize && partCount.None? && oneByte == []
      requires uploadedSize == Offset(baseSize, partNumber - 1) <= |data| && (partNumber > 1 ==> uploadedSize < |data|)
      requires bytesRead == Min(partSize + 1, |data| - uploadedSize) <= pool[bufIdx].Length
      requires pool[bufIdx][..bytesRead] == data[uploadedSize..uploadedSize + bytesRead]
      requires pos == uploadedSize + bytesRead
      modifies this`partSize, this`partCount, this`oneByte, this`stop
      ensures PartRead(partNumber, uploadedSize)
    {
      ghost var ahead := pool[bufIdx][..bytesRead];
      AheadPiece(data, baseSize, partNumber, ahead);
      hide Piece, PieceCount, Offset;
      if bytesRead <= partSize {
        partCount := Some(partNumber);
        partSize := bytesRead;
        stop := true;
      } else {
        oneByte := [pool[bufIdx][partSize]];
        assert pool[bufIdx][..partSize] == ahead[..partSize] && oneByte[0] == ahead[partSize];
      }
    }

    // ---------- requests ----------

    /** CreateMultipartUpload, when no upload ID is held yet. */
    method CreateIfNeeded()
      requires Inv() && firstError.None? && !blankId && Multi(TheJob())
      modifies this`history, this`inflight, this`uploadId, this`firstError, this`blankId
      ensures Inv() && (firstError.None? ==> (uploadId == "" ==> blankId))
      ensures |inflight| == old(|inflight|)
    {
      hide RunOk;
      var acknowledged: bool := *;
      var id: string := *;
      if uploadId != "" {
        return;
      }
      Yield();
      if acknowledged {
        RunAfterCreated(TheJob(), Snapshot(), id);
        history, uploadId, blankId := Then(history, Created(id)), id, !Usable(id);
      } else {
        RunAfterError(TheJob(), Snapshot(), CreateRefused);
        history, firstError := Then(history, CreateRefused), Some(CreateFailed);
      }
    }

    /** Hands the part just read to a worker. */
    method Launch()
      requires Inv() && |inflight| < |pool| && (uploadId == "" ==> blankId) && firstError.None? && Multi(TheJob())
      requires partNumber == dispatched + 1 && BufferReady(partNumber)
      modifies this`history, this`inflight, this`bufIdx, this`dispatched, this`blankId
      ensures Inv() && dispatched == old(dispatched) + 1 && !blankId && |inflight| == old(|inflight|) + 1
    {
      hide RunOk, Piece, PieceCount;
      Yield();
      RunAfterDispatch(TheJob(), Snapshot());
      ModNext(dispatched, |pool|);
      history := Then(history, Dispatch(partNumber, bufIdx));
      inflight := inflight + [Worker(partNumber, bufIdx, partSize, uploadId, [], None)];
      bufIdx := (bufIdx + 1) % |pool|;
      dispatched, blankId := partNumber, false;
    }

    /** std::async, which may be unable to create a thread. */
    method LaunchAsync()
      requires Inv() && |inflight| < |pool| && (uploadId == "" ==> blankId) && firstError.None? && Multi(TheJob())
      requires partNumber == dispatched + 1 && BufferReady(partNumber)
      modifies this`history, this`inflight, this`bufIdx, this`dispatched, this`blankId, this`firstError
      ensures Inv() && (firstError.None? ==> dispatched == old(dispatched) + 1 && !blankId)
      ensures dispatched >= old(dispatched)
    {
      hide RunOk, Piece, PieceCount;
      var threadCreated: bool := *;
      if threadCreated {
        Launch();
      } else {
        Yield();
        RunAfterError(TheJob(), Snapshot(), NoThread(partNumber));
        history, firstError := Then(history, NoThread(partNumber)), Some(ThreadFailed);
      }
    }

    /** The reader waits only for a full ring, or with everything dispatched, or after an error. */
    ghost predicate FrontIsDue()
      reads this`inflight, this`firstError, this`dispatched
    {
      && ValidJob(TheJob())
      && inflight != []
      && (firstError.None? && dispatched < PieceCount(|TheJob().payload|, baseSize) ==> |inflight| == |pool|)
    }

    /** Waits for the oldest part; keeps its tag and reports it, or keeps its error. */
    method CollectFront()
      requires Inv() && FrontIsDue()
      modifies this`history, this`inflight, this`parts, this`firstError, this`uploadedBytes, this`owed
      ensures Inv() && |inflight| == old(|inflight|) - 1
      ensures old(firstError.Some?) ==> firstError.Some?
    {
      hide Core, TheJob, Cut;
      AwaitFront();
      var goOn: bool := *;
      var partBytes := TakeFront();
      Interleave();
      if firstError.None? {
        ReportProgress(partBytes, goOn);
      }
    }

    /** The size brings the bytes reported so far up to the cut of the last part collected. */
    ghost predicate Reports(partBytes: nat)
      reads this`dispatched, this`inflight, this`uploadedBytes
    {
      |inflight| <= dispatched && uploadedBytes + partBytes == Cut(|TheJob().payload|, baseSize, dispatched - |inflight|)
    }

    method TakeFront() returns (partBytes: nat)
      requires Inv() && FrontIsDue() && inflight[0].outcome.Some?
      modifies this`history, this`inflight, this`parts, this`firstError, this`owed
      ensures Core() && |inflight| == old(|inflight|) - 1
      ensures old(firstError.Some?) ==> firstError.Some?
      ensures owed <==> firstError.None? && hasProgress
      ensures owed ==> Reports(partBytes)
    {
      hide RunOk, Piece, Holds;
      ghost var next := AfterFront(TheJob(), Snapshot());
      RunAfterFront(TheJob(), Snapshot());
      DueReport();
      assert forall i :: 0 <= i < |inflight[1..]| ==> Holds(inflight[1..][i]);
      var w := inflight[0];
      partBytes := w.size;
      inflight := inflight[1..];
      history := Then(history, Collect(w.number));
      match w.outcome.value {
        case Failed =>
          if firstError.None? {
            firstError := Some(PartFailed);
          }
        case Acked(etag) =>
          parts := parts + [Part(w.number, etag)];
          owed := hasProgress && firstError.None?;
      }
      assert Snapshot() == next;
    }

    lemma DueReport()
      requires Inv() && inflight != [] && inflight[0].outcome.Some?
      ensures |inflight| <= dispatched
      ensures firstError.None? && hasProgress ==>
        uploadedBytes + inflight[0].size == Cut(|TheJob().payload|, baseSize, dispatched - |inflight| + 1)
    {
      if firstError.None? && hasProgress {
        FrontSize(TheJob(), Snapshot());
      }
    }

    /** The lambda report_progress (src/client.cc:1389-1404). */
    method ReportProgress(partBytes: nat, goOn: bool)
      requires Core() && firstError.None? && owed == hasProgress && (owed ==> Reports(partBytes))
      modifies this`history, this`firstError, this`uploadedBytes, this`owed
      ensures Inv() && (firstError.Some? <==> hasProgress && !goOn)
    {
      hide RunOk;
      if hasProgress {
        RunAfterReport(TheJob(), Snapshot(), uploadedBytes + partBytes, goOn);
        uploadedBytes, owed := uploadedBytes + partBytes, false;
        history := Then(history, Server.Reported(uploadedBytes, goOn));
        if !goOn {
          firstError := Some(StoppedByProgress);
        }
      }
    }

    // ---------- the two uploads ----------

    /** What the caller sees. */
    ghost predicate Ended(r: Result<(), UploadError>)
      reads this`history
    {
      ValidJob(TheJob()) && UploadOutcome(TheJob(), if r.Ok? then None else Some(r.error), history)
    }

    method PutWhole() returns (r: Result<(), UploadError>)
      requires Inv() && firstError.None? && !blankId && dispatched == 0 && uploadId == ""
      requires BufferReady(1) && ReaderDone(1)
      modifies this`history
      ensures Ended(r)
    {
      PiecesTile(TheJob().payload, baseSize);
      assert pool[bufIdx][..partSize] == TheJob().payload;
      var stored: bool := *;
      WholeEnds(TheJob(), Snapshot(), stored);
      history := Then(history, if stored then WholeStored(pool[bufIdx][..partSize]) else WholeRefused);
      r := if stored then Ok(()) else Err(PutFailed);
    }

    /** AbortMultipartUpload sends nothing for an ID that its own check refuses (src/args.cc:160-166). */
    method Fail(e: UploadError) returns (r: Result<(), UploadError>)
      requires Inv() && firstError == Some(e) && inflight == []
      modifies this`history
      ensures Ended(r) && r == Err(e)
    {
      var acknowledged: bool := *;
      RunFails(TheJob(), Snapshot(), acknowledged);
      if Usable(uploadId) {
        history := Then(history, Aborted(uploadId, acknowledged));
      }
      r := Err(e);
    }

    method Complete() returns (r: Result<(), UploadError>)
      requires Inv() && firstError.None? && !blankId && inflight == [] && ReaderDone(dispatched)
      modifies this`history
      ensures Ended(r)
    {
      hide RunOk, UploadOutcome;
      var stored: bool := *;
      var acknowledged: bool := *;
      CompleteSucceeds(TheJob(), Snapshot());
      if stored {
        history := Then(history, Completed(uploadId, parts));
        r := Ok(());
      } else {
        CompleteFails(TheJob(), Snapshot(), acknowledged);
        history := Then(history, CompleteRefused(uploadId, parts));
        history := Then(history, Aborted(uploadId, acknowledged));
        r := Err(CompleteFailed);
      }
    }

    /** Between two turns of either upload loop. */
    ghost predicate LoopInv()
      reads this, pool
    {
      && Inv()
      && (firstError.None? ==>
            && !blankId
            && partNumber == dispatched
            && ReaderPast(dispatched, uploadedSize))
    }

    lemma FreeSlot()
      requires Inv() && |inflight| < |pool|
      ensures SlotFree()
    {
      SlotsInFlight(TheJob(), Snapshot());
    }

    /** The reader begins to overwrite the slot at bufIdx. */
    method BeginFill()
      requires Inv() && |inflight| < |pool|
      modifies this`history, this`inflight
      ensures Inv() && SlotFree() && |inflight| == old(|inflight|)
    {
      hide RunOk, Piece, Holds;
      Yield();
      FreeSlot();
      RunAfterFill(TheJob(), Snapshot());
      history := Then(history, Fill(bufIdx));
    }

    /** The first half of a turn: wait for a slot, read the next part into it. */
    method ReadNext()
      requires LoopInv() && !stop && firstError.None?
      modifies this`partNumber, this`pos, this`partSize, this`partCount, this`oneByte, this`stop, this`uploadedSize
      modifies this`history, this`inflight, this`parts, this`firstError, this`uploadedBytes, this`owed, pool
      ensures Inv()
      ensures firstError.None? ==>
        && partNumber == dispatched + 1
        && |inflight| < |pool|
        && BufferReady(partNumber)
        && ReaderPast(partNumber, uploadedSize)
    {
      hide Inv, BufferReady;
      partNumber := partNumber + 1;
      WaitForSlot();
      if firstError.None? {
        ReadIntoSlot();
      }
    }

    method ReadIntoSlot()
      requires Inv() && firstError.None? && |inflight| < |pool|
      requires ReaderAt(dispatched, uploadedSize) && partNumber == dispatched + 1
      modifies this`pos, this`partSize, this`partCount, this`oneByte, this`stop, this`uploadedSize
      modifies this`history, this`inflight, this`firstError, pool
      ensures Inv() && |inflight| == old(|inflight|)
      ensures firstError.None? ==> BufferReady(partNumber) && ReaderPast(partNumber, uploadedSize)
    {
      hide Inv, BufferReady;
      BeginFill();
      var short := ReadPartData();
      if short {
        NoteShort();
        return;
      }
      uploadedSize := uploadedSize + partSize;
    }

    /** Wait for a slot before reusing the buffer at bufIdx. */
    method WaitForSlot()
      requires Inv()
      modifies this`history, this`inflight, this`parts, this`firstError, this`uploadedBytes, this`owed
      ensures Inv() && (firstError.None? ==> |inflight| < |pool|)
    {
      if |inflight| >= |pool| {
        CollectFront();
      }
    }

    /** Where the reader has cut a piece and it is not known to be the only one, it is not. */
    lemma NotTheOnly()
      requires Config() && partNumber >= 1 && ReaderPast(partNumber, uploadedSize) && partCount != Some(1)
      ensures Multi(TheJob())
    {
      var payload := TheJob().payload;
      if !stop && planned.Some? && !TheJob().short && PieceCount(|payload|, baseSize) == 1 {
        PlannedCount(objectSize.value, baseSize, planned.value);
        assert false;
      } else if !stop && planned.None? {
        CeilDivCovers(|payload|, baseSize);
        NextOffset(baseSize, partNumber - 1);
        MulMonotone(1, partNumber, baseSize);
      }
    }

    method NoteShort()
      requires Inv() && TheJob().short && firstError.None?
      modifies this`firstError, this`history, this`inflight
      ensures Inv() && firstError.Some? && |inflight| == old(|inflight|)
    {
      hide RunOk;
      Yield();
      RunAfterShort(TheJob(), Snapshot());
      history, firstError := Then(history, StreamEnded), Some(ShortStream);
    }

    /** The second half: open the upload if need be, and send the part off. */
    method SendOff()
      requires Inv() && firstError.None? && !blankId && |inflight| < |pool| && Multi(TheJob())
      requires partNumber == dispatched + 1 && BufferReady(partNumber) && ReaderPast(partNumber, uploadedSize)
      modifies this`history, this`uploadId, this`firstError, this`blankId
      modifies this`inflight, this`bufIdx, this`dispatched
      ensures LoopInv() && dispatched >= old(dispatched)
      ensures firstError.None? ==> dispatched == old(dispatched) + 1
    {
      hide RunOk, Piece, PieceCount;
      CreateIfNeeded();
      if firstError.None? {
        LaunchAsync();
      }
    }

    /** The upload loop with its ring of buffers (src/client.cc:1455-1566), the drain and the end. */
    method UploadParallel() returns (r: Result<(), UploadError>)
      requires LoopInv() && !stop && firstError.None? && dispatched == 0 && inflight == [] && uploadId == ""
      modifies this, pool
      ensures Ended(r)
    {
      hide RunOk;
      while !stop && firstError.None?
        invariant LoopInv() && (dispatched == 0 ==> uploadId == "" || firstError.Some?)
        decreases PieceCount(|TheJob().payload|, baseSize) - dispatched
      {
        ReadNext();
        if firstError.Some? {
          break;
        }
        if partCount == Some(1) {
          r := PutWhole();
          return;
        }
        NotTheOnly();
        SendOff();
        if firstError.Some? {
          break;
        }
      }
      while inflight != []
        invariant Inv() && (firstError.None? ==> !blankId && ReaderDone(dispatched))
        decreases |inflight|
      {
        CollectFront();
      }
      if firstError.Some? {
        r := Fail(firstError.value);
      } else {
        r := Complete();
      }
    }

    /** The upload loop with one buffer (src/client.cc:863-984), and the abort of its caller (1651-1663). */
    method UploadSequential() returns (r: Result<(), UploadError>)
      requires LoopInv() && !stop && firstError.None? && dispatched == 0 && inflight == [] && uploadId == "" && |pool| == 1
      modifies this, pool
      ensures Ended(r)
    {
      hide RunOk;
      while !stop
        invariant LoopInv() && firstError.None? && inflight == [] && (dispatched == 0 ==> uploadId == "")
        decreases PieceCount(|TheJob().payload|, baseSize) - dispatched
      {
        partNumber := partNumber + 1;
        ReadIntoSlot();
        if firstError.Some? {
          r := Fail(firstError.value);
          return;
        }
        if partCount == Some(1) {
          r := PutWhole();
          return;
        }
        NotTheOnly();
        SendInline();
        if firstError.Some? {
          r := Fail(firstError.value);
          return;
        }
      }
      r := Complete();
    }

    /** Opens the upload if need be, and uploads the part before going on. */
    method SendInline()
      requires Inv() && firstError.None? && !blankId && inflight == [] && |pool| == 1 && Multi(TheJob())
      requires partNumber == dispatched + 1 && BufferReady(partNumber) && ReaderPast(partNumber, uploadedSize)
      modifies this`history, this`uploadId, this`firstError, this`blankId
      modifies this`inflight, this`bufIdx, this`dispatched, this`parts, this`uploadedBytes, this`owed
      ensures LoopInv() && inflight == []
      ensures firstError.None? ==> dispatched == old(dispatched) + 1
    {
      hide RunOk, Piece, PieceCount;
      CreateIfNeeded();
      if firstError.None? {
        UploadPart();
      }
    }

    /** UploadPart on the calling thread, with its progress report. */
    method UploadPart()
      requires Inv() && firstError.None? && inflight == [] && (uploadId == "" ==> blankId)
      requires |pool| == 1 && Multi(TheJob())
      requires partNumber == dispatched + 1 && BufferReady(partNumber) && ReaderPast(partNumber, uploadedSize)
      modifies this`history, this`inflight, this`bufIdx, this`dispatched, this`blankId
      modifies this`parts, this`firstError, this`uploadedBytes, this`owed
      ensures LoopInv() && inflight == [] && dispatched == old(dispatched) + 1
    {
      hide RunOk, BufferReady;
      Launch();
      CollectFront();
    }

    /** The locals at the start of either upload, with a pool of `slots` buffers. */
    constructor (data: Bytes, objectSize: Option<nat>, plan: Plan, slots: nat, hasProgress: bool)
      requires slots > 0
      requires objectSize.Some? <==> plan.partCount.Some?
      requires plan.partCount.Some? ==> Divides(objectSize.value, plan.partSize, plan.partCount.value)
      requires plan.partCount.None? ==> plan.partSize > 0
      ensures LoopInv() && !stop && firstError.None? && dispatched == 0 && inflight == [] && uploadId == ""
      ensures fresh(pool)
      ensures TheJob() == Job(Payload(data, objectSize), plan.partSize, slots, Short(data, objectSize), hasProgress)
    {
      var alloc := if plan.partCount.Some? then plan.partSize else plan.partSize + 1;
      var buffers: seq<array<bv8>> := [];
      while |buffers| < slots
        invariant |buffers| <= slots
        invariant forall i :: 0 <= i < |buffers| ==> buffers[i].Length == alloc && fresh(buffers[i])
        invariant forall i, j :: 0 <= i < j < |buffers| ==> buffers[i] != buffers[j]
      {
        var buffer := new bv8[alloc];
        buffers := buffers + [buffer];
      }
      this.data, this.objectSize, baseSize, planned := data, objectSize, plan.partSize, plan.partCount;
      this.hasProgress, pool := hasProgress, buffers;
      pos, partSize, uploadedSize, partNumber, oneByte := 0, plan.partSize, 0, 0, [];
      stop, partCount, uploadId, firstError := false, plan.partCount, "", None;
      parts, inflight, bufIdx, uploadedBytes, history := [], [], 0, 0, Begin;
      dispatched, blankId, owed := 0, false, false;
      new;
      RunStart(TheJob());
    }
  }

  const MAX_INFLIGHT_PARTS: nat := 100

  /** The part size that the arguments come down to. */
  function PlannedSize(objectSize: Option<nat>, partSize: nat): nat {
    if objectSize.Some? then Min(RequestedSize(objectSize.value, partSize), objectSize.value) else partSize
  }

  lemma PlannedSizePositive(data: Bytes, objectSize: Option<nat>, partSize: nat)
    requires !PlanRefused(objectSize, partSize)
    ensures |Payload(data, objectSize)| > 0 ==> PlannedSize(objectSize, partSize) > 0
  {
    if objectSize.Some? {
      DefaultPartSizeFits(objectSize.value);
    }
  }

  /** Exactly which arguments are refused before anything is sent, and why. */
  function ArgumentError(objectSize: Option<nat>, partSize: nat, maxInflight: Option<nat>): Option<UploadError> {
    if maxInflight == Some(0) then Some(NoInflight)
    else match PlanVerdict(objectSize, partSize)
      case Some(reason) => Some(BadArguments(reason))
      case None => None
  }

  /**
   * How many parts may be in flight: one unless the caller asks for more, never more than 100, and
   * no more than there are parts.
   */
  function Slots(objectSize: Option<nat>, size: nat, maxInflight: Option<nat>): nat
    requires objectSize.Some? && objectSize.value > 0 ==> size > 0
  {
    var asked := if maxInflight.None? then 1 else if maxInflight.value <= 100 then maxInflight.value else 100;
    if objectSize.Some? then Min(asked, PieceCount(objectSize.value, size)) else asked
  }

  /** Client::PutObject, from its arguments to the last request (src/client.cc:1211-1666). */
  method PutObject(data: Bytes, objectSize: Option<nat>, partSize: nat, maxInflight: Option<nat>, hasProgress: bool)
    returns (r: Result<(), UploadError>, history: History)
    ensures var refused := ArgumentError(objectSize, partSize, maxInflight);
      refused.Some? ==> r == Err(refused.value) && history == Begin
    ensures ArgumentError(objectSize, partSize, maxInflight).None? ==>
      var payload, size := Payload(data, objectSize), PlannedSize(objectSize, partSize);
      && (objectSize.Some? && objectSize.value > 0 ==> size > 0)
      && var job := Job(payload, size, Slots(objectSize, size, maxInflight), Short(data, objectSize), hasProgress);
         ValidJob(job) && UploadOutcome(job, if r.Ok? then None else Some(r.error), history)
  {
    hide UploadOutcome;
    if maxInflight == Some(0) {
      return Err(NoInflight), Begin;
    }
    var info := CalcPartInfo(objectSize, partSize);
    if info.Err? {
      return Err(BadArguments(info.error)), Begin;
    }
    PlannedSizePositive(data, objectSize, partSize);
    var plan := info.value;
    if plan.partCount.Some? {
      PlannedCount(objectSize.value, plan.partSize, plan.partCount.value);
    }
    var slots := if plan.partCount == Some(1) || maxInflight.None? then 1 else maxInflight.value;
    var parallel := slots > 1;
    if parallel {
      if slots > MAX_INFLIGHT_PARTS {
        slots := MAX_INFLIGHT_PARTS;
      }
      if plan.partCount.Some? && plan.partCount.value > 0 && slots > plan.partCount.value {
        slots := plan.partCount.value;
      }
    }
    assert slots == Slots(objectSize, plan.partSize, maxInflight);
    var gotMemory: bool := *;
    if !gotMemory {
      NoBufferEnds(Job(Payload(data, objectSize), plan.partSize, slots, Short(data, objectSize), hasProgress));
      return Err(OutOfMemory), Then(Begin, NoBuffer);
    }
    var session := new Session(data, objectSize, plan, slots, hasProgress);
    if parallel {
      r := session.UploadParallel();
    } else {
      r := session.UploadSequential();
    }
    history := session.history;
  }
}

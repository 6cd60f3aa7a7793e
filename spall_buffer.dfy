/** The per-thread write buffer of spall.h (`SpallBuffer`, `spall_buffer_init`,
    `spall__buffer_flush`, `spall_buffer_flush`, `spall_buffer_quit`,
    `spall_buffer_begin_args`, `spall_buffer_begin`, `spall_buffer_end`,
    `spall_buffer_name_thread`, `spall_buffer_name_process`). The caller owns
    the byte region; the first 20 bytes are reserved for the chunk header that
    each flush stamps in, and the records accumulate after them. */
module SpallBuffer {
  import opened Bytes
  import opened SpallCodec
  import opened SpallProfile

  /** The smallest region `spall_buffer_init` accepts: one chunk header and one
      maximal begin record. */
  const MIN_LENGTH := BUFFER_HEADER_SIZE + BEGIN_EVENT_MAX_SIZE

  const INT32_MAX := 0x7FFF_FFFF

  /** The `size` field of a chunk header for a cursor at `head`: the payload
      length, truncated to 32 bits as the assignment to the uint32_t field does. */
  function PayloadSize(head: nat): u32
    requires head >= BUFFER_HEADER_SIZE
  {
    ((head - BUFFER_HEADER_SIZE) % TWO_POW_32) as u32
  }

  /** The bytes one flush hands to the write callback: the chunk header
      followed by the records buffered since the previous successful flush. */
  function ChunkBytes(head: nat, tid: u32, pid: u32, firstTs: u64, pending: seq<Event>): seq<byte>
    requires head >= BUFFER_HEADER_SIZE
    requires forall i :: 0 <= i < |pending| ==> WellFormed(pending[i])
  {
    BufferHeaderBytes(BufferHeader(PayloadSize(head), tid, pid, firstTs)) + EncodeAll(pending)
  }

  class Buffer {
    const data: array<byte>
    const tid: u32
    const pid: u32
    var head: nat
    var firstTs: u64
    /** The records in data[20..head], in the order they were appended. */
    ghost var pending: seq<Event>

    ghost predicate Valid()
      reads this, data
    {
      && MIN_LENGTH <= data.Length
      && BUFFER_HEADER_SIZE <= head <= data.Length
      && (forall i :: 0 <= i < |pending| ==> WellFormed(pending[i]))
      && data[BUFFER_HEADER_SIZE..head] == EncodeAll(pending)
    }

    /** A buffer as the caller sets it up: its region, its thread and process
        ids, and the internal fields zero. */
    constructor (data: array<byte>, tid: u32, pid: u32)
      ensures this.data == data && this.tid == tid && this.pid == pid
      ensures head == 0 && firstTs == 0 && pending == []
    {
      this.data := data;
      this.tid := tid;
      this.pid := pid;
      head := 0;
      firstTs := 0;
      pending := [];
    }

    /** spall_buffer_init: fails, touching nothing, when the region cannot
        hold a chunk header and one maximal begin record; otherwise places
        the cursor just past the chunk header. */
    method Init() returns (ok: bool)
      modifies this
      ensures ok == (data.Length >= MIN_LENGTH)
      ensures firstTs == old(firstTs)
      ensures ok ==> Valid() && head == BUFFER_HEADER_SIZE && pending == []
      ensures !ok ==> head == old(head) && pending == old(pending)
    {
      if data.Length < MIN_LENGTH {
        return false;
      }
      head := BUFFER_HEADER_SIZE;
      pending := [];
      ok := true;
    }

    /** spall__buffer_flush: raises first_ts to `ts` if that is larger, stamps
        the chunk header into bytes 0..19 and writes bytes [0, head) — even when
        no record is buffered. Only a successful write empties the buffer. */
    method FlushChunk(ctx: Profile, ts: u64) returns (ok: bool)
      requires Valid() && ctx.sink != null
      modifies this, data, ctx.sink
      ensures Valid()
      ensures firstTs == Max(old(firstTs) as int, ts as int) as u64
      ensures ctx.sink.log == old(ctx.sink.log) + [WriteCall(ChunkBytes(old(head), tid, pid, firstTs, old(pending)), ok)]
      ensures data[..BUFFER_HEADER_SIZE] == BufferHeaderBytes(BufferHeader(PayloadSize(old(head)), tid, pid, firstTs))
      ensures data[BUFFER_HEADER_SIZE..] == old(data[BUFFER_HEADER_SIZE..])
      ensures ok ==> head == BUFFER_HEADER_SIZE && pending == []
      ensures !ok ==> head == old(head) && pending == old(pending)
    {
      firstTs := Max(firstTs as int, ts as int) as u64;
      var hdr := BufferHeaderBytes(BufferHeader(PayloadSize(head), tid, pid, firstTs));
      ghost var body := data[BUFFER_HEADER_SIZE..];
      CopyInto(data, 0, hdr);
      assert data[BUFFER_HEADER_SIZE..] == body;
      assert data[BUFFER_HEADER_SIZE..head] == body[..head - BUFFER_HEADER_SIZE] == EncodeAll(pending);
      assert data[..head] == hdr + data[BUFFER_HEADER_SIZE..head];
      ok := ctx.sink.Write(data[..head]);
      if ok {
        head := BUFFER_HEADER_SIZE;
        pending := [];
      }
    }

    /** spall_buffer_flush (and spall_buffer_quit, which only calls it): a
        flush with a timestamp of 0, so first_ts is left as it is. */
    method Flush(ctx: Profile) returns (ok: bool)
      requires Valid() && ctx.sink != null
      modifies this, data, ctx.sink
      ensures Valid()
      ensures firstTs == old(firstTs)
      ensures ctx.sink.log == old(ctx.sink.log) + [WriteCall(ChunkBytes(old(head), tid, pid, firstTs, old(pending)), ok)]
      ensures ok ==> head == BUFFER_HEADER_SIZE && pending == []
      ensures !ok ==> head == old(head) && pending == old(pending)
    {
      ok := FlushChunk(ctx, 0);
    }

    /** Copies one encoded record to the cursor and advances it. */
    method Append(e: Event, bytes: seq<byte>)
      requires Valid() && WellFormed(e) && bytes == Encode(e)
      requires head + |bytes| <= data.Length
      modifies this, data
      ensures Valid()
      ensures head == old(head) + |bytes| && pending == old(pending) + [e] && firstTs == old(firstTs)
    {
      ghost var before := data[..];
      ghost var h := head;
      CopyInto(data, head, bytes);
      CopiedSlice(before, data[..], BUFFER_HEADER_SIZE, h, bytes);
      EncodeAllAppend(pending, e);
      head := head + |bytes|;
      pending := pending + [e];
    }

    /** spall_buffer_begin_args: flushes first when a maximal begin record
        might not fit; a failed flush appends nothing and returns false.
        Otherwise the begin record, with name and args truncated to 255
        bytes, always fits and is appended. */
    method BeginArgs(ctx: Profile, name: seq<byte>, args: seq<byte>, when: u64) returns (ok: bool)
      requires Valid() && (head + BEGIN_EVENT_MAX_SIZE > data.Length ==> ctx.sink != null)
      requires |name| <= INT32_MAX && |args| <= INT32_MAX
      modifies this, data, ctx.sink
      ensures Valid()
      ensures var flushed := old(head) + BEGIN_EVENT_MAX_SIZE > data.Length;
              var e := SpallCodec.Begin(when, Truncate(name), Truncate(args));
              && (flushed ==> firstTs == Max(old(firstTs) as int, when as int) as u64
                              && ctx.sink.log == old(ctx.sink.log) + [WriteCall(ChunkBytes(old(head), tid, pid, firstTs, old(pending)), ok)])
              && (!flushed ==> ok && firstTs == old(firstTs) && (ctx.sink != null ==> ctx.sink.log == old(ctx.sink.log)))
              && (ok ==> head == (if flushed then BUFFER_HEADER_SIZE else old(head)) + EncodedSize(e)
                         && pending == (if flushed then [] else old(pending)) + [e])
              && (!ok ==> head == old(head) && pending == old(pending))
    {
      if head + BEGIN_EVENT_MAX_SIZE > data.Length {
        ok := FlushChunk(ctx, when);
        if !ok {
          return false;
        }
      }
      var bytes := BuildBegin(data.Length - head, name, args, when);
      Append(SpallCodec.Begin(when, Truncate(name), Truncate(args)), bytes);
      ok := true;
    }

    /** spall_buffer_begin: a begin record with empty args. */
    method Begin(ctx: Profile, name: seq<byte>, when: u64) returns (ok: bool)
      requires Valid() && (head + BEGIN_EVENT_MAX_SIZE > data.Length ==> ctx.sink != null)
      requires |name| <= INT32_MAX
      modifies this, data, ctx.sink
      ensures Valid()
      ensures var flushed := old(head) + BEGIN_EVENT_MAX_SIZE > data.Length;
              var e := SpallCodec.Begin(when, Truncate(name), []);
              && (flushed ==> firstTs == Max(old(firstTs) as int, when as int) as u64
                              && ctx.sink.log == old(ctx.sink.log) + [WriteCall(ChunkBytes(old(head), tid, pid, firstTs, old(pending)), ok)])
              && (!flushed ==> ok && firstTs == old(firstTs) && (ctx.sink != null ==> ctx.sink.log == old(ctx.sink.log)))
              && (ok ==> head == (if flushed then BUFFER_HEADER_SIZE else old(head)) + EncodedSize(e)
                         && pending == (if flushed then [] else old(pending)) + [e])
              && (!ok ==> head == old(head) && pending == old(pending))
    {
      ok := BeginArgs(ctx, name, [], when);
    }

    /** spall_buffer_end: the same policy with the 9-byte end record. */
    method End(ctx: Profile, when: u64) returns (ok: bool)
      requires Valid() && (head + END_EVENT_SIZE > data.Length ==> ctx.sink != null)
      modifies this, data, ctx.sink
      ensures Valid()
      ensures var flushed := old(head) + END_EVENT_SIZE > data.Length;
              && (flushed ==> firstTs == Max(old(firstTs) as int, when as int) as u64
                              && ctx.sink.log == old(ctx.sink.log) + [WriteCall(ChunkBytes(old(head), tid, pid, firstTs, old(pending)), ok)])
              && (!flushed ==> ok && firstTs == old(firstTs) && (ctx.sink != null ==> ctx.sink.log == old(ctx.sink.log)))
              && (ok ==> head == (if flushed then BUFFER_HEADER_SIZE else old(head)) + END_EVENT_SIZE
                         && pending == (if flushed then [] else old(pending)) + [SpallCodec.End(when)])
              && (!ok ==> head == old(head) && pending == old(pending))
    {
      if head + END_EVENT_SIZE > data.Length {
        ok := FlushChunk(ctx, when);
        if !ok {
          return false;
        }
      }
      var bytes := BuildEnd(data.Length - head, when);
      Append(SpallCodec.End(when), bytes);
      ok := true;
    }

    /** spall_buffer_name_thread / spall_buffer_name_process: flushes (with
        timestamp 0) only when not even the 2-byte name header fits. When the
        whole name record then does not fit, the encoder returns 0 and the
        record is silently dropped: the cursor stays and true is returned. */
    method NameRecord(ctx: Profile, name: seq<byte>, kind: NameKind) returns (ok: bool)
      requires Valid() && (head + NAME_EVENT_SIZE > data.Length ==> ctx.sink != null)
      requires |name| <= INT32_MAX
      modifies this, data, ctx.sink
      ensures Valid()
      ensures firstTs == old(firstTs)
      ensures var flushed := old(head) + NAME_EVENT_SIZE > data.Length;
              var start := if flushed then BUFFER_HEADER_SIZE else old(head);
              var base := if flushed then [] else old(pending);
              var fits := start + NAME_EVENT_SIZE + Min(|name|, 255) <= data.Length;
              && (flushed ==> ctx.sink.log == old(ctx.sink.log) + [WriteCall(ChunkBytes(old(head), tid, pid, firstTs, old(pending)), ok)])
              && (!flushed ==> ok && (ctx.sink != null ==> ctx.sink.log == old(ctx.sink.log)))
              && (ok && fits ==> head == start + NAME_EVENT_SIZE + Min(|name|, 255) && pending == base + [Name(kind, Truncate(name))])
              && (ok && !fits ==> head == start && pending == base)
              && (!ok ==> head == old(head) && pending == old(pending))
    {
      if head + NAME_EVENT_SIZE > data.Length {
        ok := FlushChunk(ctx, 0);
        if !ok {
          return false;
        }
      }
      var bytes := BuildName(data.Length - head, name, kind);
      if bytes != [] {
        Append(Name(kind, Truncate(name)), bytes);
      }
      ok := true;
    }

    method NameThread(ctx: Profile, name: seq<byte>) returns (ok: bool)
      requires Valid() && (head + NAME_EVENT_SIZE > data.Length ==> ctx.sink != null)
      requires |name| <= INT32_MAX
      modifies this, data, ctx.sink
      ensures Valid()
      ensures firstTs == old(firstTs)
      ensures var flushed := old(head) + NAME_EVENT_SIZE > data.Length;
              var start := if flushed then BUFFER_HEADER_SIZE else old(head);
              var base := if flushed then [] else old(pending);
              var fits := start + NAME_EVENT_SIZE + Min(|name|, 255) <= data.Length;
              && (flushed ==> ctx.sink.log == old(ctx.sink.log) + [WriteCall(ChunkBytes(old(head), tid, pid, firstTs, old(pending)), ok)])
              && (!flushed ==> ok && (ctx.sink != null ==> ctx.sink.log == old(ctx.sink.log)))
              && (ok && fits ==> head == start + NAME_EVENT_SIZE + Min(|name|, 255) && pending == base + [Name(ThreadName, Truncate(name))])
              && (ok && !fits ==> head == start && pending == base)
              && (!ok ==> head == old(head) && pending == old(pending))
    {
      ok := NameRecord(ctx, name, ThreadName);
    }

    method NameProcess(ctx: Profile, name: seq<byte>) returns (ok: bool)
      requires Valid() && (head + NAME_EVENT_SIZE > data.Length ==> ctx.sink != null)
      requires |name| <= INT32_MAX
      modifies this, data, ctx.sink
      ensures Valid()
      ensures firstTs == old(firstTs)
      ensures var flushed := old(head) + NAME_EVENT_SIZE > data.Length;
              var start := if flushed then BUFFER_HEADER_SIZE else old(head);
              var base := if flushed then [] else old(pending);
              var fits := start + NAME_EVENT_SIZE + Min(|name|, 255) <= data.Length;
              && (flushed ==> ctx.sink.log == old(ctx.sink.log) + [WriteCall(ChunkBytes(old(head), tid, pid, firstTs, old(pending)), ok)])
              && (!flushed ==> ok && (ctx.sink != null ==> ctx.sink.log == old(ctx.sink.log)))
              && (ok && fits ==> head == start + NAME_EVENT_SIZE + Min(|name|, 255) && pending == base + [Name(ProcessName, Truncate(name))])
              && (ok && !fits ==> head == start && pending == base)
              && (!ok ==> head == old(head) && pending == old(pending))
    {
      ok := NameRecord(ctx, name, ProcessName);
    }
  }

  /** After copying `bytes` to position `at`, the bytes from `lo` up to the
      end of the copy are the old ones from `lo` to `at`, then `bytes`. */
  lemma CopiedSlice(before: seq<byte>, after: seq<byte>, lo: nat, at: nat, bytes: seq<byte>)
    requires lo <= at && at + |bytes| <= |before|
    requires after == before[..at] + bytes + before[at + |bytes|..]
    ensures after[lo..at + |bytes|] == before[lo..at] + bytes
  {
    assert after[..at + |bytes|] == before[..at] + bytes;
  }

  /** What a reader makes of a flushed chunk: the header fields as stamped,
      and exactly the records that were buffered, in order. */
  lemma ChunkDecodes(head: nat, tid: u32, pid: u32, firstTs: u64, pending: seq<Event>)
    requires head >= BUFFER_HEADER_SIZE
    requires forall i :: 0 <= i < |pending| ==> WellFormed(pending[i])
    requires |EncodeAll(pending)| == head - BUFFER_HEADER_SIZE < TWO_POW_32
    ensures DecodeChunk(ChunkBytes(head, tid, pid, firstTs, pending))
         == Some((BufferHeader((head - BUFFER_HEADER_SIZE) as u32, tid, pid, firstTs), pending))
  {
    var size := |EncodeAll(pending)|;
    assert PayloadSize(head) == size as u32;
    ChunkRoundTrip(tid, pid, firstTs, pending);
  }
}

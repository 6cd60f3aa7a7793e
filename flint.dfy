/** The Flint prototype writer (tools/flint.h): a FILE-backed trace writer
    with an optional write-combining buffer, packed little-endian Begin/End
    records and a direct-mapped cache of recently written names. */
module Flint {
  import opened Bytes
  import opened FlintHash

  const TYPE_BEGIN: byte := 0
  const TYPE_END: byte := 1
  const TYPE_BEGIN_CACHE_HIT: byte := 2

  /** sizeof(FlintBeginEvent) - 1: the fixed part of a literal Begin record. */
  const BEGIN_FIXED_SIZE: nat := 18
  /** sizeof(FlintBeginCacheHitEvent). */
  const CACHE_HIT_SIZE: nat := 11
  /** sizeof(FlintEndEvent). */
  const END_SIZE: nat := 17
  const MAX_NAME_LEN: nat := 255

  /** 1 << Flint_Cache_Power. */
  const CACHE_SLOTS: nat := 1024

  // ---------------------------------------------------------------------
  // Records
  // ---------------------------------------------------------------------

  /** One packed record. A timestamp is carried as the bit pattern of its
      double. */
  datatype Record =
    | LiteralBegin(pid: u32, tid: u32, when: u64, name: seq<byte>)
    | CachedBegin(when: u64, slot: u16)
    | End(pid: u32, tid: u32, when: u64)

  predicate WellFormed(r: Record)
  {
    r.LiteralBegin? ==> |r.name| <= MAX_NAME_LEN
  }

  function Size(r: Record): nat
  {
    match r
    case LiteralBegin(_, _, _, name) => BEGIN_FIXED_SIZE + |name|
    case CachedBegin(_, _) => CACHE_HIT_SIZE
    case End(_, _, _) => END_SIZE
  }

  function Tag(r: Record): byte
  {
    match r
    case LiteralBegin(_, _, _, _) => TYPE_BEGIN
    case CachedBegin(_, _) => TYPE_BEGIN_CACHE_HIT
    case End(_, _, _) => TYPE_END
  }

  /** The bytes of a record as the packed structs lay them out: FlintBeginEvent
      (type, pid, tid, when, length byte, name), FlintBeginCacheHitEvent (type,
      when, slot) and FlintEndEvent (type, pid, tid, when). */
  function Encode(r: Record): (s: seq<byte>)
    requires WellFormed(r)
    ensures |s| == Size(r) && s[0] == Tag(r)
  {
    match r
    case LiteralBegin(pid, tid, when, name) =>
      [TYPE_BEGIN] + LE32(pid) + LE32(tid) + LE64(when) + [|name| as byte] + name
    case CachedBegin(when, slot) =>
      [TYPE_BEGIN_CACHE_HIT] + LE64(when) + LE16(slot)
    case End(pid, tid, when) =>
      [TYPE_END] + LE32(pid) + LE32(tid) + LE64(when)
  }

  /** A reader of the record stream: the first record of `s` and its size. */
  function Decode(s: seq<byte>): (r: Option<(Record, nat)>)
    ensures r.Some? ==> r.value.1 == Size(r.value.0) <= |s| && WellFormed(r.value.0)
  {
    if |s| == 0 then None
    else if s[0] == TYPE_BEGIN then
      if |s| < BEGIN_FIXED_SIZE then None
      else
        var n := s[17] as int;
        if |s| < BEGIN_FIXED_SIZE + n then None
        else Some((LiteralBegin(ReadLE32(s[1..5]), ReadLE32(s[5..9]), ReadLE64(s[9..17]), s[18..18 + n]), BEGIN_FIXED_SIZE + n))
    else if s[0] == TYPE_END then
      if |s| < END_SIZE then None
      else Some((End(ReadLE32(s[1..5]), ReadLE32(s[5..9]), ReadLE64(s[9..17])), END_SIZE))
    else if s[0] == TYPE_BEGIN_CACHE_HIT then
      if |s| < CACHE_HIT_SIZE then None
      else Some((CachedBegin(ReadLE64(s[1..9]), ReadLE16(s[9..11])), CACHE_HIT_SIZE))
    else None
  }

  /** Every record reads back from its bytes, whatever follows them. */
  lemma DecodeEncoded(r: Record, rest: seq<byte>)
    requires WellFormed(r)
    ensures Decode(Encode(r) + rest) == Some((r, Size(r)))
  {
    match r
    case LiteralBegin(pid, tid, when, name) => DecodeLiteralBegin(pid, tid, when, name, rest);
    case CachedBegin(when, slot) => DecodeCachedBegin(when, slot, rest);
    case End(pid, tid, when) => DecodeEnd(pid, tid, when, rest);
  }

  lemma DecodeLiteralBegin(pid: u32, tid: u32, when: u64, name: seq<byte>, rest: seq<byte>)
    requires |name| <= MAX_NAME_LEN
    ensures Decode(Encode(LiteralBegin(pid, tid, when, name)) + rest)
         == Some((LiteralBegin(pid, tid, when, name), BEGIN_FIXED_SIZE + |name|))
  {
    var a, b, c := LE32(pid), LE32(tid), LE64(when);
    var fixed := [TYPE_BEGIN] + a + b + c + [|name| as byte];
    var s := fixed + (name + rest);
    assert Encode(LiteralBegin(pid, tid, when, name)) + rest == s;
    assert |fixed| == BEGIN_FIXED_SIZE;
    assert ReadLE32(s[1..5]) == pid by {
      assert s[1..5] == fixed[1..5] == a;
      LE32RoundTrip(pid);
    }
    assert ReadLE32(s[5..9]) == tid by {
      assert s[5..9] == fixed[5..9] == b;
      LE32RoundTrip(tid);
    }
    assert ReadLE64(s[9..17]) == when by {
      assert s[9..17] == fixed[9..17] == c;
      LE64RoundTrip(when);
    }
    assert s[17] as int == |name|;
    assert s[18..18 + |name|] == name;
  }

  lemma DecodeCachedBegin(when: u64, slot: u16, rest: seq<byte>)
    ensures Decode(Encode(CachedBegin(when, slot)) + rest) == Some((CachedBegin(when, slot), CACHE_HIT_SIZE))
  {
    var a, b := LE64(when), LE16(slot);
    var s := [TYPE_BEGIN_CACHE_HIT] + a + b + rest;
    assert Encode(CachedBegin(when, slot)) + rest == s;
    assert s[1..9] == a && s[9..11] == b;
    LE64RoundTrip(when);
    LE16RoundTrip(slot);
  }

  lemma DecodeEnd(pid: u32, tid: u32, when: u64, rest: seq<byte>)
    ensures Decode(Encode(End(pid, tid, when)) + rest) == Some((End(pid, tid, when), END_SIZE))
  {
    var a, b, c := LE32(pid), LE32(tid), LE64(when);
    var s := [TYPE_END] + a + b + c + rest;
    assert Encode(End(pid, tid, when)) + rest == s;
    assert s[1..5] == a && s[5..9] == b && s[9..17] == c;
    LE32RoundTrip(pid);
    LE32RoundTrip(tid);
    LE64RoundTrip(when);
  }

  // ---------------------------------------------------------------------
  // The name cache
  // ---------------------------------------------------------------------

  /** A FlintCacheEntry; `name` holds the name_len bytes that count. A
      calloc'ed entry is `EMPTY_ENTRY`. */
  datatype CacheEntry = CacheEntry(hash: u32, pid: u32, tid: u32, name: seq<byte>)

  const EMPTY_ENTRY := CacheEntry(0, 0, 0, [])

  /** hash & ((1 << Flint_Cache_Power) - 1). */
  function Slot(hash: u32): (r: nat)
    ensures r < CACHE_SLOTS
    ensures r == hash as int % CACHE_SLOTS
  {
    hash as int % CACHE_SLOTS
  }

  /** The cache holds `name` for this thread and process: same hash, tid,
      pid, length and bytes in the slot the hash selects. */
  predicate IsHit(cache: seq<CacheEntry>, name: seq<byte>, tid: u32, pid: u32)
    requires |cache| == CACHE_SLOTS
  {
    var h := HashEntry(name, tid, pid);
    cache[Slot(h)] == CacheEntry(h, pid, tid, name)
  }

  /** The record a Begin writes in binary mode. */
  function BeginRecord(cache: seq<CacheEntry>, useCache: bool, when: u64, name: seq<byte>, tid: u32, pid: u32): (r: Record)
    requires |cache| == CACHE_SLOTS && |name| <= MAX_NAME_LEN
    ensures WellFormed(r)
    ensures useCache && IsHit(cache, name, tid, pid) ==>
      r.CachedBegin? && r.when == when && r.slot as int == Slot(HashEntry(name, tid, pid))
    ensures !(useCache && IsHit(cache, name, tid, pid)) ==> r == LiteralBegin(pid, tid, when, name)
  {
    if useCache && IsHit(cache, name, tid, pid) then CachedBegin(when, Slot(HashEntry(name, tid, pid)) as u16)
    else LiteralBegin(pid, tid, when, name)
  }

  /** The cache after a Begin that was written: a miss in cache mode
      overwrites its slot, whatever the slot held. */
  function CacheAfter(cache: seq<CacheEntry>, useCache: bool, name: seq<byte>, tid: u32, pid: u32): (r: seq<CacheEntry>)
    requires |cache| == CACHE_SLOTS
    ensures |r| == CACHE_SLOTS
    ensures forall i :: 0 <= i < CACHE_SLOTS && i != Slot(HashEntry(name, tid, pid)) ==> r[i] == cache[i]
    ensures useCache ==> IsHit(r, name, tid, pid)
    ensures !useCache || IsHit(cache, name, tid, pid) ==> r == cache
  {
    var h := HashEntry(name, tid, pid);
    if useCache && !IsHit(cache, name, tid, pid) then cache[Slot(h) := CacheEntry(h, pid, tid, name)]
    else cache
  }

  /** A calloc'ed cache answers no lookup: no name is empty. */
  lemma {:induction false} EmptyCacheMisses(name: seq<byte>, tid: u32, pid: u32)
    requires 0 < |name|
    ensures !IsHit(seq(CACHE_SLOTS, _ => EMPTY_ENTRY), name, tid, pid)
  {
    var cache := seq(CACHE_SLOTS, _ => EMPTY_ENTRY);
    assert cache[Slot(HashEntry(name, tid, pid))].name == [];
  }

  /** Writing a name twice in cache mode: the second record is the 11-byte
      cache hit carrying the slot. */
  lemma {:induction false} RepeatBeginHits(cache: seq<CacheEntry>, w1: u64, w2: u64, name: seq<byte>, tid: u32, pid: u32)
    requires |cache| == CACHE_SLOTS && |name| <= MAX_NAME_LEN
    ensures var second := BeginRecord(CacheAfter(cache, true, name, tid, pid), true, w2, name, tid, pid);
      second == CachedBegin(w2, Slot(HashEntry(name, tid, pid)) as u16) && |Encode(second)| == CACHE_HIT_SIZE
  {
    var after := CacheAfter(cache, true, name, tid, pid);
    assert IsHit(after, name, tid, pid);
  }

  // ---------------------------------------------------------------------
  // The FILE stream
  // ---------------------------------------------------------------------

  /** One stdio call on the trace file with its success flag: an fwrite of
      one item, an fflush, or the fprintf of a JSON line (whose text is not
      modelled). */
  datatype FileCall = FWrite(bytes: seq<byte>, ok: bool) | FFlush(ok: bool) | FText(ok: bool)

  /** The bytes the file has taken: the items of the successful fwrites. */
  function Written(log: seq<FileCall>): (r: seq<byte>)
    decreases |log|
  {
    if log == [] then []
    else
      var last := log[|log| - 1];
      Written(log[..|log| - 1]) + (if last.FWrite? && last.ok then last.bytes else [])
  }

  lemma WrittenAppend(log: seq<FileCall>, c: FileCall)
    ensures Written(log + [c]) == Written(log) + (if c.FWrite? && c.ok then c.bytes else [])
  {
    assert (log + [c])[..|log|] == log;
  }

  /** An open FILE: the calls made on it, and its end-of-file and error
      indicators. Whether a call succeeds is outside the model; one that
      fails sets the error indicator, as stdio output functions do. */
  class File {
    var log: seq<FileCall>
    var eof: bool
    var error: bool

    constructor ()
      ensures log == [] && !eof && !error
    {
      log := [];
      eof := false;
      error := false;
    }

    /** fwrite(bytes, |bytes|, 1, file) == 1 */
    method Write(bytes: seq<byte>) returns (ok: bool)
      modifies this
      ensures log == old(log) + [FWrite(bytes, ok)]
      ensures eof == old(eof) && error == (old(error) || !ok)
    {
      ok :| true;
      log := log + [FWrite(bytes, ok)];
      if !ok {
        error := true;
      }
    }

    /** fflush(file) == 0 */
    method Flush() returns (ok: bool)
      modifies this
      ensures log == old(log) + [FFlush(ok)]
      ensures eof == old(eof) && error == (old(error) || !ok)
    {
      ok :| true;
      log := log + [FFlush(ok)];
      if !ok {
        error := true;
      }
    }

    /** fprintf(file, ...) > 0 */
    method PrintText() returns (ok: bool)
      modifies this
      ensures log == old(log) + [FText(ok)]
      ensures eof == old(eof) && error == (old(error) || !ok)
    {
      ok :| true;
      log := log + [FText(ok)];
      if !ok {
        error := true;
      }
    }
  }

  // ---------------------------------------------------------------------
  // The write buffer
  // ---------------------------------------------------------------------

  /** A FlintWriteBuffer: `length` bytes of `data`, the first `head` of them
      waiting to be written. */
  class WriteBuffer {
    const length: nat
    const data: array<byte>
    var head: nat

    ghost predicate Valid()
      reads this
    {
      data.Length == length && head <= length
    }

    /** What the file would hold once the buffer is flushed: the bytes the
        file has taken followed by the waiting ones. */
    ghost function Contents(f: File): seq<byte>
      requires Valid()
      reads this, data, f
    {
      Written(f.log) + data[..head]
    }

    /** An empty buffer of `length` bytes; `WriteBuffer(0)` is the `{0}`
        buffer that stands in for a null one. */
    constructor (length: nat)
      ensures this.length == length && head == 0 && Valid() && fresh(data)
    {
      this.length := length;
      data := new byte[length];
      head := 0;
    }

    /** Flint__BufferFlush: nothing to do for an empty buffer; otherwise the
        waiting bytes are written in one call and the buffer empties only if
        that call succeeds. */
    method Flush(f: File) returns (ok: bool)
      requires Valid()
      modifies this, f
      ensures Valid()
      ensures f.eof == old(f.eof) && f.error == (old(f.error) || !ok)
      ensures Contents(f) == old(Contents(f))
      ensures old(head) == 0 ==> ok && head == 0 && f.log == old(f.log)
      ensures old(head) > 0 ==>
        f.log == old(f.log) + [FWrite(old(data[..head]), ok)] && head == (if ok then 0 else old(head))
    {
      if head == 0 {
        return true;
      }
      ok := f.Write(data[..head]);
      WrittenAppend(old(f.log), FWrite(data[..head], ok));
      if ok {
        head := 0;
      }
    }

    /** Flint__BufferWrite: a payload that does not fit behind the waiting
        bytes makes the buffer flush first (and the write fail with it); a
        payload longer than the whole buffer then goes straight to the file;
        any other is copied in at `head`. `flushOk` is the outcome of that
        flush when there was one. */
    method Write(f: File, p: seq<byte>) returns (ok: bool, ghost flushOk: bool)
      requires Valid()
      modifies this, data, f
      ensures Valid()
      ensures f.eof == old(f.eof) && f.error == (old(f.error) || !ok)
      ensures Contents(f) == old(Contents(f)) + (if ok then p else [])
      ensures old(head) + |p| <= length ==>
        ok && head == old(head) + |p| && f.log == old(f.log)
        && data[..] == old(data[..head]) + p + old(data[head + |p|..])
      ensures old(head) + |p| > length && old(head) > 0 && !flushOk ==>
        !ok && head == old(head) && f.log == old(f.log) + [FWrite(old(data[..head]), false)]
        && data[..] == old(data[..])
      ensures old(head) + |p| > length && (old(head) == 0 || flushOk) ==>
        var pre := if old(head) > 0 then [FWrite(old(data[..head]), true)] else [];
        if |p| > length then
          head == 0 && f.log == old(f.log) + pre + [FWrite(p, ok)] && data[..] == old(data[..])
        else
          ok && head == |p| && f.log == old(f.log) + pre && data[..] == p + old(data[|p|..])
    {
      flushOk := true;
      if head + |p| > length {
        var flushed := Flush(f);
        flushOk := flushed;
        if !flushed {
          return false, flushOk;
        }
      }
      if |p| > length {
        ok := Direct(f, p);
        return ok, flushOk;
      }
      Append(f, p);
      ok := true;
    }

    /** The memcpy at `head`. */
    method Append(f: File, p: seq<byte>)
      requires Valid() && head + |p| <= length
      modifies this, data
      ensures Valid() && head == old(head) + |p|
      ensures data[..] == old(data[..head]) + p + old(data[head + |p|..])
      ensures Contents(f) == old(Contents(f)) + p
    {
      ghost var w := data[..head];
      CopyInto(data, head, p);
      assert data[..head + |p|] == w + p;
      head := head + |p|;
    }

    /** The fwrite of a payload the buffer cannot hold, from an empty buffer. */
    method Direct(f: File, p: seq<byte>) returns (ok: bool)
      requires Valid() && head == 0
      modifies f
      ensures f.log == old(f.log) + [FWrite(p, ok)]
      ensures f.eof == old(f.eof) && f.error == (old(f.error) || !ok)
      ensures Contents(f) == old(Contents(f)) + (if ok then p else [])
    {
      ok := f.Write(p);
      WrittenAppend(old(f.log), FWrite(p, ok));
    }
  }

  // ---------------------------------------------------------------------
  // The context
  // ---------------------------------------------------------------------

  /** A FlintContext: the file (null when the trace is closed), JSON or
      binary output, the timestamp unit as the bit pattern of its double, and
      the name cache (null in JSON mode). */
  class Context {
    var file: File?
    var isJson: bool
    var timestampUnit: u64
    var cache: array?<CacheEntry>

    ghost predicate Valid()
      reads this
    {
      cache != null ==> cache.Length == CACHE_SLOTS
    }

    constructor (file: File?, isJson: bool, timestampUnit: u64, withCache: bool)
      ensures Valid()
      ensures this.file == file && this.isJson == isJson && this.timestampUnit == timestampUnit
      ensures withCache ==> cache != null && fresh(cache) && cache[..] == seq(CACHE_SLOTS, _ => EMPTY_ENTRY)
      ensures !withCache ==> cache == null
    {
      this.file := file;
      this.isJson := isJson;
      this.timestampUnit := timestampUnit;
      if withCache {
        cache := new CacheEntry[CACHE_SLOTS](_ => EMPTY_ENTRY);
      } else {
        cache := null;
      }
    }
  }

  /** The running total of literal and cache-hit Begin bytes written
      (the global begin_payload_length). */
  class Stats {
    var beginPayloadLength: int

    constructor ()
      ensures beginPayloadLength == 0
    {
      beginPayloadLength := 0;
    }
  }

  // ---------------------------------------------------------------------
  // FlintFlush
  // ---------------------------------------------------------------------

  /** FlintFlush's result as line 220 computes it: `!fflush(...)` is true when
      fflush succeeds, so success is reported as failure. */
  function FlushVerdictAsWritten(hasCtx: bool, hasFile: bool, bufferOk: bool, streamOk: bool): bool
  {
    if hasCtx && hasFile then bufferOk && !streamOk else !hasCtx
  }

  /** The intended result: with a file, true exactly when both the buffer
      flush and fflush succeed; without one, true only when there is no
      context at all. */
  function FlushVerdict(hasCtx: bool, hasFile: bool, bufferOk: bool, streamOk: bool): bool
  {
    if hasCtx && hasFile then bufferOk && streamOk else !hasCtx
  }

  /** As written, a flush in which everything succeeds reports failure, and
      one whose fflush fails reports success. */
  lemma FlushAsWrittenInverted()
    ensures !FlushVerdictAsWritten(true, true, true, true)
    ensures FlushVerdictAsWritten(true, true, true, false)
  {
  }

  /** The corrected verdict is success exactly when nothing failed. */
  lemma FlushVerdictMeansSuccess(hasCtx: bool, hasFile: bool, bufferOk: bool, streamOk: bool)
    ensures FlushVerdict(hasCtx, hasFile, bufferOk, streamOk) <==>
      !hasCtx || (hasFile && bufferOk && streamOk)
    ensures FlushVerdict(hasCtx, hasFile, bufferOk, streamOk) ==>
      FlushVerdictAsWritten(hasCtx, hasFile, bufferOk, streamOk) == !(hasCtx && hasFile)
  {
  }

  /** The two steps FlintFlush takes when there is a file: the buffer is
      flushed into it, then fflush is called whatever that gave. */
  method FlushIntoFile(w: WriteBuffer, f: File) returns (bufferOk: bool, streamOk: bool)
    requires w.Valid()
    modifies w, f
    ensures w.Valid()
    ensures f.eof == old(f.eof) && f.error == (old(f.error) || !bufferOk || !streamOk)
    ensures f.log == old(f.log)
      + (if old(w.head) > 0 then [FWrite(old(w.data[..w.head]), bufferOk)] else [])
      + [FFlush(streamOk)]
    ensures w.head == (if bufferOk then 0 else old(w.head))
    ensures w.Contents(f) == old(w.Contents(f))
  {
    bufferOk := w.Flush(f);
    ghost var afterBuffer := f.log;
    streamOk := f.Flush();
    WrittenAppend(afterBuffer, FFlush(streamOk));
  }

  /** FlintFlush with line 220 as written. */
  method FlushAsWritten(ctx: Context?, wb: WriteBuffer?) returns (ok: bool, ghost bufferOk: bool, ghost streamOk: bool)
    requires wb != null ==> wb.Valid()
    modifies if wb != null then {wb} else {}
    modifies if ctx != null && ctx.file != null then {ctx.file} else {}
    ensures wb != null ==> wb.Valid()
    ensures ctx != null && ctx.file != null ==>
      ok == FlushVerdictAsWritten(true, true, bufferOk, streamOk)
      && ctx.file.log == old(ctx.file.log)
           + (if wb != null && old(wb.head) > 0 then [FWrite(old(wb.data[..wb.head]), bufferOk)] else [])
           + [FFlush(streamOk)]
      && ctx.file.eof == old(ctx.file.eof) && ctx.file.error == (old(ctx.file.error) || !bufferOk || !streamOk)
      && (wb != null ==> wb.head == (if bufferOk then 0 else old(wb.head)))
    ensures !(ctx != null && ctx.file != null) ==>
      ok == FlushVerdictAsWritten(ctx != null, false, true, true) && (wb != null ==> wb.head == 0)
  {
    var w: WriteBuffer;
    if wb == null {
      w := new WriteBuffer(0);
    } else {
      w := wb;
    }
    var result := true;
    bufferOk, streamOk := true, true;
    if ctx != null && ctx.file != null {
      var flushed, synced := FlushIntoFile(w, ctx.file);
      bufferOk, streamOk := flushed, synced;
      if !flushed {
        result := false;
      }
      if synced {
        result := false;
      }
    } else {
      w.head := 0;
      result := result && ctx == null;
    }
    ok := result;
  }

  /** FlintFlush with line 220 corrected: flushes the buffer into the file,
      then the file itself; with no file the buffer is discarded. */
  method Flush(ctx: Context?, wb: WriteBuffer?) returns (ok: bool, ghost bufferOk: bool, ghost streamOk: bool)
    requires wb != null ==> wb.Valid()
    modifies if wb != null then {wb} else {}
    modifies if ctx != null && ctx.file != null then {ctx.file} else {}
    ensures wb != null ==> wb.Valid()
    ensures ctx != null && ctx.file != null ==>
      ok == FlushVerdict(true, true, bufferOk, streamOk)
      && ctx.file.log == old(ctx.file.log)
           + (if wb != null && old(wb.head) > 0 then [FWrite(old(wb.data[..wb.head]), bufferOk)] else [])
           + [FFlush(streamOk)]
      && ctx.file.eof == old(ctx.file.eof) && ctx.file.error == (old(ctx.file.error) || !bufferOk || !streamOk)
      && (wb != null ==> wb.head == (if bufferOk then 0 else old(wb.head))
                         && wb.Contents(ctx.file) == old(wb.Contents(ctx.file)))
    ensures !(ctx != null && ctx.file != null) ==>
      ok == FlushVerdict(ctx != null, false, true, true) && (wb != null ==> wb.head == 0)
  {
    var w: WriteBuffer;
    if wb == null {
      w := new WriteBuffer(0);
    } else {
      w := wb;
    }
    var result := true;
    bufferOk, streamOk := true, true;
    if ctx != null && ctx.file != null {
      var flushed, synced := FlushIntoFile(w, ctx.file);
      bufferOk, streamOk := flushed, synced;
      if !flushed {
        result := false;
      }
      if !synced {
        result := false;
      }
    } else {
      w.head := 0;
      result := result && ctx == null;
    }
    ok := result;
  }

  // ---------------------------------------------------------------------
  // Begin and End
  // ---------------------------------------------------------------------

  /** The checks both tracers make before anything is written: a context
      with an open file and a cache, and neither end-of-file nor an error on
      the stream. */
  ghost predicate Ready(ctx: Context?)
    reads ctx, if ctx != null then {ctx.file} else {}
  {
    Open(ctx) && ctx.cache != null
  }

  /** The checks that concern the stream alone: a context with an open file
      that has neither reached end-of-file nor failed. */
  ghost predicate Open(ctx: Context?)
    reads ctx, if ctx != null then {ctx.file} else {}
  {
    ctx != null && ctx.file != null && !ctx.file.eof && !ctx.file.error
  }

  /** The record a Begin writes: in cache mode the name is hashed and looked
      up in its slot, and only an entry equal in hash, pid, tid and name
      makes a cache hit. On a miss in cache mode the slot and the entry that
      a written Begin stores there are returned too. */
  method ChooseBegin(cache: array<CacheEntry>, when: u64, nm: seq<byte>, tid: u32, pid: u32, useCache: bool)
    returns (record: Record, slot: nat, entry: CacheEntry, hit: bool)
    requires cache.Length == CACHE_SLOTS && |nm| <= MAX_NAME_LEN
    ensures record == BeginRecord(cache[..], useCache, when, nm, tid, pid)
    ensures useCache && !hit ==>
      slot < CACHE_SLOTS && cache[..][slot := entry] == CacheAfter(cache[..], useCache, nm, tid, pid)
    ensures !(useCache && !hit) ==> CacheAfter(cache[..], useCache, nm, tid, pid) == cache[..]
  {
    record := LiteralBegin(pid, tid, when, nm);
    hit := false;
    slot := 0;
    entry := EMPTY_ENTRY;
    if useCache {
      var hash := HashEntryLoop(nm, tid, pid);
      slot := hash as int % CACHE_SLOTS;
      entry := CacheEntry(hash, pid, tid, nm);
      hit := cache[slot] == entry;
      if hit {
        record := CachedBegin(when, slot as u16);
      }
    }
  }

  /** The binary half of a Begin: choose the record, write it, count it, and
      on a cache-mode miss that was written take over the slot. */
  method EmitBegin(file: File, cache: array<CacheEntry>, w: WriteBuffer, when: u64, nm: seq<byte>,
                   tid: u32, pid: u32, useCache: bool, stats: Stats)
    returns (ok: bool)
    requires cache.Length == CACHE_SLOTS && |nm| <= MAX_NAME_LEN && w.Valid()
    modifies file, cache, w, w.data, stats
    ensures w.Valid()
    ensures file.eof == old(file.eof) && file.error == (old(file.error) || !ok)
    ensures var payload := Encode(BeginRecord(old(cache[..]), useCache, when, nm, tid, pid));
      && w.Contents(file) == old(w.Contents(file)) + (if ok then payload else [])
      && (w.length == 0 ==> file.log == old(file.log) + [FWrite(payload, ok)])
      && stats.beginPayloadLength == old(stats.beginPayloadLength) + (if ok then |payload| else 0)
      && cache[..] == (if ok then CacheAfter(old(cache[..]), useCache, nm, tid, pid) else old(cache[..]))
  {
    ghost var before := cache[..];
    var record, slot, entry, hit := ChooseBegin(cache, when, nm, tid, pid, useCache);
    var payload := Encode(record);
    ghost var flushOk;
    ok, flushOk := w.Write(file, payload);
    if !ok {
      return;
    }
    stats.beginPayloadLength := stats.beginPayloadLength + |payload|;
    if useCache && !hit {
      cache[slot] := entry;
      assert cache[..] == before[slot := entry];
    }
  }

  /** FlintTraceBeginLenTidPid as written. `name` is None for a null name;
      `nameLen` is the signed length argument, cut to 255. Among its checks
      is one for a name cache, made before the JSON branch, although only
      binary mode allocates a cache: it is the corrected tracer below behind
      that extra check. In JSON mode one line is printed; in binary mode the
      record is a literal Begin, or, when `useCache` is set and the cache
      holds the name, an 11-byte cache hit. A write that succeeds adds its
      size to `stats`, and a cache-mode miss that is written takes over its
      cache slot. */
  method TraceBeginLenTidPid(ctx: Context?, wb: WriteBuffer?, when: u64, name: Option<seq<byte>>, nameLen: int,
                             tid: u32, pid: u32, useCache: bool, stats: Stats)
    returns (ok: bool)
    requires name.Some? && nameLen > 0 ==> Min(nameLen, MAX_NAME_LEN) <= |name.value|
    requires ctx != null ==> ctx.Valid()
    requires wb != null ==> wb.Valid()
    modifies stats
    modifies if wb != null then {wb, wb.data} else {}
    modifies if ctx != null && ctx.file != null then {ctx.file} else {}
    modifies if ctx != null && ctx.cache != null then {ctx.cache} else {}
    ensures wb != null ==> wb.Valid()
    ensures ctx != null && ctx.file != null ==> ctx.file.eof == old(ctx.file.eof)
    ensures !(old(Ready(ctx)) && name.Some? && nameLen > 0) ==>
      && !ok
      && stats.beginPayloadLength == old(stats.beginPayloadLength)
      && (ctx != null && ctx.file != null ==> ctx.file.log == old(ctx.file.log) && ctx.file.error == old(ctx.file.error))
      && (ctx != null && ctx.cache != null ==> ctx.cache[..] == old(ctx.cache[..]))
      && (wb != null ==> wb.head == old(wb.head) && wb.data[..] == old(wb.data[..]))
    ensures old(Ready(ctx)) && name.Some? && nameLen > 0 && ctx.isJson ==>
      && ctx.file.log == old(ctx.file.log) + [FText(ok)] && ctx.file.error == !ok
      && stats.beginPayloadLength == old(stats.beginPayloadLength)
      && ctx.cache[..] == old(ctx.cache[..])
      && (wb != null ==> wb.head == old(wb.head) && wb.data[..] == old(wb.data[..]))
    ensures old(Ready(ctx)) && name.Some? && nameLen > 0 && !ctx.isJson ==>
      var nm := name.value[..Min(nameLen, MAX_NAME_LEN)];
      var payload := Encode(BeginRecord(old(ctx.cache[..]), useCache, when, nm, tid, pid));
      && (wb == null ==> ctx.file.log == old(ctx.file.log) + [FWrite(payload, ok)])
      && ctx.file.error == !ok
      && (wb != null ==> wb.Contents(ctx.file) == old(wb.Contents(ctx.file)) + (if ok then payload else []))
      && stats.beginPayloadLength == old(stats.beginPayloadLength) + (if ok then |payload| else 0)
      && ctx.cache[..] == (if ok then CacheAfter(old(ctx.cache[..]), useCache, nm, tid, pid) else old(ctx.cache[..]))
  {
    if ctx == null || ctx.cache == null {
      return false;
    }
    ok := TraceBegin(ctx, wb, when, name, nameLen, tid, pid, useCache, stats);
  }

  /** FlintTraceBeginLenTidPid with the cache checked only where it is used:
      a JSON context, which has no cache, prints its line; a binary context
      without a cache refuses the event. */
  method TraceBegin(ctx: Context?, wb: WriteBuffer?, when: u64, name: Option<seq<byte>>, nameLen: int,
                    tid: u32, pid: u32, useCache: bool, stats: Stats)
    returns (ok: bool)
    requires name.Some? && nameLen > 0 ==> Min(nameLen, MAX_NAME_LEN) <= |name.value|
    requires ctx != null ==> ctx.Valid()
    requires wb != null ==> wb.Valid()
    modifies stats
    modifies if wb != null then {wb, wb.data} else {}
    modifies if ctx != null && ctx.file != null then {ctx.file} else {}
    modifies if ctx != null && ctx.cache != null then {ctx.cache} else {}
    ensures wb != null ==> wb.Valid()
    ensures ctx != null && ctx.file != null ==> ctx.file.eof == old(ctx.file.eof)
    ensures !(old(Open(ctx)) && name.Some? && nameLen > 0 && (ctx.isJson || ctx.cache != null)) ==>
      && !ok
      && stats.beginPayloadLength == old(stats.beginPayloadLength)
      && (ctx != null && ctx.file != null ==> ctx.file.log == old(ctx.file.log) && ctx.file.error == old(ctx.file.error))
      && (ctx != null && ctx.cache != null ==> ctx.cache[..] == old(ctx.cache[..]))
      && (wb != null ==> wb.head == old(wb.head) && wb.data[..] == old(wb.data[..]))
    ensures old(Open(ctx)) && name.Some? && nameLen > 0 && ctx.isJson ==>
      && ctx.file.log == old(ctx.file.log) + [FText(ok)] && ctx.file.error == !ok
      && stats.beginPayloadLength == old(stats.beginPayloadLength)
      && (ctx.cache != null ==> ctx.cache[..] == old(ctx.cache[..]))
      && (wb != null ==> wb.head == old(wb.head) && wb.data[..] == old(wb.data[..]))
    ensures old(Ready(ctx)) && name.Some? && nameLen > 0 && !ctx.isJson ==>
      var nm := name.value[..Min(nameLen, MAX_NAME_LEN)];
      var payload := Encode(BeginRecord(old(ctx.cache[..]), useCache, when, nm, tid, pid));
      && (wb == null ==> ctx.file.log == old(ctx.file.log) + [FWrite(payload, ok)])
      && ctx.file.error == !ok
      && (wb != null ==> wb.Contents(ctx.file) == old(wb.Contents(ctx.file)) + (if ok then payload else []))
      && stats.beginPayloadLength == old(stats.beginPayloadLength) + (if ok then |payload| else 0)
      && ctx.cache[..] == (if ok then CacheAfter(old(ctx.cache[..]), useCache, nm, tid, pid) else old(ctx.cache[..]))
  {
    var w: WriteBuffer;
    if wb == null {
      w := new WriteBuffer(0);
    } else {
      w := wb;
    }
    if ctx == null || name.None? || ctx.file == null || ctx.file.eof || ctx.file.error || nameLen <= 0 {
      return false;
    }
    var n := Min(nameLen, MAX_NAME_LEN);
    var nm := name.value[..n];
    if ctx.isJson {
      ok := ctx.file.PrintText();
      return;
    }
    if ctx.cache == null {
      return false;
    }
    ok := EmitBegin(ctx.file, ctx.cache, w, when, nm, tid, pid, useCache, stats);
  }

  /** FlintTraceEndTidPid as written: the same checks as a Begin except for
      the name, the cache check included, then one JSON line or one 17-byte
      End record. */
  method TraceEndTidPid(ctx: Context?, wb: WriteBuffer?, when: u64, tid: u32, pid: u32) returns (ok: bool)
    requires wb != null ==> wb.Valid()
    modifies if wb != null then {wb, wb.data} else {}
    modifies if ctx != null && ctx.file != null then {ctx.file} else {}
    ensures wb != null ==> wb.Valid()
    ensures ctx != null && ctx.file != null ==> ctx.file.eof == old(ctx.file.eof)
    ensures !old(Ready(ctx)) ==>
      && !ok
      && (ctx != null && ctx.file != null ==> ctx.file.log == old(ctx.file.log) && ctx.file.error == old(ctx.file.error))
      && (wb != null ==> wb.head == old(wb.head) && wb.data[..] == old(wb.data[..]))
    ensures old(Ready(ctx)) && ctx.isJson ==>
      && ctx.file.log == old(ctx.file.log) + [FText(ok)] && ctx.file.error == !ok
      && (wb != null ==> wb.head == old(wb.head) && wb.data[..] == old(wb.data[..]))
    ensures old(Ready(ctx)) && !ctx.isJson ==>
      var payload := Encode(End(pid, tid, when));
      && (wb == null ==> ctx.file.log == old(ctx.file.log) + [FWrite(payload, ok)])
      && ctx.file.error == !ok
      && (wb != null ==> wb.Contents(ctx.file) == old(wb.Contents(ctx.file)) + (if ok then payload else []))
  {
    if ctx == null || ctx.cache == null {
      return false;
    }
    ok := TraceEnd(ctx, wb, when, tid, pid);
  }

  /** FlintTraceEndTidPid with the cache checked only on the binary path. */
  method TraceEnd(ctx: Context?, wb: WriteBuffer?, when: u64, tid: u32, pid: u32) returns (ok: bool)
    requires wb != null ==> wb.Valid()
    modifies if wb != null then {wb, wb.data} else {}
    modifies if ctx != null && ctx.file != null then {ctx.file} else {}
    ensures wb != null ==> wb.Valid()
    ensures ctx != null && ctx.file != null ==> ctx.file.eof == old(ctx.file.eof)
    ensures !(old(Open(ctx)) && (ctx.isJson || ctx.cache != null)) ==>
      && !ok
      && (ctx != null && ctx.file != null ==> ctx.file.log == old(ctx.file.log) && ctx.file.error == old(ctx.file.error))
      && (wb != null ==> wb.head == old(wb.head) && wb.data[..] == old(wb.data[..]))
    ensures old(Open(ctx)) && ctx.isJson ==>
      && ctx.file.log == old(ctx.file.log) + [FText(ok)] && ctx.file.error == !ok
      && (wb != null ==> wb.head == old(wb.head) && wb.data[..] == old(wb.data[..]))
    ensures old(Ready(ctx)) && !ctx.isJson ==>
      var payload := Encode(End(pid, tid, when));
      && (wb == null ==> ctx.file.log == old(ctx.file.log) + [FWrite(payload, ok)])
      && ctx.file.error == !ok
      && (wb != null ==> wb.Contents(ctx.file) == old(wb.Contents(ctx.file)) + (if ok then payload else []))
  {
    var w: WriteBuffer;
    if wb == null {
      w := new WriteBuffer(0);
    } else {
      w := wb;
    }
    if ctx == null || ctx.file == null || ctx.file.eof || ctx.file.error {
      return false;
    }
    if ctx.isJson {
      ok := ctx.file.PrintText();
      return;
    }
    if ctx.cache == null {
      return false;
    }
    ghost var flushOk;
    ok, flushOk := w.Write(ctx.file, Encode(End(pid, tid, when)));
  }

  /** A context as FlintInitJson leaves it, which has no name cache: the
      tracers as written refuse every Begin and End and write nothing. */
  method JsonContextRejects(file: File, unit: u64, when: u64, name: seq<byte>, tid: u32, pid: u32, stats: Stats)
    returns (okBegin: bool, okEnd: bool)
    requires 0 < |name| <= MAX_NAME_LEN && !file.eof && !file.error
    modifies file, stats
    ensures !okBegin && !okEnd && file.log == old(file.log) && !file.error
  {
    var ctx := new Context(file, true, unit, false);
    okBegin := TraceBeginLenTidPid(ctx, null, when, Some(name), |name|, tid, pid, false, stats);
    okEnd := TraceEndTidPid(ctx, null, when, tid, pid);
  }

  /** The same context with the corrected tracers: the Begin prints one JSON
      line; a failed print sets the stream's error indicator, so the End
      prints its line only after a Begin line that went out. */
  method JsonContextTraces(file: File, unit: u64, when: u64, name: seq<byte>, tid: u32, pid: u32, stats: Stats)
    returns (okBegin: bool, okEnd: bool)
    requires 0 < |name| <= MAX_NAME_LEN && !file.eof && !file.error
    modifies file, stats
    ensures file.log == old(file.log) + [FText(okBegin)] + (if okBegin then [FText(okEnd)] else [])
    ensures !okBegin ==> !okEnd
    ensures file.error == !(okBegin && okEnd)
  {
    var ctx := new Context(file, true, unit, false);
    okBegin := TraceBegin(ctx, null, when, Some(name), |name|, tid, pid, false, stats);
    okEnd := TraceEnd(ctx, null, when, tid, pid);
  }
}

/** The packed binary records of the Spall trace format and the encoders that
    lay them out (spall.h, `spall_build_header`, `spall_build_begin`,
    `spall_build_end`, `spall_build_name`). An encoder is given the room left in
    the destination; it returns the record's bytes, or the empty sequence (the
    source's return value 0) when the record does not fit, in which case nothing
    is written. The decoder at the end is a reference reader for the same
    layout: it is what the round-trip lemmas are stated against. */
module SpallCodec {
  import opened Bytes

  const MAGIC: u64 := 0x0BADF00D
  const VERSION: u64 := 3

  /** sizeof(SpallHeader) */
  const HEADER_SIZE := 32
  /** sizeof(SpallBufferHeader): size, tid, pid (u32 each), first_ts (u64) */
  const BUFFER_HEADER_SIZE := 20
  /** sizeof(SpallBeginEvent): type, when, name_length, args_length */
  const BEGIN_EVENT_SIZE := 11
  /** sizeof(SpallBeginEventMax): the begin record with 255 name and 255 args bytes */
  const BEGIN_EVENT_MAX_SIZE := 521
  /** sizeof(SpallEndEvent): type, when */
  const END_EVENT_SIZE := 9
  /** sizeof(SpallNameContainerEvent): type, name_length */
  const NAME_EVENT_SIZE := 2

  const TYPE_BEGIN: byte := 3
  const TYPE_END: byte := 4
  const TYPE_NAME_PROCESS: byte := 8
  const TYPE_NAME_THREAD: byte := 9

  /** A name or argument string as the encoders copy it: its first
      SPALL_MIN(len, 255) bytes. */
  function Truncate(s: seq<byte>): (r: seq<byte>)
    ensures |r| == Min(|s|, 255)
    ensures r == s[..|r|]
    ensures |s| <= 255 ==> r == s
  {
    if |s| <= 255 then s else s[..255]
  }

  datatype Header = Header(magic: u64, version: u64, timestampUnit: u64, mustBeZero: u64)

  datatype NameKind = ThreadName | ProcessName

  datatype Event =
    | Begin(when: u64, name: seq<byte>, args: seq<byte>)
    | End(when: u64)
    | Name(kind: NameKind, name: seq<byte>)

  /** The events the format can carry: every string fits its one-byte length. */
  predicate WellFormed(e: Event)
  {
    match e
    case Begin(_, name, args) => |name| <= 255 && |args| <= 255
    case End(_) => true
    case Name(_, name) => |name| <= 255
  }

  function KindTag(k: NameKind): byte
  {
    match k
    case ThreadName => TYPE_NAME_THREAD
    case ProcessName => TYPE_NAME_PROCESS
  }

  function HeaderBytes(h: Header): (r: seq<byte>)
    ensures |r| == HEADER_SIZE
  {
    LE64(h.magic) + LE64(h.version) + LE64(h.timestampUnit) + LE64(h.mustBeZero)
  }

  /** The packed layout of one event (SpallBeginEvent + name + args,
      SpallEndEvent, SpallNameContainerEvent + name). */
  function Encode(e: Event): (r: seq<byte>)
    requires WellFormed(e)
    ensures |r| == EncodedSize(e)
    ensures r[0] == EventTag(e)
  {
    match e
    case Begin(when, name, args) =>
      [TYPE_BEGIN] + LE64(when) + [|name| as byte, |args| as byte] + name + args
    case End(when) => [TYPE_END] + LE64(when)
    case Name(kind, name) => [KindTag(kind), |name| as byte] + name
  }

  /** The type byte that opens an event's record. */
  function EventTag(e: Event): byte
  {
    match e
    case Begin(_, _, _) => TYPE_BEGIN
    case End(_) => TYPE_END
    case Name(kind, _) => KindTag(kind)
  }

  function EncodedSize(e: Event): nat
    requires WellFormed(e)
  {
    match e
    case Begin(_, name, args) => BEGIN_EVENT_SIZE + |name| + |args|
    case End(_) => END_EVENT_SIZE
    case Name(_, name) => NAME_EVENT_SIZE + |name|
  }

  /** spall_build_header: the 32-byte stream header, or nothing if it does not fit. */
  function BuildHeader(remSize: nat, timestampUnit: u64): (r: seq<byte>)
    ensures |r| == (if HEADER_SIZE > remSize then 0 else HEADER_SIZE)
    ensures r != [] ==> DecodeHeader(r) == Some(Header(MAGIC, VERSION, timestampUnit, 0))
  {
    if HEADER_SIZE > remSize then []
    else
      var r := HeaderBytes(Header(MAGIC, VERSION, timestampUnit, 0));
      HeaderRoundTrip(Header(MAGIC, VERSION, timestampUnit, 0));
      r
  }

  /** spall_build_begin: the name and the args are truncated to 255 bytes each,
      independently; the record is returned only if all of it fits. */
  function BuildBegin(remSize: nat, name: seq<byte>, args: seq<byte>, when: u64): (r: seq<byte>)
    ensures r == [] <==> BEGIN_EVENT_SIZE + Min(|name|, 255) + Min(|args|, 255) > remSize
    ensures r != [] ==> |r| == BEGIN_EVENT_SIZE + Min(|name|, 255) + Min(|args|, 255) <= remSize
    ensures r != [] ==> DecodeEvent(r) == Some((Begin(when, Truncate(name), Truncate(args)), |r|))
  {
    var e := Begin(when, Truncate(name), Truncate(args));
    if EncodedSize(e) > remSize then []
    else
      DecodeEncoded(e, []);
      assert Encode(e) + [] == Encode(e);
      Encode(e)
  }

  /** spall_build_end: the 9-byte end record. */
  function BuildEnd(remSize: nat, when: u64): (r: seq<byte>)
    ensures r == [] <==> END_EVENT_SIZE > remSize
    ensures r != [] ==> |r| == END_EVENT_SIZE && DecodeEvent(r) == Some((End(when), END_EVENT_SIZE))
  {
    if END_EVENT_SIZE > remSize then []
    else
      DecodeEncoded(End(when), []);
      assert Encode(End(when)) + [] == Encode(End(when));
      Encode(End(when))
  }

  /** spall_build_name: a thread or process name record, name truncated to 255 bytes. */
  function BuildName(remSize: nat, name: seq<byte>, kind: NameKind): (r: seq<byte>)
    ensures r == [] <==> NAME_EVENT_SIZE + Min(|name|, 255) > remSize
    ensures r != [] ==> |r| == NAME_EVENT_SIZE + Min(|name|, 255) <= remSize
    ensures r != [] ==> DecodeEvent(r) == Some((Name(kind, Truncate(name)), |r|))
  {
    var e := Name(kind, Truncate(name));
    if EncodedSize(e) > remSize then []
    else
      DecodeEncoded(e, []);
      assert Encode(e) + [] == Encode(e);
      Encode(e)
  }

  // ---------------------------------------------------------------------------
  // Reference reader

  function DecodeHeader(s: seq<byte>): Option<Header>
  {
    if |s| < HEADER_SIZE then None
    else Some(Header(ReadLE64(s[0..8]), ReadLE64(s[8..16]), ReadLE64(s[16..24]), ReadLE64(s[24..32])))
  }

  lemma HeaderRoundTrip(h: Header)
    ensures DecodeHeader(HeaderBytes(h)) == Some(h)
  {
    var s := HeaderBytes(h);
    assert s[0..8] == LE64(h.magic);
    assert s[8..16] == LE64(h.version);
    assert s[16..24] == LE64(h.timestampUnit);
    assert s[24..32] == LE64(h.mustBeZero);
    LE64RoundTrip(h.magic);
    LE64RoundTrip(h.version);
    LE64RoundTrip(h.timestampUnit);
    LE64RoundTrip(h.mustBeZero);
  }

  /** Reads one record from the front of `s`: the event and the number of
      bytes it occupies. Dispatch is on the leading type byte only; any other
      type byte, or a record cut short, is an error. */
  function DecodeEvent(s: seq<byte>): (r: Option<(Event, nat)>)
    ensures r.Some? ==> 0 < r.value.1 <= |s| && WellFormed(r.value.0)
  {
    if |s| == 0 then None
    else if s[0] == TYPE_BEGIN then
      if |s| < BEGIN_EVENT_SIZE then None
      else
        var n, a := s[9] as int, s[10] as int;
        if |s| < BEGIN_EVENT_SIZE + n + a then None
        else Some((Begin(ReadLE64(s[1..9]), s[11..11 + n], s[11 + n..11 + n + a]), BEGIN_EVENT_SIZE + n + a))
    else if s[0] == TYPE_END then
      if |s| < END_EVENT_SIZE then None
      else Some((End(ReadLE64(s[1..9])), END_EVENT_SIZE))
    else if s[0] == TYPE_NAME_THREAD || s[0] == TYPE_NAME_PROCESS then
      if |s| < NAME_EVENT_SIZE then None
      else
        var n := s[1] as int;
        if |s| < NAME_EVENT_SIZE + n then None
        else Some((Name(if s[0] == TYPE_NAME_THREAD then ThreadName else ProcessName, s[2..2 + n]), NAME_EVENT_SIZE + n))
    else None
  }

  /** Decoding an encoded record, whatever follows it, gives the record back. */
  lemma DecodeEncoded(e: Event, rest: seq<byte>)
    requires WellFormed(e)
    ensures DecodeEvent(Encode(e) + rest) == Some((e, |Encode(e)|))
  {
    match e
    case Begin(when, name, args) => DecodeEncodedBegin(when, name, args, rest);
    case End(when) => DecodeEncodedEnd(when, rest);
    case Name(kind, name) => DecodeEncodedName(kind, name, rest);
  }

  lemma DecodeEncodedBegin(when: u64, name: seq<byte>, args: seq<byte>, rest: seq<byte>)
    requires |name| <= 255 && |args| <= 255
    ensures DecodeEvent(Encode(Begin(when, name, args)) + rest)
         == Some((Begin(when, name, args), BEGIN_EVENT_SIZE + |name| + |args|))
  {
    var s := Encode(Begin(when, name, args)) + rest;
    BeginLayout(when, name, args, rest);
    assert ReadLE64(s[1..9]) == when by { LE64RoundTrip(when); }
  }

  /** Where the fields of an encoded Begin sit. */
  lemma BeginLayout(when: u64, name: seq<byte>, args: seq<byte>, rest: seq<byte>)
    requires |name| <= 255 && |args| <= 255
    ensures var s := Encode(Begin(when, name, args)) + rest;
      && |s| >= BEGIN_EVENT_SIZE + |name| + |args|
      && s[0] == TYPE_BEGIN && s[1..9] == LE64(when)
      && s[9] as int == |name| && s[10] as int == |args|
      && s[11..11 + |name|] == name
      && s[11 + |name|..11 + |name| + |args|] == args
  {
    var head := [TYPE_BEGIN] + LE64(when) + [|name| as byte, |args| as byte];
    var tail := name + (args + rest);
    var s := head + tail;
    assert Encode(Begin(when, name, args)) + rest == s by {
      Regroup(head + name, args, rest);
      Regroup(head, name, args + rest);
    }
    assert s[1..9] == LE64(when) by {
      FrontSlice(head, tail, 1, 9);
      assert head[1..9] == LE64(when);
    }
    assert s[11..11 + |name|] == name by {
      BackSlice(head, tail, 11, 11 + |name|);
      FrontSlice(name, args + rest, 0, |name|);
    }
    assert s[11 + |name|..11 + |name| + |args|] == args by {
      BackSlice(head, tail, 11 + |name|, 11 + |name| + |args|);
      BackSlice(name, args + rest, |name|, |name| + |args|);
      FrontSlice(args, rest, 0, |args|);
    }
  }

  /** A slice inside the front part of a concatenation. */
  lemma FrontSlice(x: seq<byte>, y: seq<byte>, i: int, j: int)
    requires 0 <= i <= j <= |x|
    ensures (x + y)[i..j] == x[i..j]
  {
  }

  /** A slice inside the back part of a concatenation. */
  lemma BackSlice(x: seq<byte>, y: seq<byte>, i: int, j: int)
    requires |x| <= i <= j <= |x| + |y|
    ensures (x + y)[i..j] == y[i - |x|..j - |x|]
  {
  }

  lemma DecodeEncodedEnd(when: u64, rest: seq<byte>)
    ensures DecodeEvent(Encode(End(when)) + rest) == Some((End(when), END_EVENT_SIZE))
  {
    var w := LE64(when);
    var s := [TYPE_END] + w + rest;
    assert Encode(End(when)) + rest == s;
    assert s[1..9] == w;
    assert ReadLE64(w) == when by { LE64RoundTrip(when); }
  }

  lemma DecodeEncodedName(kind: NameKind, name: seq<byte>, rest: seq<byte>)
    requires |name| <= 255
    ensures DecodeEvent(Encode(Name(kind, name)) + rest) == Some((Name(kind, name), NAME_EVENT_SIZE + |name|))
  {
    var s := [KindTag(kind), |name| as byte] + name + rest;
    assert Encode(Name(kind, name)) + rest == s;
    assert s[1] as int == |name|;
    assert s[2..2 + |name|] == name;
  }

  /** The payload of a chunk: the wellformed events one after another. */
  function EncodeAll(evs: seq<Event>): (r: seq<byte>)
    requires forall i :: 0 <= i < |evs| ==> WellFormed(evs[i])
    decreases |evs|
  {
    if evs == [] then [] else Encode(evs[0]) + EncodeAll(evs[1..])
  }

  lemma {:induction false} EncodeAllAppend(evs: seq<Event>, e: Event)
    requires forall i :: 0 <= i < |evs| ==> WellFormed(evs[i])
    requires WellFormed(e)
    ensures forall i :: 0 <= i < |evs + [e]| ==> WellFormed((evs + [e])[i])
    ensures EncodeAll(evs + [e]) == EncodeAll(evs) + Encode(e)
  {
    if evs == [] {
      assert evs + [e] == [e];
      assert [e][1..] == [];
    } else {
      var rest := evs[1..];
      assert (evs + [e])[1..] == rest + [e];
      EncodeAllAppend(rest, e);
      assert EncodeAll(evs + [e]) == Encode(evs[0]) + (EncodeAll(rest) + Encode(e));
      Regroup(Encode(evs[0]), EncodeAll(rest), Encode(e));
    }
  }

  lemma Regroup(x: seq<byte>, y: seq<byte>, z: seq<byte>)
    ensures x + (y + z) == x + y + z
  {
  }

  /** Reads a whole payload as a sequence of records. */
  function DecodeEvents(s: seq<byte>): Option<seq<Event>>
    decreases |s|
  {
    if s == [] then Some([])
    else match DecodeEvent(s)
      case None => None
      case Some((e, k)) =>
        match DecodeEvents(s[k..])
        case None => None
        case Some(rest) => Some([e] + rest)
  }

  /** Round trip of a payload: the reader recovers every event, in order. */
  lemma {:induction false} DecodeEncodeAll(evs: seq<Event>)
    requires forall i :: 0 <= i < |evs| ==> WellFormed(evs[i])
    ensures DecodeEvents(EncodeAll(evs)) == Some(evs)
  {
    if evs != [] {
      var head, tail := Encode(evs[0]), EncodeAll(evs[1..]);
      var s := EncodeAll(evs);
      assert s == head + tail;
      DecodeEncoded(evs[0], tail);
      assert s[|head|..] == tail;
      DecodeEncodeAll(evs[1..]);
      DecodeEventsStep(s, evs[0], |head|, evs[1..]);
      assert [evs[0]] + evs[1..] == evs;
    }
  }

  /** One step of the payload reader: a record followed by a readable rest. */
  lemma DecodeEventsStep(s: seq<byte>, e: Event, k: nat, rest: seq<Event>)
    requires s != [] && DecodeEvent(s) == Some((e, k)) && k <= |s|
    requires DecodeEvents(s[k..]) == Some(rest)
    ensures DecodeEvents(s) == Some([e] + rest)
  {
  }

  // ---------------------------------------------------------------------------
  // Flushed chunks

  datatype BufferHeader = BufferHeader(size: u32, tid: u32, pid: u32, firstTs: u64)

  /** The 20-byte SpallBufferHeader that prefixes every flushed chunk. */
  function BufferHeaderBytes(h: BufferHeader): (r: seq<byte>)
    ensures |r| == BUFFER_HEADER_SIZE
  {
    LE32(h.size) + LE32(h.tid) + LE32(h.pid) + LE64(h.firstTs)
  }

  /** Reads a chunk: its header, then exactly `size` bytes of records. */
  function DecodeChunk(s: seq<byte>): Option<(BufferHeader, seq<Event>)>
  {
    if |s| < BUFFER_HEADER_SIZE then None
    else
      var h := BufferHeader(ReadLE32(s[0..4]), ReadLE32(s[4..8]), ReadLE32(s[8..12]), ReadLE64(s[12..20]));
      if |s| != BUFFER_HEADER_SIZE + h.size as int then None
      else match DecodeEvents(s[BUFFER_HEADER_SIZE..])
        case None => None
        case Some(evs) => Some((h, evs))
  }

  /** A chunk made of a header whose size field is the payload's length and of
      encoded events reads back as that header and those events. */
  lemma ChunkRoundTrip(tid: u32, pid: u32, firstTs: u64, evs: seq<Event>)
    requires forall i :: 0 <= i < |evs| ==> WellFormed(evs[i])
    requires |EncodeAll(evs)| < TWO_POW_32
    ensures var h := BufferHeader(|EncodeAll(evs)| as u32, tid, pid, firstTs);
            DecodeChunk(BufferHeaderBytes(h) + EncodeAll(evs)) == Some((h, evs))
  {
    var p := EncodeAll(evs);
    var h := BufferHeader(|p| as u32, tid, pid, firstTs);
    ChunkHeaderLayout(h, p);
    DecodeEncodeAll(evs);
  }

  /** The fields of a chunk header read back from the front of the chunk. */
  lemma ChunkHeaderLayout(h: BufferHeader, p: seq<byte>)
    ensures var s := BufferHeaderBytes(h) + p;
      && |s| == BUFFER_HEADER_SIZE + |p|
      && ReadLE32(s[0..4]) == h.size && ReadLE32(s[4..8]) == h.tid
      && ReadLE32(s[8..12]) == h.pid && ReadLE64(s[12..20]) == h.firstTs
      && s[BUFFER_HEADER_SIZE..] == p
  {
    var a, b, c, d := LE32(h.size), LE32(h.tid), LE32(h.pid), LE64(h.firstTs);
    var s := a + b + c + d + p;
    assert BufferHeaderBytes(h) + p == s;
    assert s[0..4] == a && s[4..8] == b && s[8..12] == c && s[12..20] == d;
    assert s[BUFFER_HEADER_SIZE..] == p;
    LE32RoundTrip(h.size);
    LE32RoundTrip(h.tid);
    LE32RoundTrip(h.pid);
    LE64RoundTrip(h.firstTs);
  }
}

/** The Spall profile (spall.h, `SpallProfile`, `spall_init_callbacks`,
    `spall_quit`, `spall_flush`): the destination of a trace, reached through a
    caller-supplied write/flush/close callback triple, and the one-time header
    write that opens the stream. */
module SpallProfile {
  import opened Bytes
  import opened SpallCodec

  /** One invocation of a callback, with the success flag it returned. */
  datatype Call = WriteCall(bytes: seq<byte>, ok: bool) | FlushCall(ok: bool) | CloseCall

  /** The bytes a destination has accepted: the payloads of the successful
      writes, in order. */
  function Accepted(log: seq<Call>): (r: seq<byte>)
    decreases |log|
  {
    if log == [] then []
    else
      var last := log[|log| - 1];
      Accepted(log[..|log| - 1]) + (if last.WriteCall? && last.ok then last.bytes else [])
  }

  lemma AcceptedAppend(log: seq<Call>, c: Call)
    ensures Accepted(log + [c]) == Accepted(log) + (if c.WriteCall? && c.ok then c.bytes else [])
  {
    assert (log + [c])[..|log|] == log;
  }

  /** The bytes a failed or successful header write leaves at the
      destination: the header when the write succeeds, nothing new when it
      fails, whether or not a close follows. */
  lemma InitAccepted(before: seq<Call>, header: seq<byte>, ok: bool, hasClose: bool)
    ensures var after := before + [WriteCall(header, ok)] + (if !ok && hasClose then [CloseCall] else []);
            Accepted(after) == Accepted(before) + (if ok then header else [])
  {
    var written := before + [WriteCall(header, ok)];
    AcceptedAppend(before, WriteCall(header, ok));
    if !ok && hasClose {
      AcceptedAppend(written, CloseCall);
    } else {
      assert written + [] == written;
    }
  }

  /** The callback triple together with the user data it acts on. The write
      callback is always present; `hasFlush` and `hasClose` say whether the
      flush and close callbacks are non-null. What a callback does with the
      bytes is outside the model: each call is recorded, and its success flag
      is arbitrary. */
  class Sink {
    const hasFlush: bool
    const hasClose: bool
    var log: seq<Call>

    constructor (hasFlush: bool, hasClose: bool)
      ensures this.hasFlush == hasFlush && this.hasClose == hasClose
      ensures log == []
    {
      this.hasFlush := hasFlush;
      this.hasClose := hasClose;
      log := [];
    }

    method Write(bytes: seq<byte>) returns (ok: bool)
      modifies this
      ensures log == old(log) + [WriteCall(bytes, ok)]
    {
      ok :| true;
      log := log + [WriteCall(bytes, ok)];
    }

    method Flush() returns (ok: bool)
      requires hasFlush
      modifies this
      ensures log == old(log) + [FlushCall(ok)]
    {
      ok :| true;
      log := log + [FlushCall(ok)];
    }

    method Close()
      requires hasClose
      modifies this
      ensures log == old(log) + [CloseCall]
    {
      log := log + [CloseCall];
    }
  }

  /** A SpallProfile. `timestampUnit` is the bit pattern of the double; `sink`
      stands for the callbacks and the user data, all null once the
      profile has been zeroed. */
  class Profile {
    var timestampUnit: u64
    var sink: Sink?

    ghost predicate Zeroed()
      reads this
    {
      timestampUnit == 0 && sink == null
    }

    /** A profile whose memory starts out zeroed, as a static SpallProfile does. */
    constructor ()
      ensures Zeroed()
    {
      timestampUnit := 0;
      sink := null;
    }
  }

  const SIGN_BIT: int := 0x8000_0000_0000_0000
  const POSITIVE_INFINITY: int := 0x7FF0_0000_0000_0000

  /** `x < 0` for the IEEE 754 binary64 value whose bit pattern is `bits`: the
      sign bit is set and the value is neither a zero nor a NaN (negative
      infinity is below zero). */
  predicate IsNegative(bits: u64)
  {
    var magnitude := bits as int % SIGN_BIT;
    bits as int >= SIGN_BIT && 0 < magnitude <= POSITIVE_INFINITY
  }

  /** The comparison on a few bit patterns: -1.0 and negative infinity are
      below zero; negative zero, 1.0 and a NaN with its sign bit set are not. */
  lemma IsNegativeAnswers()
    ensures IsNegative(0xBFF0_0000_0000_0000) && IsNegative(0xFFF0_0000_0000_0000)
    ensures !IsNegative(0x8000_0000_0000_0000) && !IsNegative(0x3FF0_0000_0000_0000)
    ensures !IsNegative(0xFFF8_0000_0000_0000)
  {
  }

  /** spall_quit: on a null profile nothing happens; otherwise the close
      callback, when there is one, is called once and the profile is zeroed,
      so that a second quit calls nothing. */
  method Quit(ctx: Profile?)
    modifies ctx
    modifies if ctx != null && ctx.sink != null then {ctx.sink} else {}
    ensures ctx != null ==> ctx.Zeroed()
    ensures ctx != null && old(ctx.sink) != null ==>
      old(ctx.sink).log == old(ctx.sink.log) + (if old(ctx.sink.hasClose) then [CloseCall] else [])
  {
    if ctx == null {
      return;
    }
    if ctx.sink != null && ctx.sink.hasClose {
      ctx.sink.Close();
    }
    ctx.timestampUnit := 0;
    ctx.sink := null;
  }

  /** spall_init_callbacks: a negative timestamp unit is refused before
      anything is touched; otherwise the profile takes the callbacks and the
      32-byte stream header is written through them. If that write fails the
      profile is quit (closed when it can be, then zeroed). */
  method InitCallbacks(timestampUnit: u64, sink: Sink, ctx: Profile) returns (ok: bool)
    modifies ctx, sink
    ensures IsNegative(timestampUnit) ==>
      !ok && ctx.timestampUnit == old(ctx.timestampUnit) && ctx.sink == old(ctx.sink) && sink.log == old(sink.log)
    ensures !IsNegative(timestampUnit) ==>
      var header := BuildHeader(HEADER_SIZE, timestampUnit);
      && |sink.log| > |old(sink.log)|
      && sink.log[..|old(sink.log)| + 1] == old(sink.log) + [WriteCall(header, ok)]
      && (ok ==> ctx.timestampUnit == timestampUnit && ctx.sink == sink && sink.log == old(sink.log) + [WriteCall(header, true)])
      && (!ok ==> ctx.Zeroed() && sink.log == old(sink.log) + [WriteCall(header, false)] + (if sink.hasClose then [CloseCall] else []))
    ensures Accepted(sink.log) == Accepted(old(sink.log)) + (if ok then BuildHeader(HEADER_SIZE, timestampUnit) else [])
  {
    if IsNegative(timestampUnit) {
      return false;
    }
    ctx.timestampUnit := timestampUnit;
    ctx.sink := sink;
    var header := BuildHeader(HEADER_SIZE, timestampUnit);
    ok := sink.Write(header);
    if !ok {
      ghost var afterWrite := sink.log;
      Quit(ctx);
      assert sink.log[..|old(sink.log)| + 1] == afterWrite;
      InitAccepted(old(sink.log), header, ok, sink.hasClose);
      return false;
    }
    InitAccepted(old(sink.log), header, ok, sink.hasClose);
  }

  /** spall_flush: asks the destination to flush; the flush callback must exist. */
  method Flush(ctx: Profile) returns (ok: bool)
    requires ctx.sink != null && ctx.sink.hasFlush
    modifies ctx.sink
    ensures ctx.sink.log == old(ctx.sink.log) + [FlushCall(ok)]
  {
    ok := ctx.sink.Flush();
  }
}

# Spall tracing core, modelled in Dafny

Spall is a profiler. Programs emit begin/end events and a web viewer draws
them. This project models the tracing core and proves properties of it:

- **Spall codec and write buffer** (`spall.h`). Packed little-endian records:
  - a 32-byte stream header;
  - Begin (11 bytes plus name plus args);
  - End (9 bytes);
  - thread/process name (2 bytes plus name).

  A per-thread buffer collects records behind a 20-byte chunk header and hands
  whole chunks to a write callback. A profile owns the callback triple and
  writes the stream header when it is opened.
- **Symbol cache of the auto-tracing hooks** (`examples/auto_tracing/instrument.c`).
  - A dense array of address/name entries.
  - A power-of-two open-addressing index hashed by Fibonacci hashing and probed linearly.
  - Insertion on a miss through a name resolver that may fail.
  - The 128-bit tick conversion `mul_u64_u32_shr`.
- **Flint prototype writer** (`tools/flint.h`).
  - A buffered file writer.
  - `FlintFlush`.
  - MurmurHash3 x86_32 and the `hash_entry` cache key.
  - The Begin/End tracers with a 1024-slot direct-mapped name cache.
- **Web runtime helpers** (`src/wasm_runtime.js`).
  - `generateHash`, an int32 rolling hash.
  - `putString`, a store of a string into wasm memory.
  - The per-stream line accumulator of `writeToConsole` with its HTML line list.

## Structure

- `bytes.dfy`, module `Bytes`:
  - byte and word types;
  - little-endian encoding and its inverse;
  - a copy into an array.
- `spall_codec.dfy`, module `SpallCodec`:
  - the record datatypes;
  - the encoders as functions;
  - a reference decoder;
  - the round trips.
- `spall_profile.dfy`, module `SpallProfile`:
  - the callback sink as a class that logs each call, with an arbitrary success flag;
  - the profile;
  - `spall_init_callbacks`, `spall_quit`, `spall_flush`.
- `spall_buffer.dfy`, module `SpallBuffer`:
  - the `SpallBuffer` class over an `array<byte>`, with a ghost list of the records it holds;
  - init, flush, begin, end and names.
- `symbol_cache.dfy`, module `SymbolCache`:
  - the `AddrHash` class over two arrays;
  - the probe as a specification function;
  - the index invariant and its lemmas;
  - the resolver as a class that logs its answers;
  - `mul_u64_u32_shr`.
- `flint_hash.dfy`, module `FlintHash`: `murmur32` on 32-bit words, as a function and as the source's loop, and `hash_entry`.
- `flint.dfy`, module `Flint`:
  - the Flint records and their decoder;
  - the name cache;
  - the file sink;
  - `FlintWriteBuffer`;
  - `FlintFlush`, both as written and corrected;
  - the Begin/End tracers.
- `wasm_runtime.dfy`, module `WasmRuntime`:
  - `generateHash`;
  - `putString`;
  - `String.split` on newlines and its inverse;
  - the console as a class holding the pending lines, the previous stream, what has been printed, the HTML lines and the shown text.

I/O goes through logging classes. A write, flush or close callback, `fwrite`
and `fflush` all return a nondeterministic success flag, and each call is
recorded. Contracts state the exact call log and the bytes that reach the
destination. The `dladdr` resolver is an oracle of the same kind.
Timestamps and `timestamp_unit` are doubles that are only copied, so they
are modelled as their 64-bit patterns.

Points where the code behaves in a way a reader might not expect, modelled as
written:

- `first_ts`: only `spall__buffer_flush` changes it (spall.h:158), to
  `max(first_ts, ts)`. A flush from begin or end passes the event's time, and
  `spall_buffer_flush` passes 0. So a chunk that `spall_buffer_flush` flushes
  after begin at 100 and end at 150 carries `first_ts = 0`, not 100.
- HTML list: a chunk ending in a newline (other than a lone "\n") gives its
  last line a newline of its own. The HTML text therefore gains one newline
  more than the chunk has.

## Model

| member | source | states |
|---|---|---|
| SpallCodec.Truncate | spall.h:198-199 | a copied string is the prefix of min(len, 255) bytes, and the whole string when it is short |
| SpallCodec.HeaderRoundTrip | spall.h:46-51 | decoding the 32 header bytes gives back magic, version, timestamp unit and the zero field |
| SpallCodec.Encode | spall.h:76-108 | each packed record is as long as its struct (Begin 11 + name + args, End 9, Name 2 + name) and starts with its type byte |
| SpallCodec.BuildHeader | spall.h:183-195 | nothing when 32 bytes do not fit; otherwise 32 bytes that decode to magic 0x0BADF00D, version 3, the unit and must_be_0 = 0 |
| SpallCodec.BuildBegin | spall.h:196-214 | empty exactly when 11 + min(name,255) + min(args,255) exceeds the room; otherwise that many bytes, decoding to Begin(when, truncated name, truncated args) |
| SpallCodec.BuildEnd | spall.h:215-226 | empty exactly when 9 bytes do not fit; otherwise 9 bytes decoding to End(when) |
| SpallCodec.BuildName | spall.h:227-241 | empty exactly when 2 + min(name,255) does not fit; otherwise that many bytes, decoding to the name record of that kind with the truncated name |
| SpallCodec.DecodeEvent | spall.h:53-108 | the reference reader: what it accepts is a well-formed record of positive length within the input |
| SpallCodec.DecodeEncoded | spall.h:76-108 | any well-formed record, followed by anything, decodes back to itself and its size |
| SpallCodec.DecodeEncodedBegin | spall.h:206-211 | type 3, `when` in 8 bytes, both lengths, then name and args: decoding recovers all of them |
| SpallCodec.DecodeEncodedEnd | spall.h:221-223 | type 4 and `when` decode back to End(when), 9 bytes |
| SpallCodec.DecodeEncodedName | spall.h:236-238 | type, length, then name bytes decode back to the name record |
| SpallCodec.DecodeEncodeAll | spall.h:305-352 | records appended one after another are read back, all of them, in order |
| SpallCodec.ChunkRoundTrip | spall.h:157-168 | a chunk whose header size is the payload length decodes to that header and the events |
| SpallProfile.Sink.Write | spall.h:115 | each write callback call is logged with its bytes and its result |
| SpallProfile.Sink.Flush | spall.h:116 | each flush callback call is logged with its result |
| SpallProfile.Sink.Close | spall.h:117 | each close callback call is logged |
| SpallProfile.Profile.constructor | spall.h:119-125 | a fresh profile is zeroed: no callbacks, unit 0 |
| SpallProfile.IsNegativeAnswers | spall.h:257 | the `< 0` test on bit patterns: -1.0 and -inf below zero; -0.0, 1.0 and a signed NaN not |
| SpallProfile.Quit | spall.h:243-248 | on a profile: the close callback, if any, is called exactly once, then everything is zeroed, so no callback remains for a second quit |
| SpallProfile.InitCallbacks | spall.h:250-274 | a negative unit fails with nothing touched; otherwise the first call is the write of the 32-byte header; it succeeds with the callbacks installed, or fails, closes and zeroes; the destination receives exactly the header on success and nothing new on failure |
| SpallProfile.Flush | spall.h:289-292 | one flush callback call, whose result is returned |
| SpallBuffer.Buffer.constructor | spall.h:129-138 | the caller's region, tid and pid; head 0, first_ts 0, nothing buffered |
| SpallBuffer.Buffer.Init | spall.h:294-302 | succeeds exactly when length >= 20 + 521, then head = 20 and nothing buffered; on failure head is untouched |
| SpallBuffer.Buffer.FlushChunk | spall.h:157-171 | first_ts = max(first_ts, ts); header bytes 0..19 stamped with size head-20, tid, pid, first_ts; one write of exactly the chunk bytes; head reset to 20 only on success |
| SpallBuffer.Buffer.Flush | spall.h:173-181 | the same with ts = 0, so first_ts is unchanged |
| SpallBuffer.Buffer.BeginArgs | spall.h:305-315 | flushes exactly when head + 521 > length (ts = when); a failed flush appends nothing; otherwise the record is appended and head grows by its size; a write callback is needed only when it flushes |
| SpallBuffer.Buffer.Begin | spall.h:317-319 | BeginArgs with empty args |
| SpallBuffer.Buffer.End | spall.h:321-330 | flushes exactly when head + 9 > length; otherwise or after a successful flush, End(when) is appended and head grows by 9; a write callback is needed only when it flushes |
| SpallBuffer.Buffer.NameRecord | spall.h:332-352 | flushes (ts 0) only when head + 2 > length; a record that does not fit is dropped silently, returning true with head unchanged; a write callback is needed only when it flushes |
| SpallBuffer.Buffer.NameThread | spall.h:332-341 | NameRecord for a thread name |
| SpallBuffer.Buffer.NameProcess | spall.h:343-352 | NameRecord for a process name |
| SpallBuffer.ChunkDecodes | spall.h:157-168 | the bytes one flush writes decode to the stamped header and exactly the records buffered since the last flush |
| SymbolCache.NextPow2 | examples/auto_tracing/instrument.c:50-52 | the smallest power of two that is at least x (x >= 2) |
| SymbolCache.FibHash | examples/auto_tracing/instrument.c:79-81 | a signed 32-bit value congruent to low32(addr) * 2654435769 modulo 2^32 |
| SymbolCache.Home | examples/auto_tracing/instrument.c:96-97 | the home slot lies in the index |
| SymbolCache.PathSlot | examples/auto_tracing/instrument.c:99 | probe step i visits a slot of the index |
| SymbolCache.Probe | examples/auto_tracing/instrument.c:98-123 | the probe ends on a matching entry, or on the first empty slot with every earlier one occupied, or finds every slot occupied |
| SymbolCache.PathSlotsDistinct | examples/auto_tracing/instrument.c:98-99 | distinct probe steps visit distinct slots |
| SymbolCache.PathCovers | examples/auto_tracing/instrument.c:98-99 | every slot is on every probe path |
| SymbolCache.ProbeFindsPresent | examples/auto_tracing/instrument.c:119-122 | a cached address is found at the slot where it was placed |
| SymbolCache.ProbeHitIff | examples/auto_tracing/instrument.c:95-127 | a lookup hits if and only if the address is cached |
| SymbolCache.ProbeFullMeansFull | examples/auto_tracing/instrument.c:125-126 | "map full" is reported only when the index holds as many entries as it has slots |
| SymbolCache.InsertKeepsInv | examples/auto_tracing/instrument.c:110-113 | storing a new entry at the first vacant slot keeps the index invariant (distinct indices below len, one slot per entry, distinct addresses) |
| SymbolCache.Resolver.Resolve | examples/auto_tracing/instrument.c:84-93 | each resolver query and its answer, a name or a failure, is logged |
| SymbolCache.AddrHash.constructor | examples/auto_tracing/instrument.c:55-70 | len 0, capacity = size, an index of NextPow2(size) slots, all empty (-1) |
| SymbolCache.AddrHash.Free | examples/auto_tracing/instrument.c:72-76 | the table is zeroed |
| SymbolCache.AddrHash.Store | examples/auto_tracing/instrument.c:110-113 | that slot gets index len, the entry is stored at len, len grows by one, nothing else changes |
| SymbolCache.AddrHash.Insert | examples/auto_tracing/instrument.c:102-117 | at an empty slot: a full dense array refuses without asking the resolver; otherwise one query, and a found name is stored in that slot and at index len |
| SymbolCache.AddrHash.Get | examples/auto_tracing/instrument.c:95-127 | a hit returns the stored name and changes nothing; a full index, a full array or a failing resolver return false unchanged; a successful resolve inserts and returns the name |
| SymbolCache.RepeatLookupHits | examples/auto_tracing/instrument.c:95-127 | after an insert, a second lookup of the same address hits with the same name |
| SymbolCache.GetAsWrittenOverflows | examples/auto_tracing/instrument.c:110-113 | a reachable state of an ah_init(3) table in which the probe reaches a vacant slot while the dense array is full |
| SymbolCache.SmallHomes | examples/auto_tracing/instrument.c:79-81 | in a 4-slot index the addresses 0..3 are their own home slots |
| SymbolCache.EnterName | examples/auto_tracing/instrument.c:205-208 | the cached name, the resolved name, or "(unknown name)" whenever the lookup yields none |
| SymbolCache.MulU64U32Shr | examples/auto_tracing/instrument.c:129-134 | never above cyc * mult / 2^shift; at shift 0 the product modulo 2^64 |
| SymbolCache.MulU64U32ShrFloor | examples/auto_tracing/instrument.c:129-134 | for shifts of 32 or more the result is the exact floor of cyc * mult / 2^shift |
| SymbolCache.MulU64U32ShrMonotone | examples/auto_tracing/instrument.c:129-134 | for shifts of 32 or more, converted times never go backwards as the counter grows |
| FlintHash.Murmur32BitsLoop | tools/flint.h:285-345 | the block loop, tail and finaliser compute MurmurHash3 x86_32 of the key |
| FlintHash.Murmur32Loop | tools/flint.h:285-345 | the same on the bytes of a name |
| FlintHash.EmptyKeyAnswers | tools/flint.h:285-345 | the empty key hashes to 0 with seed 0 and to 0x514e28b7 with seed 1 |
| FlintHash.OneBlockAnswer | tools/flint.h:306-319 | "test" with seed 0 hashes to 0xba6bd213 |
| FlintHash.TailOnlyAnswer | tools/flint.h:324-334 | "abc" with seed 0 hashes to 0xb3dd93fa |
| FlintHash.BlocksAndTailAnswer | tools/flint.h:285-345 | "Hello, world!" with seed 1234 hashes to 0xfaf6cdb3 |
| FlintHash.Murmur32OnBytes | tools/flint.h:294 | the byte-level hash agrees with the word-level one |
| FlintHash.HashEntryLoop | tools/flint.h:347-352 | the name hashed from 2166136261, re-seeded through pid's then tid's four bytes |
| Flint.Encode | tools/flint.h:147-166 | a record is as long as its packed struct (18 + name, 11, 17) and starts with its type byte |
| Flint.Decode | tools/flint.h:141-166 | what it accepts is a well-formed record whose length is its size, within the input |
| Flint.DecodeEncoded | tools/flint.h:147-166 | every well-formed record, followed by anything, decodes back to itself |
| Flint.DecodeLiteralBegin | tools/flint.h:147-153 | type 0, pid, tid, when, length, name decode back |
| Flint.DecodeCachedBegin | tools/flint.h:155-159 | type 2, when, slot decode back (11 bytes) |
| Flint.DecodeEnd | tools/flint.h:161-166 | type 1, pid, tid, when decode back (17 bytes) |
| Flint.Slot | tools/flint.h:382 | hash & 1023, below 1024 |
| Flint.BeginRecord | tools/flint.h:380-424 | a cache-mode hit gives the 11-byte record with `when` and the slot; every other case gives the literal record |
| Flint.CacheAfter | tools/flint.h:397-412 | only the name's slot may change; in cache mode the name hits afterwards; outside cache mode or on a hit nothing changes |
| Flint.EmptyCacheMisses | tools/flint.h:264 | a calloc'ed cache answers no lookup of a non-empty name |
| Flint.RepeatBeginHits | tools/flint.h:380-412 | after a written cache-mode Begin, the same name, tid and pid produce the 11-byte cache-hit record |
| Flint.File.Write | tools/flint.h:199 | each fwrite is logged with its bytes and result; eof is unchanged, and a failed fwrite sets the error indicator |
| Flint.File.Flush | tools/flint.h:220 | each fflush is logged with its result; a failed fflush sets the error indicator |
| Flint.File.PrintText | tools/flint.h:371-378 | each JSON fprintf is logged with its result; a failed fprintf sets the error indicator |
| Flint.WriteBuffer.constructor | tools/flint.h:192-196 | a buffer of the given length with head 0 |
| Flint.WriteBuffer.Flush | tools/flint.h:197-202 | head 0: true and no write; otherwise one write of data[0..head), head reset only on success; file bytes plus buffered bytes unchanged |
| Flint.WriteBuffer.Write | tools/flint.h:203-210 | fits: copied at head; else flush first, failing without appending if that fails; larger than the buffer: straight to the file; file bytes plus buffered bytes grow by exactly the payload on success |
| Flint.WriteBuffer.Append | tools/flint.h:207-208 | the bytes are copied at head and head grows by their length |
| Flint.WriteBuffer.Direct | tools/flint.h:206 | one fwrite of the whole payload |
| Flint.Context.constructor | tools/flint.h:185-190 | file, mode and unit as given; the cache, when allocated, is 1024 zeroed entries |
| Flint.Stats.constructor | tools/flint.h:356 | begin_payload_length starts at 0 |
| Flint.FlushAsWrittenInverted | tools/flint.h:220 | the as-written verdict is false when everything succeeded and true when fflush failed |
| Flint.FlushVerdictMeansSuccess | tools/flint.h:215-226 | the corrected verdict is true exactly when there is no context, or the buffer and fflush both succeeded |
| Flint.FlushIntoFile | tools/flint.h:219-220 | the buffer flush, then one fflush, logged in that order; the error indicator is set when either fails |
| Flint.FlushAsWritten | tools/flint.h:215-226 | FlintFlush as written: the call log, the buffer reset, the error indicator set by a failed call, the inverted verdict |
| Flint.Flush | tools/flint.h:215-226 | FlintFlush corrected: no file discards the buffer and succeeds only without a context; with a file the result is buffer flush and fflush both succeeding, and a failed call sets the error indicator |
| Flint.ChooseBegin | tools/flint.h:380-387 | the record BeginRecord specifies; on a cache-mode miss, the slot and entry whose store gives CacheAfter |
| Flint.EmitBegin | tools/flint.h:380-424 | the chosen record is written; on success begin_payload_length grows by its size and a cache-mode miss takes the slot; on failure the cache is unchanged and the error indicator is set |
| Flint.TraceBeginLenTidPid | tools/flint.h:359-428 | as written, with the cache check ahead of the JSON branch: no context, name, file or cache, eof, error or name_len <= 0: false with nothing changed; names cut to 255; JSON: one text line; binary: the chosen record through the buffer; cache updated only by a written miss; a refused event leaves the error indicator alone, and a failed write or print sets it |
| Flint.TraceEndTidPid | tools/flint.h:441-465 | as written: the same guards, the cache check included; JSON: one text line; binary: the 17-byte End record, type 1, through the buffer; a failed write or print sets the error indicator |
| Flint.TraceBegin | tools/flint.h:359-428 | corrected: the same guards without the cache; JSON: one text line, with or without a cache; binary without a cache: false with nothing written; binary with a cache: as TraceBeginLenTidPid |
| Flint.TraceEnd | tools/flint.h:441-465 | corrected: the same guards without the cache; JSON: one text line; binary without a cache: false; binary with a cache: the 17-byte End record |
| Flint.JsonContextRejects | tools/flint.h:254-265 | a JSON context, which gets no cache, makes both tracers as written return false and write nothing |
| Flint.JsonContextTraces | tools/flint.h:254-265 | on the same JSON context the corrected Begin prints one text line; the End prints its line only when that print succeeded, since a failed print sets the error indicator that the End checks |
| WasmRuntime.ToInt32 | src/wasm_runtime.js:264-265 | `|0`: the signed 32-bit value congruent to x modulo 2^32 |
| WasmRuntime.GenerateHash | src/wasm_runtime.js:258-268 | the loop computes HashOf over the blob |
| WasmRuntime.HashRange | src/wasm_runtime.js:258-268 | the hash is a signed 32-bit value, and 0 for an empty blob |
| WasmRuntime.HashIsPoly | src/wasm_runtime.js:262-266 | the hash is the polynomial sum of b_i * 31^(n-1-i), modulo 2^32 |
| WasmRuntime.HashCollides | src/wasm_runtime.js:257 | the hash is weak: [0, 31] and [1, 0] collide |
| WasmRuntime.StoreString | src/wasm_runtime.js:71-78 | byte ptr+i is the low 8 bits of code unit i, byte ptr+len is 0, every other byte is unchanged |
| WasmRuntime.PutString | src/wasm_runtime.js:71-78 | the loop writes the array to exactly StoreString of its old contents |
| WasmRuntime.StoreStringReadsBack | src/wasm_runtime.js:71-78 | a stored string without zero bytes reads back as a C string |
| WasmRuntime.Split | src/wasm_runtime.js:141 | splitting gives at least one piece |
| WasmRuntime.SplitJoinsBack | src/wasm_runtime.js:141 | joining the pieces with newlines gives the chunk back |
| WasmRuntime.SplitPieces | src/wasm_runtime.js:141 | no piece contains a newline, and there is one piece exactly when the chunk has no newline |
| WasmRuntime.SplitNoNewline | src/wasm_runtime.js:138 | a chunk without a newline is its only piece |
| WasmRuntime.SplitAtNewline | src/wasm_runtime.js:141 | splitting a + "\n" + b gives the pieces of a, then those of b |
| WasmRuntime.SplitJoin | src/wasm_runtime.js:141 | pieces without newlines, joined, split back into the same pieces |
| WasmRuntime.Trim | src/wasm_runtime.js:207-209 | more than 512 lines: exactly one, the oldest, is dropped; otherwise nothing is |
| WasmRuntime.Wrap | src/wasm_runtime.js:171-176 | stdout text is unchanged; stderr text is kept verbatim between the red span's tags; no newline is added |
| WasmRuntime.HtmlPush | src/wasm_runtime.js:178-205 | a lone "\n" is appended as a line; any other chunk keeps every line but the last and then adds one line per newline-separated piece |
| WasmRuntime.HtmlPushText | src/wasm_runtime.js:178-205 | for stdout, the HTML text grows by the chunk, plus one newline when a multi-line chunk ends with a newline |
| WasmRuntime.HtmlPushPiecesShape | src/wasm_runtime.js:186-205 | the line list after a multi-line chunk: the continued last line, one line per middle piece, then the last piece |
| WasmRuntime.Console.constructor | src/wasm_runtime.js:102-107 | both pending lines empty, previous stream stdout, nothing printed or shown |
| WasmRuntime.Console.Println | src/wasm_runtime.js:114-132 | appends one printed line with its style; nothing else changes |
| WasmRuntime.Console.Accumulate | src/wasm_runtime.js:134-156 | "\n" prints the pending line and clears it; no newline appends to the pending line and prints nothing; otherwise prints pending + first piece, then each middle piece, and keeps the last piece pending; printed text plus pending always equals old pending plus chunk |
| WasmRuntime.Console.PrintPending | src/wasm_runtime.js:135-137 | a lone "\n" prints the pending line, with the stream's style, and clears it; nothing else changes |
| WasmRuntime.Console.AccumulatePieces | src/wasm_runtime.js:140-156 | the multi-line case of Accumulate |
| WasmRuntime.Console.PrintPieces | src/wasm_runtime.js:143-147 | prints pending + first piece, then each middle piece, in order |
| WasmRuntime.Console.SwitchStream | src/wasm_runtime.js:158-164 | going from stderr to stdout prints and clears the stderr pending line; the stream is remembered |
| WasmRuntime.JoinLines | src/wasm_runtime.js:211-214 | the loop computes the concatenation of the lines |
| WasmRuntime.Console.RenderHtml | src/wasm_runtime.js:167-218 | without an element nothing changes; otherwise the list is HtmlPush then Trim, and the shown text is the concatenation of the lines |
| WasmRuntime.Console.WriteToConsole | src/wasm_runtime.js:109-219 | an empty chunk changes nothing; otherwise: a chunk without a newline prints nothing; a chunk with newlines prints one line fewer than it has pieces, the first prefixed by the old pending line, and keeps the last piece pending; a lone "\n" prints the pending line and clears it; the printed text plus pending equals the old pending plus the chunk; then the stream switch and the HTML rendering |

## Left out

- File-backed callbacks (`spall__file_write`/`flush`/`close`, `spall_init_file`), `FlintInit_Impl` and `FlintQuit`: stdio plumbing. Both writers talk to logging sinks instead.
- Floating point: `timestamp_unit` and Flint's `when` are kept as bit patterns. The JSON text that `fprintf` prints (`%f` of when * unit) is not rendered. Only its success flag is logged.
- `get_addr_name`'s `dladdr`: an oracle that returns a name or fails.
- `malloc`/`calloc`/`free`, and failed allocation: arrays are fresh Dafny arrays.
- Thread-local globals, `init_thread`/`exit_thread`/`init_profile`/`exit_profile`, the `__cyg_profile_func_*` glue and the clock code: concurrency and OS calls. Of the enter hook only the name lookup (`EnterName`) is modelled. It calls `spall_trace_begin_tid_pid`, which this `spall.h` does not define.
- The `write` import's fd dispatch, `loadString`'s UTF-8 decoding, `runWasm`, the DataView accessors, the `info.scrollTop = info.scrollHeight` scroll after each render, and Println's `"%c" + text` with its CSS string (reduced to a `styled` flag): host plumbing. Strings reach the console as given.
- `FlintTraceBeginTidPid` (strlen) and the Len/Tid/Pid shorthand wrappers: they only supply defaults to the two modelled tracers.
- The global `use_cache` flag is a parameter, and `begin_payload_length` is a `Stats` object with an unbounded counter.
- Flint.Stats.constructor: the C `int` counter's overflow is not modelled.
- Native byte order is taken as little-endian for every struct and for murmur32's 4-byte blocks.
- `next_pow2` has undefined behaviour as written (a 32-bit `clz` of a 64-bit value, a shift by up to 64). It is modelled by its intent, the smallest power of two at least x, for x >= 2.
- `ah_init` with a size of 0 or 1: excluded by the constructor's `size >= 2`, because `next_pow2` is undefined there.
- `spall_build_*` with a negative length: names are byte sequences, so the cast of a negative length is not modelled.
- `putString` takes its string as UTF-16 code units. `charCodeAt` is not modelled beyond storing the low 8 bits.
- SymbolCache.MulU64U32ShrFloor: proved for shifts from 32 to 127 only. For smaller shifts the 64-bit truncation can drop high bits, so the result is stated only through the function. MulU64U32ShrMonotone has the same bound. Shifts of 128 or more are undefined on `unsigned __int128` and are excluded.
- Name and argument lengths above 2^31 - 1 are excluded, since the source passes them as `int32_t`.
- Flint.EmitBegin: the file's call log is stated exactly only when the buffer has length 0. Otherwise it is stated through the bytes reaching the file plus the buffered bytes. WriteBuffer.Write states the log case by case.
- WasmRuntime.HtmlPushText: proved for the stdout stream. On stderr every piece is wrapped in a span, which the text lemma does not track.
- SpallProfile.Flush: `spall_flush` calls `ctx->flush` without a check (spall.h:290), and `spall_quit` zeroes the callbacks (spall.h:247). So the model requires a flush callback.
- `fwrite` partial writes: a write succeeds or fails as a whole.

## Findings

| source | as written | input that shows it | evidently intended | confidence | as-written member | corrected member |
|---|---|---|---|---|---|---|
| examples/auto_tracing/instrument.c:110-113 | on a vacant index slot the new entry is stored at position `entries.len` without comparing `len` with `cap` | `ah_init(3)` makes a 3-entry array and a 4-slot index; after addresses 0, 1 and 2 are cached, looking up address 3 reaches the empty slot 3 and stores at position 3, one past the array | report the map as full (return false, the caller then uses "(unknown name)") when `len == cap` | not executed | SymbolCache.GetAsWrittenOverflows | SymbolCache.AddrHash.Get |
| tools/flint.h:220 | `fflush` returning 0, which means success, sets the result to false; a failing `fflush` leaves it true | `FlintFlush` on a context with a file, where the buffer write and `fflush` both succeed, returns false | fail only when `fflush` returns non-zero | not executed | Flint.FlushAsWritten | Flint.Flush |
| tools/flint.h:364 | both tracers return false when the context has no cache (line 364, and line 446 for the End tracer), before the JSON branch; `FlintInitJson` never allocates one (tools/flint.h:254-265) | a context from `FlintInitJson` with an open file: `FlintTraceBeginLenTidPid` and `FlintTraceEndTidPid` return false and print nothing | check for the cache only on the binary path, which is the only one that uses it | not executed | Flint.JsonContextRejects | Flint.TraceBegin |

/** The helpers of the viewer's WebAssembly runtime (src/wasm_runtime.js):
    the int32 rolling hash of a blob, the store of a string into linear
    memory, and the line buffering of the console that the program's stdout
    and stderr writes go through. */
module WasmRuntime {
  import opened Bytes

  // ---------------------------------------------------------------------
  // generateHash
  // ---------------------------------------------------------------------

  const TWO_POW_31: int := 0x8000_0000

  /** ECMAScript ToInt32: the integer modulo 2^32, read as two's complement. */
  function ToInt32(x: int): (r: int)
    ensures -TWO_POW_31 <= r < TWO_POW_31
    ensures (r - x) % TWO_POW_32 == 0
  {
    var m := x % TWO_POW_32;
    if m >= TWO_POW_31 then m - TWO_POW_32 else m
  }

  /** Two integers equal modulo 2^32 have the same ToInt32. */
  lemma ToInt32Congruent(x: int, y: int)
    requires (x - y) % TWO_POW_32 == 0
    ensures ToInt32(x) == ToInt32(y)
  {
    var q := (x - y) / TWO_POW_32;
    assert x == y + q * TWO_POW_32;
    ModShift(y, q);
  }

  lemma ModShift(y: int, q: int)
    ensures (y + q * TWO_POW_32) % TWO_POW_32 == y % TWO_POW_32
  {
  }

  /** The hash as a fold: every byte takes the running value to
      ToInt32(31 * h + b). */
  function HashOf(blob: seq<byte>): int
    decreases |blob|
  {
    if blob == [] then 0
    else ToInt32(31 * HashOf(blob[..|blob| - 1]) + blob[|blob| - 1] as int)
  }

  /** generateHash: `hash = (hash << 5) - hash + chr; hash |= 0` per byte. */
  method GenerateHash(blob: seq<byte>) returns (hash: int)
    ensures hash == HashOf(blob)
  {
    hash := 0;
    var i := 0;
    while i < |blob|
      invariant 0 <= i <= |blob|
      invariant hash == HashOf(blob[..i])
    {
      var chr := blob[i] as int;
      var shifted := ToInt32(hash * 32);
      ghost var h := hash;
      hash := shifted - hash + chr;
      ToInt32Congruent(hash, 31 * h + chr);
      hash := ToInt32(hash);
      assert blob[..i + 1][..i] == blob[..i];
      i := i + 1;
    }
    assert blob[..i] == blob;
  }

  /** The hash of a blob is a signed 32-bit integer, and the empty blob hashes
      to 0. */
  lemma HashRange(blob: seq<byte>)
    ensures -TWO_POW_31 <= HashOf(blob) < TWO_POW_31
    ensures blob == [] ==> HashOf(blob) == 0
  {
  }

  /** The hash as a polynomial: sum of b_i * 31^(n-1-i), modulo 2^32. */
  function Poly(blob: seq<byte>): int
    decreases |blob|
  {
    if blob == [] then 0 else 31 * Poly(blob[..|blob| - 1]) + blob[|blob| - 1] as int
  }

  lemma {:induction false} HashIsPoly(blob: seq<byte>)
    ensures (HashOf(blob) - Poly(blob)) % TWO_POW_32 == 0
    decreases |blob|
  {
    if blob != [] {
      var init := blob[..|blob| - 1];
      var b := blob[|blob| - 1] as int;
      var step := 31 * HashOf(init) + b;
      HashIsPoly(init);
      ModZeroScale(HashOf(init) - Poly(init));
      assert (HashOf(blob) - step) % TWO_POW_32 == 0;
      assert step - Poly(blob) == 31 * (HashOf(init) - Poly(init));
      ModZeroSum(HashOf(blob) - step, step - Poly(blob));
    }
  }

  lemma ModZeroSum(x: int, y: int)
    requires x % TWO_POW_32 == 0 && y % TWO_POW_32 == 0
    ensures (x + y) % TWO_POW_32 == 0
  {
    var p, q := x / TWO_POW_32, y / TWO_POW_32;
    assert x + y == (p + q) * TWO_POW_32;
    ModShift(0, p + q);
  }

  lemma ModZeroScale(x: int)
    requires x % TWO_POW_32 == 0
    ensures (31 * x) % TWO_POW_32 == 0
  {
    var p := x / TWO_POW_32;
    assert 31 * x == (31 * p) * TWO_POW_32;
    ModShift(0, 31 * p);
  }

  /** Two blobs whose polynomials agree collide: [0, 31] and [1, 0] both hash
      to 31. */
  lemma HashCollides()
    ensures HashOf([0, 31]) == HashOf([1, 0]) == 31
  {
    var zero: seq<byte>, one: seq<byte> := [0], [1];
    assert zero[..0] == [] && one[..0] == [];
    assert HashOf(zero) == ToInt32(0) == 0;
    assert HashOf(one) == ToInt32(1) == 1;
    var a: seq<byte>, b: seq<byte> := [0, 31], [1, 0];
    assert a[..1] == zero && b[..1] == one;
    assert HashOf(a) == ToInt32(31 * 0 + 31) == 31;
    assert HashOf(b) == ToInt32(31 * 1 + 0) == 31;
  }

  // ---------------------------------------------------------------------
  // putString
  // ---------------------------------------------------------------------

  /** A Uint8Array element store keeps the low eight bits of the value. */
  function Low8(c: u16): byte
  {
    (c as int % 256) as byte
  }

  /** Linear memory after putString(ptr, str), `str` given as its UTF-16 code
      units: each unit's low byte at ptr + i, a 0 at ptr + |str|, and indices
      past the end of memory ignored, as a typed array ignores them. */
  function StoreString(mem: seq<byte>, ptr: nat, str: seq<u16>): (r: seq<byte>)
    ensures |r| == |mem|
    ensures forall k :: 0 <= k < |mem| && !(ptr <= k <= ptr + |str|) ==> r[k] == mem[k]
    ensures forall i :: 0 <= i < |str| && ptr + i < |mem| ==> r[ptr + i] == Low8(str[i])
    ensures ptr + |str| < |mem| ==> r[ptr + |str|] == 0
  {
    seq(|mem|, k requires 0 <= k < |mem| =>
      if ptr <= k < ptr + |str| then Low8(str[k - ptr]) else if k == ptr + |str| then 0 else mem[k])
  }

  /** putString as the loop that stores into the Uint8Array. */
  method PutString(buf: array<byte>, ptr: nat, str: seq<u16>)
    modifies buf
    ensures buf[..] == StoreString(old(buf[..]), ptr, str)
  {
    var i := 0;
    while i < |str|
      invariant 0 <= i <= |str|
      invariant forall k :: 0 <= k < buf.Length ==>
        buf[k] == (if ptr <= k < ptr + i then Low8(str[k - ptr]) else old(buf[k]))
    {
      if ptr + i < buf.Length {
        buf[ptr + i] := Low8(str[i]);
      }
      i := i + 1;
    }
    if ptr + i < buf.Length {
      buf[ptr + i] := 0;
    }
  }

  /** The NUL-terminated string at `p`, as C code on the other side reads it. */
  function ReadCString(mem: seq<byte>, p: nat): seq<byte>
    decreases |mem| - p
  {
    if p >= |mem| || mem[p] == 0 then [] else [mem[p]] + ReadCString(mem, p + 1)
  }

  function Low8s(str: seq<u16>): (r: seq<byte>)
    ensures |r| == |str|
  {
    seq(|str|, i requires 0 <= i < |str| => Low8(str[i]))
  }

  /** A string with no unit whose low byte is 0, stored where its terminator
      fits, reads back as its low bytes. */
  lemma StoreStringReadsBack(mem: seq<byte>, ptr: nat, str: seq<u16>)
    requires ptr + |str| < |mem|
    requires forall i :: 0 <= i < |str| ==> Low8(str[i]) != 0
    ensures ReadCString(StoreString(mem, ptr, str), ptr) == Low8s(str)
  {
    ReadsBackFrom(StoreString(mem, ptr, str), ptr, str, 0);
  }

  lemma {:induction false} ReadsBackFrom(r: seq<byte>, ptr: nat, str: seq<u16>, j: nat)
    requires j <= |str| && ptr + |str| < |r|
    requires forall i :: 0 <= i < |str| ==> r[ptr + i] == Low8(str[i]) != 0
    requires r[ptr + |str|] == 0
    ensures ReadCString(r, ptr + j) == Low8s(str)[j..]
    decreases |str| - j
  {
    if j < |str| {
      ReadsBackFrom(r, ptr, str, j + 1);
      assert Low8s(str)[j..] == [Low8(str[j])] + Low8s(str)[j + 1..];
    }
  }

  // ---------------------------------------------------------------------
  // Lines
  // ---------------------------------------------------------------------

  /** `parts` joined with "\n" between them. */
  function Join(parts: seq<string>): string
    requires |parts| >= 1
    decreases |parts|
  {
    if |parts| == 1 then parts[0] else Join(parts[..|parts| - 1]) + "\n" + parts[|parts| - 1]
  }

  /** The pieces with `c` added to the last one. */
  function Extend(r: seq<string>, c: char): (r': seq<string>)
    requires |r| >= 1
    ensures |r'| == |r| && r'[..|r| - 1] == r[..|r| - 1] && r'[|r| - 1] == r[|r| - 1] + [c]
  {
    r[..|r| - 1] + [r[|r| - 1] + [c]]
  }

  /** String.prototype.split("\n"): the pieces between newlines, empty ones
      included. */
  function Split(s: string): (r: seq<string>)
    ensures |r| >= 1
    decreases |s|
  {
    if s == [] then [""]
    else
      var r := Split(s[..|s| - 1]);
      if s[|s| - 1] == '\n' then r + [""] else Extend(r, s[|s| - 1])
  }

  /** Joining the pieces gives the string back. */
  lemma {:induction false} SplitJoinsBack(s: string)
    ensures Join(Split(s)) == s
    decreases |s|
  {
    if s != [] {
      var init, c := s[..|s| - 1], s[|s| - 1];
      SplitJoinsBack(init);
      assert s == init + [c];
      if c == '\n' {
        JoinAppend(Split(init), "");
      } else {
        JoinExtendLast(Split(init), c);
      }
    }
  }

  /** No piece holds a newline, and there is one piece exactly when the
      string has no newline. */
  lemma {:induction false} SplitPieces(s: string)
    ensures forall i :: 0 <= i < |Split(s)| ==> '\n' !in Split(s)[i]
    ensures |Split(s)| == 1 <==> '\n' !in s
    decreases |s|
  {
    if s != [] {
      var init, c := s[..|s| - 1], s[|s| - 1];
      SplitPieces(init);
      var r := Split(init);
      assert s == init + [c];
      assert '\n' in s <==> '\n' in init || c == '\n';
      if c != '\n' {
        var r' := Extend(r, c);
        forall i | 0 <= i < |r'|
          ensures '\n' !in r'[i]
        {
          if i < |r| - 1 {
            assert r'[i] == r'[..|r| - 1][i] == r[i];
          } else {
            assert r'[i] == r[i] + [c];
          }
        }
      }
    }
  }

  lemma JoinAppend(r: seq<string>, x: string)
    requires |r| >= 1
    ensures Join(r + [x]) == Join(r) + "\n" + x
  {
    assert (r + [x])[..|r|] == r;
  }

  lemma JoinExtendLast(r: seq<string>, c: char)
    requires |r| >= 1
    ensures Join(Extend(r, c)) == Join(r) + [c]
  {
    var k := |r| - 1;
    var r' := Extend(r, c);
    if |r| > 1 {
      assert r'[..k] == r[..k];
    }
  }

  lemma ExtendAppend(x: seq<string>, y: seq<string>, c: char)
    requires |y| >= 1
    ensures Extend(x + y, c) == x + Extend(y, c)
  {
  }

  /** A string without a newline splits into itself. */
  lemma SplitNoNewline(s: string)
    requires '\n' !in s
    ensures Split(s) == [s]
  {
    SplitPieces(s);
    SplitJoinsBack(s);
  }

  /** One step of Split: the last character extends or ends the last piece. */
  lemma SplitLast(s: string)
    requires s != []
    ensures Split(s) == if s[|s| - 1] == '\n' then Split(s[..|s| - 1]) + [""]
                        else Extend(Split(s[..|s| - 1]), s[|s| - 1])
  {
  }

  lemma PiecesAssoc(x: seq<string>, y: seq<string>, z: seq<string>)
    ensures (x + y) + z == x + (y + z)
  {
  }

  /** Splitting after a newline splits the two sides apart. */
  lemma {:induction false} SplitAtNewline(a: string, b: string)
    ensures Split(a + "\n" + b) == Split(a) + Split(b)
    decreases |b|
  {
    var s := a + "\n" + b;
    if b == [] {
      assert s[..|s| - 1] == a;
      assert Split(s) == Split(a) + [""];
    } else {
      var b' := b[..|b| - 1];
      var c := b[|b| - 1];
      assert s[..|s| - 1] == a + "\n" + b';
      assert s[|s| - 1] == c;
      SplitAtNewline(a, b');
      var ra, rb := Split(a), Split(b');
      SplitLast(s);
      SplitLast(b);
      if c != '\n' {
        ExtendAppend(ra, rb, c);
      } else {
        PiecesAssoc(ra, rb, [""]);
      }
    }
  }

  /** Joining newline-free pieces and splitting again gives the pieces. */
  lemma {:induction false} SplitJoin(parts: seq<string>)
    requires |parts| >= 1
    requires forall i :: 0 <= i < |parts| ==> '\n' !in parts[i]
    ensures Split(Join(parts)) == parts
    decreases |parts|
  {
    if |parts| == 1 {
      SplitNoNewline(parts[0]);
    } else {
      var init := parts[..|parts| - 1];
      var last := parts[|parts| - 1];
      SplitJoin(init);
      SplitNoNewline(last);
      SplitAtNewline(Join(init), last);
      assert init + [last] == parts;
    }
  }

  /** One console.log call: the text and whether it carries the error style. */
  datatype Printed = Printed(text: string, styled: bool)

  /** What a run of console.log calls shows: each text on its own line. */
  function Text(out: seq<Printed>): string
    decreases |out|
  {
    if out == [] then "" else Text(out[..|out| - 1]) + out[|out| - 1].text + "\n"
  }

  lemma TextAppend(out: seq<Printed>, p: Printed)
    ensures Text(out + [p]) == Text(out) + p.text + "\n"
  {
    assert (out + [p])[..|out|] == out;
  }

  /** The lines of the HTML console concatenated, as innerHTML receives them. */
  function Concat(lines: seq<string>): string
    decreases |lines|
  {
    if lines == [] then "" else Concat(lines[..|lines| - 1]) + lines[|lines| - 1]
  }

  lemma ConcatAppend(lines: seq<string>, x: string)
    ensures Concat(lines + [x]) == Concat(lines) + x
  {
    assert (lines + [x])[..|lines|] == lines;
  }

  lemma {:induction false} ConcatJoin(xs: seq<string>, ys: seq<string>)
    ensures Concat(xs + ys) == Concat(xs) + Concat(ys)
    decreases |ys|
  {
    if ys == [] {
      assert xs + ys == xs;
    } else {
      var ys', y := ys[..|ys| - 1], ys[|ys| - 1];
      ConcatJoin(xs, ys');
      assert xs + ys == (xs + ys') + [y];
      ConcatAppend(xs + ys', y);
      assert ys == ys' + [y];
      ConcatAppend(ys', y);
    }
  }

  // ---------------------------------------------------------------------
  // The HTML console
  // ---------------------------------------------------------------------

  const MAX_INFO_CONSOLE_LINES: nat := 512

  /** stderr text is shown in a red span. */
  const SPAN_OPEN: string := "<span style=\"color:#f21\">"
  const SPAN_CLOSE: string := "</span>"

  function Wrap(x: string, isError: bool): (r: string)
    ensures !isError ==> r == x
    ensures isError ==> |r| == |SPAN_OPEN| + |x| + |SPAN_CLOSE| && r[|SPAN_OPEN|..|SPAN_OPEN| + |x|] == x
    ensures '\n' !in x ==> '\n' !in r
  {
    if isError then SPAN_OPEN + x + SPAN_CLOSE else x
  }

  function Init(lines: seq<string>): seq<string>
  {
    if |lines| > 0 then lines[..|lines| - 1] else []
  }

  /** The last line, popped so that the chunk continues it ("" if none). */
  function LastOr(lines: seq<string>): string
  {
    if |lines| > 0 then lines[|lines| - 1] else ""
  }

  lemma ConcatContinue(lines: seq<string>, x: string)
    ensures Concat(Init(lines) + [LastOr(lines) + x]) == Concat(lines) + x
  {
    if |lines| > 0 {
      assert lines == Init(lines) + [LastOr(lines)];
      ConcatAppend(Init(lines), LastOr(lines));
    }
    ConcatAppend(Init(lines), LastOr(lines) + x);
  }

  function Rows(parts: seq<string>, isError: bool): (r: seq<string>)
    ensures |r| == |parts|
  {
    seq(|parts|, i requires 0 <= i < |parts| => Wrap(parts[i], isError) + "\n")
  }

  predicate EndsWithNewline(s: string)
  {
    |s| > 0 && s[|s| - 1] == '\n'
  }

  /** The HTML line list after a chunk, before it is trimmed: a lone "\n" is a
      line of its own; a chunk with no newline continues the last line; any
      other chunk continues the last line with its first piece, adds one line
      per middle piece and one for the last piece, which gets a "\n" of its
      own when the chunk ends with a newline. */
  function HtmlPush(lines: seq<string>, line: string, isError: bool): (r: seq<string>)
    ensures line == "\n" ==> r == lines + ["\n"]
    ensures line != "\n" ==> |r| == |Init(lines)| + |Split(line)| && r[..|Init(lines)|] == Init(lines)
  {
    if line == "\n" then lines + ["\n"]
    else if '\n' !in line then
      SplitNoNewline(line);
      Init(lines) + [LastOr(lines) + Wrap(line, isError)]
    else
      var parts := Split(line);
      SplitPieces(line);
      var n := |parts|;
      var last := if n > 1 && EndsWithNewline(line) then parts[n - 1] + "\n" else parts[n - 1];
      Init(lines) + [LastOr(lines) + Wrap(parts[0], isError) + "\n"] + Rows(parts[1..n - 1], isError) + [last]
  }

  /** Only one line is dropped, the oldest, however many the chunk added
      (`shift` ignores its argument). */
  function Trim(lines: seq<string>): (r: seq<string>)
    ensures |lines| > MAX_INFO_CONSOLE_LINES ==> |r| == |lines| - 1 && r == lines[1..]
    ensures |lines| <= MAX_INFO_CONSOLE_LINES ==> r == lines
  {
    if |lines| > MAX_INFO_CONSOLE_LINES then lines[1..] else lines
  }

  /** Joined pieces are the first piece, the middle pieces each followed by a
      newline after a first newline, and the last piece. */
  lemma {:induction false} JoinAsRows(parts: seq<string>)
    requires |parts| >= 2
    ensures Join(parts) == parts[0] + "\n" + Concat(Rows(parts[1..|parts| - 1], false)) + parts[|parts| - 1]
    decreases |parts|
  {
    var n := |parts|;
    if n > 2 {
      var init := parts[..n - 1];
      JoinAsRows(init);
      assert init[1..|init| - 1] == parts[1..n - 2];
      assert Rows(parts[1..n - 1], false) == Rows(parts[1..n - 2], false) + [parts[n - 2] + "\n"];
      ConcatAppend(Rows(parts[1..n - 2], false), parts[n - 2] + "\n");
    } else {
      assert Rows(parts[1..n - 1], false) == [];
    }
  }

  /** On stdout the HTML text grows by the chunk, plus one "\n" when a chunk
      with several pieces ends in a newline. */
  lemma HtmlPushText(lines: seq<string>, line: string)
    requires line != ""
    ensures Concat(HtmlPush(lines, line, false))
         == Concat(lines) + line + (if line != "\n" && '\n' in line && EndsWithNewline(line) then "\n" else "")
  {
    if line == "\n" {
      ConcatAppend(lines, "\n");
    } else if '\n' !in line {
      ConcatContinue(lines, line);
    } else {
      HtmlPushPiecesText(lines, line);
    }
  }

  lemma HtmlPushPiecesText(lines: seq<string>, line: string)
    requires line != "\n" && '\n' in line
    ensures Concat(HtmlPush(lines, line, false)) == Concat(lines) + line + (if EndsWithNewline(line) then "\n" else "")
  {
    assert |Split(line)| >= 2 by { SplitPieces(line); }
    var parts := Split(line);
    var n := |parts|;
    var tail := if EndsWithNewline(line) then "\n" else "";
    var rows := Rows(parts[1..n - 1], false);
    var head := Init(lines) + [LastOr(lines) + parts[0] + "\n"];
    var result := HtmlPush(lines, line, false);
    assert result == head + rows + [parts[n - 1] + tail] by { HtmlPushPiecesShape(lines, line); }
    assert Concat(head) == Concat(lines) + (parts[0] + "\n") by {
      Regroup3(LastOr(lines), parts[0], "\n");
      ConcatContinue(lines, parts[0] + "\n");
    }
    assert line == parts[0] + "\n" + Concat(rows) + parts[n - 1] by { SplitAsRows(line); }
    PiecesTextChain(Concat(lines), result, head, rows, parts[0], parts[n - 1], tail, line);
  }

  /** The text of a line list made of a head, some rows and a last line. */
  lemma PiecesTextChain(prior: string, result: seq<string>, head: seq<string>, rows: seq<string>,
                        first: string, last: string, tail: string, line: string)
    requires result == head + rows + [last + tail]
    requires Concat(head) == prior + (first + "\n")
    requires line == first + "\n" + Concat(rows) + last
    ensures Concat(result) == prior + line + tail
  {
    ConcatRowsAndLast(head, rows, last + tail);
    Regroup(prior, first, Concat(rows), last, tail);
  }

  /** The shape of the line list after a chunk of several pieces. */
  lemma HtmlPushPiecesShape(lines: seq<string>, line: string)
    requires line != "\n" && '\n' in line
    ensures |Split(line)| >= 2
    ensures var parts := Split(line); var n := |parts|;
      HtmlPush(lines, line, false) == Init(lines) + [LastOr(lines) + parts[0] + "\n"] + Rows(parts[1..n - 1], false)
        + [parts[n - 1] + (if EndsWithNewline(line) then "\n" else "")]
  {
    SplitPieces(line);
    var parts := Split(line);
    var n := |parts|;
    if EndsWithNewline(line) {
      assert parts[n - 1] == "";
    } else {
      assert parts[n - 1] + "" == parts[n - 1];
    }
  }

  lemma ConcatRowsAndLast(head: seq<string>, rows: seq<string>, last: string)
    ensures Concat(head + rows + [last]) == Concat(head) + Concat(rows) + last
  { ConcatJoin(head, rows); ConcatAppend(head + rows, last); }

  lemma SplitAsRows(line: string)
    requires |Split(line)| >= 2
    ensures var parts := Split(line); line == parts[0] + "\n" + Concat(Rows(parts[1..|parts| - 1], false)) + parts[|parts| - 1]
  { JoinAsRows(Split(line)); SplitJoinsBack(line); }

  /** A string with a newline is its pieces but the last, joined, then a
      newline and the last piece; the last piece is empty when the string
      ends with a newline. */
  lemma SplitAsLastPiece(line: string)
    requires |Split(line)| >= 2
    ensures var parts := Split(line); var n := |parts|;
      line == Join(parts[..n - 1]) + "\n" + parts[n - 1]
      && (EndsWithNewline(line) ==> parts[n - 1] == "")
  {
    var parts := Split(line);
    var n := |parts|;
    SplitJoinsBack(line);
    assert parts[..n - 1] + [parts[n - 1]] == parts;
    JoinAppend(parts[..n - 1], parts[n - 1]);
  }

  /** The pending line continued by the first piece, printed, is the join of
      the first piece after the pending line, and a newline. */
  lemma PrintedFirstPiece(current: string, lines: seq<string>, isError: bool)
    requires |lines| >= 1
    ensures Text([Printed(current + lines[0], isError)]) == current + Join(lines[..1]) + "\n"
  {
    var p := Printed(current + lines[0], isError);
    assert [p][..0] == [];
    assert Text([p]) == "" + p.text + "\n";
    var first := lines[..1];
    assert |first| == 1 && first[0] == lines[0];
    assert Join(first) == lines[0];
  }

  /** Printing one more middle piece extends the printed text by that piece
      and a newline, which is the join of one more piece. */
  lemma PrintedPieceStep(out: seq<Printed>, current: string, lines: seq<string>, i: nat, isError: bool)
    requires 1 <= i < |lines|
    requires Text(out) == current + Join(lines[..i]) + "\n"
    ensures Text(out + [Printed(lines[i], isError)]) == current + Join(lines[..i + 1]) + "\n"
  {
    TextAppend(out, Printed(lines[i], isError));
    assert lines[..i + 1] == lines[..i] + [lines[i]];
    JoinAppend(lines[..i], lines[i]);
  }

  lemma Regroup3(a: string, b: string, c: string)
    ensures a + b + c == a + (b + c)
  {
  }

  lemma Regroup2(c: string, j: string, q: string)
    ensures c + j + "\n" + q == c + (j + "\n" + q)
  {
  }

  lemma Regroup(l: string, p: string, r: string, q: string, t: string)
    ensures l + (p + "\n") + r + (q + t) == l + (p + "\n" + r + q) + t
  {
  }

  // ---------------------------------------------------------------------
  // writeToConsole
  // ---------------------------------------------------------------------

  /** The loop that builds the innerHTML text: the HTML lines one after
      another. */
  method JoinLines(lines: seq<string>) returns (data: string)
    ensures data == Concat(lines)
  {
    data := "";
    var i := 0;
    while i < |lines|
      invariant 0 <= i <= |lines|
      invariant data == Concat(lines[..i])
    {
      assert lines[..i + 1][..i] == lines[..i];
      data := data + lines[i];
      i := i + 1;
    }
    assert lines[..i] == lines;
  }

  /** The closure state of odinSetupDefaultImports that writeToConsole
      updates: the unfinished line of each stream (`pending[isError]`), the
      stream written last, the console.log calls made so far, the HTML
      console's lines and the text last put into its innerHTML. */
  class Console {
    var pending: map<bool, string>
    var prevIsError: bool
    var printed: seq<Printed>
    var htmlLines: seq<string>
    var shown: string
    const hasElement: bool

    ghost predicate Valid()
      reads this
    {
      true in pending && false in pending
    }

    constructor (hasElement: bool)
      ensures Valid() && this.hasElement == hasElement
      ensures pending == map[false := "", true := ""] && !prevIsError
      ensures printed == [] && htmlLines == [] && shown == ""
    {
      this.hasElement := hasElement;
      pending := map[false := "", true := ""];
      prevIsError := false;
      printed := [];
      htmlLines := [];
      shown := "";
    }

    method Println(text: string, styled: bool)
      modifies this
      ensures printed == old(printed) + [Printed(text, styled)]
      ensures pending == old(pending) && prevIsError == old(prevIsError)
      ensures htmlLines == old(htmlLines) && shown == old(shown)
    {
      printed := printed + [Printed(text, styled)];
    }

    /** The console half of writeToConsole: a lone "\n" prints the pending
        line; a chunk without a newline is held back; any other prints the
        pending line continued by the first piece, then every middle piece,
        and holds back the last piece. What is shown plus what is held back
        is always what was held back plus the chunk. */
    method Accumulate(line: string, isError: bool) returns (ghost out: seq<Printed>)
      requires Valid() && line != ""
      modifies this
      ensures Valid() && prevIsError == old(prevIsError)
      ensures htmlLines == old(htmlLines) && shown == old(shown)
      ensures pending == old(pending)[isError := pending[isError]]
      ensures printed == old(printed) + out
      ensures forall k :: 0 <= k < |out| ==> out[k].styled == isError
      ensures Text(out) + pending[isError] == old(pending[isError]) + line
      ensures '\n' !in line ==> out == []
      ensures '\n' in line ==> |out| == |Split(line)| - 1 && pending[isError] == Split(line)[|Split(line)| - 1]
      ensures '\n' in line ==> forall k :: 0 <= k < |out| ==>
        out[k] == Printed((if k == 0 then old(pending[isError]) else "") + Split(line)[k], isError)
      ensures line == "\n" ==> out == [Printed(old(pending[isError]), isError)] && pending[isError] == ""
    {
      var current := pending[isError];
      if line == "\n" {
        out := PrintPending(isError);
        assert Split(line) == ["", ""] by {
          SplitLast(line);
          assert line[..0] == "";
        }
      } else if '\n' !in line {
        pending := pending[isError := current + line];
        out := [];
      } else {
        out := AccumulatePieces(line, isError);
      }
    }

    /** src/wasm_runtime.js:135-137: a lone "\n" prints the pending line and
        clears it. */
    method PrintPending(isError: bool) returns (ghost out: seq<Printed>)
      requires Valid()
      modifies this
      ensures Valid() && prevIsError == old(prevIsError)
      ensures htmlLines == old(htmlLines) && shown == old(shown)
      ensures pending == old(pending)[isError := ""]
      ensures out == [Printed(old(pending[isError]), isError)] && printed == old(printed) + out
      ensures Text(out) == old(pending[isError]) + "\n"
    {
      var current := pending[isError];
      Println(current, isError);
      pending := pending[isError := ""];
      out := [Printed(current, isError)];
      TextAppend([], Printed(current, isError));
    }

    /** src/wasm_runtime.js:141-155: a chunk with a newline that is not a
        lone "\n". */
    method AccumulatePieces(line: string, isError: bool) returns (ghost out: seq<Printed>)
      requires Valid() && line != "\n" && '\n' in line
      modifies this
      ensures Valid() && prevIsError == old(prevIsError)
      ensures htmlLines == old(htmlLines) && shown == old(shown)
      ensures pending == old(pending)[isError := pending[isError]]
      ensures printed == old(printed) + out
      ensures forall k :: 0 <= k < |out| ==> out[k].styled == isError
      ensures Text(out) + pending[isError] == old(pending[isError]) + line
      ensures |out| == |Split(line)| - 1 && pending[isError] == Split(line)[|Split(line)| - 1]
      ensures forall k :: 0 <= k < |out| ==>
        out[k] == Printed((if k == 0 then old(pending[isError]) else "") + Split(line)[k], isError)
    {
      var current := pending[isError];
      var lines := Split(line);
      var n := |lines|;
      assert n >= 2 by { SplitPieces(line); }
      var printLast := n > 1 && EndsWithNewline(line);
      out := PrintPieces(current, lines, isError);
      pending := pending[isError := ""];
      var last := lines[n - 1];
      assert Text(out) + last == current + line && (printLast ==> last == "") by {
        SplitAsLastPiece(line);
        Regroup2(current, Join(lines[..n - 1]), last);
      }
      if last != "" {
        if printLast {
          assert false;
        } else {
          pending := pending[isError := last];
        }
      }
    }

    /** src/wasm_runtime.js:143-147: the pending line continued by the first
        piece, then every middle piece, each printed on its own. */
    method PrintPieces(current: string, lines: seq<string>, isError: bool) returns (ghost out: seq<Printed>)
      requires |lines| >= 2
      modifies this
      ensures pending == old(pending) && prevIsError == old(prevIsError)
      ensures htmlLines == old(htmlLines) && shown == old(shown)
      ensures printed == old(printed) + out && |out| == |lines| - 1
      ensures forall k :: 0 <= k < |out| ==> out[k].styled == isError
      ensures Text(out) == current + Join(lines[..|lines| - 1]) + "\n"
      ensures forall k :: 0 <= k < |out| ==> out[k] == Printed((if k == 0 then current else "") + lines[k], isError)
    {
      Println(current + lines[0], isError);
      out := [Printed(current + lines[0], isError)];
      assert Text(out) == current + Join(lines[..1]) + "\n" by { PrintedFirstPiece(current, lines, isError); }
      var i := 1;
      while i < |lines| - 1
        invariant 1 <= i <= |lines| - 1
        invariant pending == old(pending) && prevIsError == old(prevIsError)
        invariant htmlLines == old(htmlLines) && shown == old(shown)
        invariant printed == old(printed) + out && |out| == i
        invariant forall k :: 0 <= k < |out| ==> out[k].styled == isError
        invariant Text(out) == current + Join(lines[..i]) + "\n"
        invariant forall k :: 0 <= k < |out| ==> out[k] == Printed((if k == 0 then current else "") + lines[k], isError)
      {
        Println(lines[i], isError);
        PrintedPieceStep(out, current, lines, i, isError);
        out := out + [Printed(lines[i], isError)];
        i := i + 1;
      }
    }

    /** Switching from stderr to stdout prints the unfinished stderr line, with
        the error style, and drops it; then the stream is remembered. */
    method SwitchStream(isError: bool)
      requires Valid()
      modifies this
      ensures Valid() && prevIsError == isError
      ensures htmlLines == old(htmlLines) && shown == old(shown)
      ensures old(prevIsError) && !isError ==>
        printed == old(printed) + [Printed(old(pending[true]), true)] && pending == old(pending)[true := ""]
      ensures !(old(prevIsError) && !isError) ==> printed == old(printed) && pending == old(pending)
    {
      if prevIsError != isError {
        if prevIsError {
          Println(pending[prevIsError], prevIsError);
          pending := pending[prevIsError := ""];
        }
      }
      prevIsError := isError;
    }

    /** The HTML half: the chunk goes into the line list, the oldest line is
        dropped once when there are too many, and the concatenated lines
        become the element's content. */
    method RenderHtml(line: string, isError: bool)
      requires line != ""
      modifies this
      ensures pending == old(pending) && prevIsError == old(prevIsError) && printed == old(printed)
      ensures !hasElement ==> htmlLines == old(htmlLines) && shown == old(shown)
      ensures hasElement ==> htmlLines == Trim(HtmlPush(old(htmlLines), line, isError)) && shown == Concat(htmlLines)
    {
      if !hasElement {
        return;
      }
      htmlLines := HtmlPush(htmlLines, line, isError);
      if |htmlLines| > MAX_INFO_CONSOLE_LINES {
        htmlLines := htmlLines[1..];
      }
      shown := JoinLines(htmlLines);
    }

    /** writeToConsole(line, isError). An empty chunk changes nothing. `out`
        is what the chunk itself printed on its stream. */
    method WriteToConsole(line: string, isError: bool) returns (ghost out: seq<Printed>)
      requires Valid()
      modifies this
      ensures Valid()
      ensures line == "" ==>
        pending == old(pending) && prevIsError == old(prevIsError) && printed == old(printed)
        && htmlLines == old(htmlLines) && shown == old(shown) && out == []
      ensures line != "" ==>
        && prevIsError == isError
        && Text(out) + pending[isError] == old(pending[isError]) + line
        && (forall k :: 0 <= k < |out| ==> out[k].styled == isError)
        && ('\n' !in line ==> out == [])
        && ('\n' in line ==> |out| == |Split(line)| - 1 && pending[isError] == Split(line)[|Split(line)| - 1])
        && ('\n' in line ==> forall k :: 0 <= k < |out| ==>
              out[k] == Printed((if k == 0 then old(pending[isError]) else "") + Split(line)[k], isError))
        && (line == "\n" ==> out == [Printed(old(pending[isError]), isError)] && pending[isError] == "")
        && printed == old(printed) + out
             + (if old(prevIsError) && !isError then [Printed(old(pending[true]), true)] else [])
        && pending[!isError] == (if old(prevIsError) && !isError then "" else old(pending[!isError]))
        && (hasElement ==> htmlLines == Trim(HtmlPush(old(htmlLines), line, isError)) && shown == Concat(htmlLines))
        && (!hasElement ==> htmlLines == old(htmlLines) && shown == old(shown))
    {
      if line == "" {
        return [];
      }
      out := Accumulate(line, isError);
      SwitchStream(isError);
      RenderHtml(line, isError);
    }
  }
}

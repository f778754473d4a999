/** The byte stream of a file transfer: protocol.h, and the frames that TaskFileSend.cpp
    writes. */
module TransferFormat {
  import opened Octets

  const NetFlag := 0xfefdfcfb
  const LoginRet := 2
  const Files := 3
  const DataEnd := 8
  const NetCmdSize := 16
  const FileGetSize := 8
  const LoginRetSize := 1032
  const CmdLen := 1500

  // ---- integers in little-endian order ----

  function Le(v: int, n: nat): (b: seq<Byte>)
    requires v >= 0
    ensures |b| == n
  {
    if n == 0 then [] else [v % 256] + Le(v / 256, n - 1)
  }

  function FromLe(b: seq<Byte>): int {
    if b == [] then 0 else b[0] as int + 256 * FromLe(b[1..])
  }

  function Power256(n: nat): nat {
    if n == 0 then 1 else 256 * Power256(n - 1)
  }

  lemma {:induction false} LeRoundTrip(v: int, n: nat)
    requires 0 <= v < Power256(n)
    ensures FromLe(Le(v, n)) == v
  {
    if n > 0 { LeRoundTrip(v / 256, n - 1); }
  }

  function Le32(v: int): (b: seq<Byte>)
    requires 0 <= v < 0x1_0000_0000
    ensures |b| == 4
  {
    Le(v, 4)
  }

  function FromLe32(b: seq<Byte>): int
    requires |b| == 4
  {
    FromLe(b)
  }

  lemma Le32RoundTrip(v: int)
    requires 0 <= v < 0x1_0000_0000
    ensures FromLe32(Le32(v)) == v
  {
    assert Power256(4) == 0x1_0000_0000;
    LeRoundTrip(v, 4);
  }

  /** The lowest byte comes first. */
  lemma Le32Bytes(v: int)
    requires 0 <= v < 0x1_0000_0000
    ensures var b := Le32(v); v == b[0] as int + 256 * b[1] as int + 65536 * b[2] as int + 16777216 * b[3] as int
  {
    Le32RoundTrip(v);
    var b := Le32(v);
    assert FromLe(b[1..]) == b[1] as int + 256 * FromLe(b[1..][1..]);
    assert b[1..][1..] == b[2..] && b[2..][1..] == b[3..] && b[3..][1..] == [];
  }

  // ---- frames ----

  function Header(cmd: int, length: int): (b: seq<Byte>)
    requires 0 <= cmd < 0x1_0000_0000 && 0 <= length < 0x1_0000_0000
    ensures |b| == NetCmdSize
  {
    Le32(NetFlag) + Le32(cmd) + Le32(0) + Le32(length)
  }

  /** The fields of a header are read back where the receiver looks for them. */
  lemma HeaderFields(cmd: int, length: int)
    requires 0 <= cmd < 0x1_0000_0000 && 0 <= length < 0x1_0000_0000
    ensures FromLe32(Header(cmd, length)[4..8]) == cmd
    ensures FromLe32(Header(cmd, length)[12..16]) == length
    ensures FromLe32(Header(cmd, length)[0..4]) == 0xfefdfcfb && FromLe32(Header(cmd, length)[8..12]) == 0
  {
    Le32RoundTrip(cmd);
    Le32RoundTrip(length);
    Le32RoundTrip(NetFlag);
    Le32RoundTrip(0);
    assert Header(cmd, length)[0..4] == Le32(NetFlag) && Header(cmd, length)[8..12] == Le32(0);
    assert Header(cmd, length)[4..8] == Le32(cmd);
    assert Header(cmd, length)[12..16] == Le32(length);
  }

  lemma Slice(d: seq<Byte>, b: seq<Byte>, a: nat, i: nat, j: nat)
    requires a + |b| <= |d| && i <= j <= |b| && d[a..a + |b|] == b
    ensures d[a + i..a + j] == b[i..j]
  {
    forall k | i <= k < j ensures d[a + k] == b[k] {
      assert d[a..a + |b|][k] == b[k];
    }
  }

  lemma HeaderRead(d: seq<Byte>, cmd: int, length: int)
    requires 0 <= cmd < 0x1_0000_0000 && 0 <= length < 0x1_0000_0000
    requires |d| >= NetCmdSize && d[..NetCmdSize] == Header(cmd, length)
    ensures FromLe32(d[4..8]) == cmd && FromLe32(d[12..16]) == length
  {
    HeaderFields(cmd, length);
    Slice(d, Header(cmd, length), 0, 4, 8);
    Slice(d, Header(cmd, length), 0, 12, 16);
  }

  function Zeros(n: nat): seq<Byte> {
    seq(n, i => 0)
  }

  /** LOGIN_RET: the code 0, the size of FILE_INFO, and FILE_INFO with the file length. */
  function LoginBody(fileLen: int): (b: seq<Byte>)
    requires 0 <= fileLen < 0x8000_0000
    ensures |b| == LoginRetSize
  {
    Le32(0) + Le32(8) + Le32(0) + Le32(fileLen) + Zeros(1016)
  }

  lemma LoginFields(fileLen: int)
    requires 0 <= fileLen < 0x8000_0000
    ensures FromLe32(LoginBody(fileLen)[12..16]) == fileLen
    ensures FromLe32(LoginBody(fileLen)[0..4]) == 0 && FromLe32(LoginBody(fileLen)[4..8]) == 8
    ensures FromLe32(LoginBody(fileLen)[8..12]) == 0
  {
    Le32RoundTrip(fileLen);
    Le32RoundTrip(0);
    Le32RoundTrip(8);
    var b := LoginBody(fileLen);
    assert b[0..4] == Le32(0) && b[4..8] == Le32(8) && b[8..12] == Le32(0) && b[12..16] == Le32(fileLen);
  }

  lemma LoginRead(d: seq<Byte>, fileLen: int)
    requires 0 <= fileLen < 0x8000_0000 && |d| >= NetCmdSize + LoginRetSize
    requires d[NetCmdSize..NetCmdSize + LoginRetSize] == LoginBody(fileLen)
    ensures FromLe32(d[28..32]) == fileLen
  {
    LoginFields(fileLen);
    Slice(d, LoginBody(fileLen), NetCmdSize, 12, 16);
  }

  lemma FileGetRead(d: seq<Byte>, pos: int, length: int)
    requires 0 <= pos < 0x8000_0000 && 0 <= length < 0x8000_0000 && |d| >= NetCmdSize + FileGetSize
    requires d[NetCmdSize..NetCmdSize + FileGetSize] == FileGet(pos, length)
    ensures FromLe32(d[20..24]) == length
  {
    FileGetFields(pos, length);
    Slice(d, FileGet(pos, length), NetCmdSize, 4, 8);
  }

  /** FILE_GET in front of the data of a chunk. */
  function FileGet(pos: int, length: int): (b: seq<Byte>)
    requires 0 <= pos < 0x8000_0000 && 0 <= length < 0x8000_0000
    ensures |b| == FileGetSize
  {
    Le32(pos) + Le32(length)
  }

  lemma FileGetFields(pos: int, length: int)
    requires 0 <= pos < 0x8000_0000 && 0 <= length < 0x8000_0000
    ensures FromLe32(FileGet(pos, length)[0..4]) == pos && FromLe32(FileGet(pos, length)[4..8]) == length
  {
    Le32RoundTrip(pos);
    Le32RoundTrip(length);
    assert FileGet(pos, length)[0..4] == Le32(pos);
    assert FileGet(pos, length)[4..8] == Le32(length);
  }

  // ---- bytes that remember whether they are bytes of the file ----

  datatype Cell = Cell(byte: Byte, data: bool)

  function Tag(b: seq<Byte>, data: bool): (c: seq<Cell>)
    ensures |c| == |b|
  {
    seq(|b|, i requires 0 <= i < |b| => Cell(b[i], data))
  }

  function Bytes(c: seq<Cell>): (b: seq<Byte>)
    ensures |b| == |c|
  {
    seq(|c|, i requires 0 <= i < |c| => c[i].byte)
  }

  lemma BytesOfTag(b: seq<Byte>, data: bool)
    ensures Bytes(Tag(b, data)) == b
  {
  }

  lemma BytesAppend(a: seq<Cell>, b: seq<Cell>)
    ensures Bytes(a + b) == Bytes(a) + Bytes(b)
  {
  }

  lemma TagAppend(a: seq<Byte>, b: seq<Byte>, data: bool)
    ensures Tag(a + b, data) == Tag(a, data) + Tag(b, data)
  {
  }

  lemma TagSplit(b: seq<Byte>, i: int, j: int, k: int, data: bool)
    requires 0 <= i <= j <= k <= |b|
    ensures Tag(b[i..k], data) == Tag(b[i..j], data) + Tag(b[j..k], data)
  {
    assert b[i..k] == b[i..j] + b[j..k];
    TagAppend(b[i..j], b[j..k], data);
  }

  /** The bytes of the file among the cells. */
  function Payload(c: seq<Cell>): seq<Byte> {
    if c == [] then [] else (if c[0].data then [c[0].byte] else []) + Payload(c[1..])
  }

  lemma {:induction false} PayloadAppend(a: seq<Cell>, b: seq<Cell>)
    ensures Payload(a + b) == Payload(a) + Payload(b)
  {
    if a == [] {
      assert a + b == b;
    } else {
      assert (a + b)[1..] == a[1..] + b && (a + b)[0] == a[0];
      PayloadAppend(a[1..], b);
      var first := if a[0].data then [a[0].byte] else [];
      assert first + (Payload(a[1..]) + Payload(b)) == (first + Payload(a[1..])) + Payload(b);
    }
  }

  lemma {:induction false} PayloadOfTag(b: seq<Byte>, data: bool)
    ensures Payload(Tag(b, data)) == if data then b else []
  {
    if b != [] {
      assert Tag(b, data)[1..] == Tag(b[1..], data);
      PayloadOfTag(b[1..], data);
      assert b == [b[0]] + b[1..];
    }
  }

  // ---- the stream ----

  function Min(a: int, b: int): int {
    if a < b then a else b
  }

  /** A command with its body. */
  datatype Frame = Frame(cmd: int, head: seq<Byte>, content: seq<Byte>)

  predicate Sendable(file: seq<Byte>, chunk: int) {
    0 < chunk && |file| < 0x8000_0000
  }

  ghost predicate FrameOk(f: Frame) {
    0 <= f.cmd < 0x1_0000_0000 && |f.head| + |f.content| < 0x1_0000_0000
  }

  function FrameCells(f: Frame): seq<Cell>
    requires FrameOk(f)
  {
    Tag(Header(f.cmd, |f.head| + |f.content|), false) + Tag(f.head, false) + Tag(f.content, true)
  }

  function LoginFrame(file: seq<Byte>): (f: Frame)
    requires |file| < 0x8000_0000
    ensures FrameOk(f)
  {
    Frame(LoginRet, LoginBody(|file|), [])
  }

  /** The chunk of the file at pos. */
  function FileFrame(file: seq<Byte>, chunk: int, pos: int): (f: Frame)
    requires Sendable(file, chunk) && 0 <= pos < |file|
    ensures FrameOk(f) && |f.head| == FileGetSize && |f.content| == Min(chunk, |file| - pos) > 0
  {
    var n := Min(chunk, |file| - pos);
    Frame(Files, FileGet(pos, n), file[pos..pos + n])
  }

  const EndFrame := Frame(DataEnd, [], [])

  /** The frames from position pos of the file on. */
  function Stream(file: seq<Byte>, chunk: int, pos: int): seq<Cell>
    requires Sendable(file, chunk) && 0 <= pos <= |file|
    decreases |file| - pos
  {
    if pos < |file| then
      FrameCells(FileFrame(file, chunk, pos)) + Stream(file, chunk, pos + Min(chunk, |file| - pos))
    else FrameCells(EndFrame)
  }

  function Whole(file: seq<Byte>, chunk: int): seq<Cell>
    requires Sendable(file, chunk)
  {
    FrameCells(LoginFrame(file)) + Stream(file, chunk, 0)
  }

  function FrameBytes(f: Frame): seq<Byte>
    requires FrameOk(f)
  {
    Header(f.cmd, |f.head| + |f.content|) + f.head + f.content
  }

  lemma FrameParts(f: Frame)
    requires FrameOk(f)
    ensures var b, h := FrameBytes(f), NetCmdSize + |f.head|;
      && |b| == h + |f.content| && b[..NetCmdSize] == Header(f.cmd, |f.head| + |f.content|)
      && b[NetCmdSize..h] == f.head && b[h..] == f.content
  {
  }

  lemma FrameCellsBytes(f: Frame)
    requires FrameOk(f)
    ensures Bytes(FrameCells(f)) == FrameBytes(f)
  {
    var h := Header(f.cmd, |f.head| + |f.content|);
    BytesAppend(Tag(h, false) + Tag(f.head, false), Tag(f.content, true));
    BytesAppend(Tag(h, false), Tag(f.head, false));
    BytesOfTag(h, false);
    BytesOfTag(f.head, false);
    BytesOfTag(f.content, true);
  }

  /** What follows in a stream that continues with `frame` does so within the frame. */
  lemma Within(got: seq<Cell>, cells: seq<Cell>, rest: seq<Cell>, frame: seq<Cell>, after: seq<Cell>)
    requires got + cells + rest == frame + after && |got| + |cells| <= |frame|
    ensures got + cells == frame[..|got| + |cells|]
    ensures |got| + |cells| == |frame| ==> rest == after
  {
    var n := |got| + |cells|;
    assert got + cells == (got + cells + rest)[..n];
    assert frame[..n] == (frame + after)[..n];
    assert rest == (got + cells + rest)[n..];
    if n == |frame| { assert after == (frame + after)[n..]; }
  }

  lemma FramePayload(f: Frame)
    requires FrameOk(f)
    ensures Payload(FrameCells(f)) == f.content
  {
    var h := Header(f.cmd, |f.head| + |f.content|);
    PayloadAppend(Tag(h, false) + Tag(f.head, false), Tag(f.content, true));
    PayloadAppend(Tag(h, false), Tag(f.head, false));
    PayloadOfTag(h, false);
    PayloadOfTag(f.head, false);
    PayloadOfTag(f.content, true);
  }

  /** The stream carries the rest of the file. */
  lemma {:induction false} StreamPayload(file: seq<Byte>, chunk: int, pos: int)
    requires Sendable(file, chunk) && 0 <= pos <= |file|
    ensures Payload(Stream(file, chunk, pos)) == file[pos..]
    decreases |file| - pos
  {
    if pos < |file| {
      var f := FileFrame(file, chunk, pos);
      var n := Min(chunk, |file| - pos);
      PayloadAppend(FrameCells(f), Stream(file, chunk, pos + n));
      FramePayload(f);
      StreamPayload(file, chunk, pos + n);
      assert file[pos..] == file[pos..pos + n] + file[pos + n..];
    } else {
      FramePayload(EndFrame);
    }
  }

  // ---- the frames of a file ----

  /** dwPos and nLength of the FILES frames. */
  function Tiles(file: seq<Byte>, chunk: int, pos: int): seq<(int, int)>
    requires Sendable(file, chunk) && 0 <= pos <= |file|
    decreases |file| - pos
  {
    if pos == |file| then [] else
      var n := Min(chunk, |file| - pos);
      [(pos, n)] + Tiles(file, chunk, pos + n)
  }

  function Lengths(tiles: seq<(int, int)>): int {
    if tiles == [] then 0 else Lengths(tiles[..|tiles| - 1]) + tiles[|tiles| - 1].1
  }

  lemma {:induction false} LengthsFront(t: (int, int), tiles: seq<(int, int)>)
    ensures Lengths([t] + tiles) == t.1 + Lengths(tiles)
  {
    var w := [t] + tiles;
    if tiles != [] {
      assert w[..|w| - 1] == [t] + tiles[..|tiles| - 1];
      LengthsFront(t, tiles[..|tiles| - 1]);
    } else {
      assert w[..0] == [];
    }
  }

  /** The i-th tile begins where the tiles before it end, and it is neither empty nor longer
      than n. */
  predicate TileAt(tiles: seq<(int, int)>, pos: int, n: int, i: nat)
    requires i < |tiles|
  {
    tiles[i].0 == pos + Lengths(tiles[..i]) && 0 < tiles[i].1 <= n
  }

  /** A tile in front of others moves them on by its length. */
  lemma TileMoved(t: (int, int), tiles: seq<(int, int)>, pos: int, n: int, i: nat)
    requires i < |tiles| && TileAt(tiles, pos + t.1, n, i)
    ensures TileAt([t] + tiles, pos, n, i + 1)
  {
    assert ([t] + tiles)[..i + 1] == [t] + tiles[..i];
    LengthsFront(t, tiles[..i]);
  }

  /** The frames tile the file: every dwPos is the sum of the lengths before it, no chunk is
      empty or longer than the first one, and the lengths add up to the rest of the file. */
  lemma {:induction false} TilesFit(file: seq<Byte>, chunk: int, pos: int)
    requires Sendable(file, chunk) && 0 <= pos <= |file|
    ensures var t := Tiles(file, chunk, pos);
      && (forall i {:trigger TileAt(t, pos, Min(chunk, |file| - pos), i)} :: 0 <= i < |t| ==>
        TileAt(t, pos, Min(chunk, |file| - pos), i))
      && Lengths(t) == |file| - pos
      && (t != [] ==> t[0] == (pos, Min(chunk, |file| - pos)))
    decreases |file| - pos
  {
    if pos < |file| {
      var n := Min(chunk, |file| - pos);
      var r := Tiles(file, chunk, pos + n);
      TilesFit(file, chunk, pos + n);
      LengthsFront((pos, n), r);
      TilesMoved(pos, n, r, Min(chunk, |file| - pos - n));
    }
  }

  lemma TilesMoved(pos: int, n: int, r: seq<(int, int)>, m: int)
    requires 0 < n && m <= n
    requires forall i {:trigger TileAt(r, pos + n, m, i)} :: 0 <= i < |r| ==> TileAt(r, pos + n, m, i)
    ensures forall i {:trigger TileAt([(pos, n)] + r, pos, n, i)} :: 0 <= i < |r| + 1 ==>
      TileAt([(pos, n)] + r, pos, n, i)
  {
    forall i | 0 <= i < |r| + 1 ensures TileAt([(pos, n)] + r, pos, n, i) {
      if i > 0 {
        assert TileAt(r, pos + n, m, i - 1);
        TileMoved((pos, n), r, pos, n, i - 1);
      } else {
        assert ([(pos, n)] + r)[..0] == [];
      }
    }
  }

  /** n is x divided by c, rounded up. */
  predicate RoundedUp(n: int, x: int, c: int) {
    n * c - c < x <= n * c
  }

  lemma OneMoreTile(n: int, x: int, c: int)
    requires RoundedUp(n, x, c)
    ensures RoundedUp(n + 1, x + c, c)
  {
    assert (n + 1) * c == n * c + c;
  }

  /** Their number is the length divided by the chunk size, rounded up. */
  lemma {:induction false} TileCount(file: seq<Byte>, chunk: int, pos: int)
    requires Sendable(file, chunk) && 0 <= pos <= |file|
    ensures RoundedUp(|Tiles(file, chunk, pos)|, |file| - pos, chunk)
    decreases |file| - pos
  {
    var rest := |file| - pos;
    if rest > chunk {
      TileCount(file, chunk, pos + chunk);
      OneMoreTile(|Tiles(file, chunk, pos + chunk)|, rest - chunk, chunk);
    } else if rest > 0 {
      assert Tiles(file, chunk, pos + rest) == [];
      assert 1 * chunk == chunk;
    } else {
      assert 0 * chunk == 0;
    }
  }

  /** The bytes of a FILES frame: the flag, the command 3, the length, then dwPos and nLength of
      its tile, and that part of the file. */
  lemma FileFrameFields(file: seq<Byte>, chunk: int, pos: int)
    requires Sendable(file, chunk) && 0 <= pos < |file|
    ensures var b, n := FrameBytes(FileFrame(file, chunk, pos)), Min(chunk, |file| - pos);
      && |b| == 24 + n && FromLe32(b[0..4]) == 0xfefdfcfb && FromLe32(b[4..8]) == 3
      && FromLe32(b[12..16]) == 8 + n && FromLe32(b[16..20]) == pos && FromLe32(b[20..24]) == n
      && b[24..] == file[pos..pos + n]
      && Tiles(file, chunk, pos)[0] == (pos, n)
  {
    var f := FileFrame(file, chunk, pos);
    var b, h, n := FrameBytes(f), Header(f.cmd, |f.head| + |f.content|), Min(chunk, |file| - pos);
    FrameParts(f);
    HeaderFields(3, 8 + n);
    FileGetFields(pos, n);
    assert b[0..4] == h[0..4] && b[4..8] == h[4..8] && b[12..16] == h[12..16];
    assert b[16..20] == f.head[0..4] && b[20..24] == f.head[4..8];
  }

  // ---- room for the frames ----

  /** A receive buffer takes a frame with its header. */
  predicate Takes(capacity: int, f: Frame) {
    NetCmdSize + |f.head| + |f.content| <= capacity
  }

  ghost predicate TakesAll(capacity: int, file: seq<Byte>, chunk: int)
    requires Sendable(file, chunk)
  {
    && Takes(capacity, LoginFrame(file))
    && (forall pos {:trigger FileFrame(file, chunk, pos)} :: 0 <= pos < |file| ==>
      Takes(capacity, FileFrame(file, chunk, pos)))
  }

  /** The capacity that is needed: header, FILE_GET and the longest chunk. */
  lemma CapacityNeeded(capacity: int, file: seq<Byte>, chunk: int)
    requires Sendable(file, chunk)
    ensures TakesAll(capacity, file, chunk) <==>
      capacity >= NetCmdSize + LoginRetSize
      && (file != [] ==> capacity >= NetCmdSize + FileGetSize + Min(chunk, |file|))
  {
    if TakesAll(capacity, file, chunk) && file != [] {
      assert Takes(capacity, FileFrame(file, chunk, 0));
    }
  }

  /** The receiver reserves the header and the chunk size, FILE_MEMORY_LEN, and not FILE_GET:
      enough exactly for the files that are eight bytes shorter than the chunk size. */
  lemma CapacityReserved(file: seq<Byte>)
    requires |file| < 0x8000_0000
    ensures TakesAll(FileMemoryLen + NetCmdSize, file, FileMemoryLen) <==> |file| <= FileMemoryLen - FileGetSize
  {
    CapacityNeeded(FileMemoryLen + NetCmdSize, file, FileMemoryLen);
  }

  const FileMemoryLen := 1024 * 1024

  /** A file of exactly one chunk does not fit. */
  lemma OneMebibyte()
    ensures !Takes(FileMemoryLen + NetCmdSize, FileFrame(Zeros(FileMemoryLen), FileMemoryLen, 0))
  {
  }
}

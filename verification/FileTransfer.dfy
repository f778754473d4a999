/** Both ends of a file transfer (TaskFileSend.cpp, TaskFileRecv.cpp) and the connection. */
module FileTransfer {
  import opened Octets
  import opened TransferFormat

  /** tagFileProcBuffer of common/basedef.h. */
  class ProcBuffer {
    const cmmd: array<Byte>
    var bProcCmmd: bool
    var hasProcLen: int
    var totalLen: int
    var dataLen: int
    var memLen: int
    var data: array?<Byte>

    constructor ()
      ensures fresh(cmmd) && cmmd.Length == CmdLen && data == null
      ensures bProcCmmd && hasProcLen == totalLen == dataLen == 0
    {
      cmmd := new Byte[CmdLen](_ => 0);
      bProcCmmd, hasProcLen, totalLen, dataLen, memLen, data := true, 0, 0, 0, 0, null;
    }

    method Reset()
      modifies this, cmmd
      ensures bProcCmmd && hasProcLen == totalLen == dataLen == 0
      ensures data == old(data) && memLen == old(memLen)
    {
      forall i | 0 <= i < cmmd.Length {
        cmmd[i] := 0;
      }
      totalLen, dataLen, hasProcLen, bProcCmmd := 0, 0, 0, true;
    }

    /** Memory is allocated once. */
    method CreateMem(len: nat)
      modifies this`data, this`memLen
      ensures old(data) == null ==> data != null && fresh(data) && data.Length == len && memLen == len
      ensures old(data) != null ==> data == old(data) && memLen == old(memLen)
    {
      if data == null {
        data := new Byte[len](_ => 0);
        memLen := len;
      }
    }

    method SetToVideo()
      modifies this
      ensures !bProcCmmd && hasProcLen == 0 && totalLen == dataLen
      ensures dataLen == old(dataLen) && data == old(data) && memLen == old(memLen)
    {
      bProcCmmd := false;
      hasProcLen := 0;
      totalLen := dataLen;
    }
  }

  /** Bytes are copied into a into array from position k on. */
  method Copy(a: array<Byte>, k: nat, b: seq<Byte>)
    requires k + |b| <= a.Length
    modifies a
    ensures a[..] == old(a[..k]) + b + old(a[k + |b|..])
  {
    forall i | 0 <= i < |b| {
      a[k + i] := b[i];
    }
  }

  // ---- the sender ----

  /** The sender: `sent` bytes of the command or of the data have been sent. */
  datatype SendView = SendView(
      started: bool, ended: bool, sending: bool,
      proc: bool, total: int, sent: int, dataLen: int, hasRead: int,
      cmmd: seq<Byte>, data: seq<Byte>)
  {
    predicate Ok(file: seq<Byte>, chunk: int) {
      && Sendable(file, chunk) && 0 <= hasRead <= |file| && |cmmd| == CmdLen
      && 0 <= sent <= total && (sending ==> sent < total) && (!sending ==> sent == 0)
      && 0 <= dataLen <= |data|
      && (proc ==> total <= CmdLen && (if total == 0 then dataLen == 0 else sending))
      && (!proc ==> total == dataLen)
      && (ended ==> started && hasRead == |file| && dataLen == 0)
      && (!started ==> proc && total == 0 && hasRead == 0)
    }

    /** What the sender has not sent yet of what it has put into its buffer. */
    function Pending(): seq<Cell>
      requires 0 <= sent <= total && 0 <= dataLen <= |data| && (proc ==> total <= |cmmd|) &&
        (!proc ==> total == dataLen)
    {
      if proc then Tag(cmmd[sent..total], false) + Tag(data[..dataLen], true)
      else Tag(data[sent..total], true)
    }

    /** Everything that the sender has still to send. */
    function Future(file: seq<Byte>, chunk: int): seq<Cell>
      requires Ok(file, chunk)
    {
      if !started then Whole(file, chunk)
      else Pending() + (if ended then [] else Stream(file, chunk, hasRead))
    }

    /** The next n bytes of the buffer. */
    function Next(n: nat): seq<Byte>
      requires n <= total - sent && 0 <= sent && |cmmd| == CmdLen && (proc ==> total <= CmdLen)
      requires !proc ==> total <= |data|
    {
      if proc then cmmd[sent..sent + n] else data[sent..sent + n]
    }

    /** After n bytes; at the end of a command the data follow, at the end of the data the
        buffer is reset. */
    function After(n: nat): SendView
      requires n <= total - sent
    {
      if sent + n < total then this.(sent := sent + n)
      else if proc then this.(proc := false, total := dataLen, sent := 0, sending := false)
      else this.(proc := true, total := 0, sent := 0, dataLen := 0, sending := false)
    }

    /** The bytes that leave are the first of those to be sent. */
    lemma SendingSplits(file: seq<Byte>, chunk: int, n: nat, cmmd1: seq<Byte>)
      requires Ok(file, chunk) && started && sending && n <= total - sent && |cmmd1| == CmdLen
      requires After(n).total > 0 ==> cmmd1 == cmmd
      ensures var v := After(n).(cmmd := cmmd1);
        v.Ok(file, chunk) && Future(file, chunk) == Tag(Next(n), !proc) + v.Future(file, chunk)
    {
      AfterOk(file, chunk, n, cmmd1);
      PendingSplits(n, cmmd1);
      Regroup(Tag(Next(n), !proc), After(n).(cmmd := cmmd1).Pending(),
              if ended then [] else Stream(file, chunk, hasRead));
    }

    lemma AfterOk(file: seq<Byte>, chunk: int, n: nat, cmmd1: seq<Byte>)
      requires Ok(file, chunk) && started && sending && n <= total - sent && |cmmd1| == CmdLen
      ensures After(n).(cmmd := cmmd1).Ok(file, chunk)
    {
    }

    static lemma Regroup(a: seq<Cell>, b: seq<Cell>, c: seq<Cell>)
      ensures a + (b + c) == (a + b) + c
    {
    }

    lemma PendingSplits(n: nat, cmmd1: seq<Byte>)
      requires 0 <= sent && n <= total - sent && 0 <= dataLen <= |data| && |cmmd| == |cmmd1| == CmdLen
      requires (proc ==> total <= CmdLen) && (!proc ==> total == dataLen)
      requires After(n).total > 0 ==> cmmd1 == cmmd
      ensures Pending() == Tag(Next(n), !proc) + After(n).(cmmd := cmmd1).Pending()
    {
      if proc {
        CommandSplits(n);
      } else {
        TagSplit(data, sent, sent + n, total, true);
        if sent + n == total { assert Tag(data[sent + n..total], true) == []; }
      }
    }

    lemma CommandSplits(n: nat)
      requires 0 <= sent && n <= total - sent && 0 <= dataLen <= |data| && |cmmd| == CmdLen && proc && total <= CmdLen
      ensures Pending() == Tag(Next(n), false) + After(n).Pending()
    {
      TagSplit(cmmd, sent, sent + n, total, false);
      Regroup(Tag(Next(n), false), Tag(cmmd[sent + n..total], false), Tag(data[..dataLen], true));
      if sent + n == total { assert cmmd[sent + n..total] == []; }
    }

    /** A command in the buffer with its data is a frame. */
    lemma Loaded(f: Frame)
      requires FrameOk(f) && proc && sent == 0 && total == NetCmdSize + |f.head| <= |cmmd| &&
        dataLen == |f.content| <= |data|
      requires cmmd[..total] == Header(f.cmd, |f.head| + |f.content|) + f.head && data[..dataLen] == f.content
      ensures Pending() == FrameCells(f)
    {
      TagAppend(Header(f.cmd, |f.head| + |f.content|), f.head, false);
      assert cmmd[sent..total] == cmmd[..total];
    }
  }

  class Sender {
    const file: seq<Byte>
    const chunk: int
    const buf: ProcBuffer
    var mFileLen: int
    var mHasReadLen: int
    var mFrameCount: int
    var position: int              // of the file that fread reads
    // the loop of sendEx
    var sending: bool
    var len: int
    var leftLen: int
    var started: bool              // LOGINRET has been put into the buffer
    ghost var ended: bool          // DATAEND has
    ghost var calls: int           // of writeBuffer

    ghost function V(): SendView
      reads this, buf, buf.cmmd, buf.data
    {
      SendView(started, ended, sending, buf.bProcCmmd, buf.totalLen, if sending then len - leftLen else 0,
               buf.dataLen, mHasReadLen, buf.cmmd[..], if buf.data == null then [] else buf.data[..])
    }

    ghost predicate Valid()
      reads this, buf, buf.cmmd, buf.data
    {
      && V().Ok(file, chunk)
      && buf.cmmd.Length == CmdLen && buf.data != buf.cmmd && buf.hasProcLen == 0
      && (sending ==> len == buf.totalLen && 0 < leftLen <= len)
      && position == mHasReadLen && (started ==> mFileLen == |file|)
      && (buf.data == null ==> mHasReadLen == 0)
      && (buf.data != null ==> buf.data.Length == buf.memLen == Min(chunk, |file|))
      && (started ==> calls + CallsLeft() == 2 * |Tiles(file, chunk, 0)| + 1)
    }

    /** The calls of writeBuffer up to the one that sends DATAEND. */
    ghost function CallsLeft(): int
      requires V().Ok(file, chunk)
      reads this, buf, buf.cmmd, buf.data
    {
      2 * |Tiles(file, chunk, mHasReadLen)| + (if buf.dataLen > 0 && !(sending && !buf.bProcCmmd) then 1 else 0)
      + (if ended then 0 else 1)
    }

    ghost function Future(): seq<Cell>
      requires V().Ok(file, chunk)
      reads this, buf, buf.cmmd, buf.data
    {
      V().Future(file, chunk)
    }

    /** How much the sender has to do: three for every byte still to be sent, one for fetching
        the file, one for putting the next segment into the buffer. */
    ghost function ToDo(): nat
      requires V().Ok(file, chunk)
      reads this, buf, buf.cmmd, buf.data
    {
      3 * |Future()| + (if started then 0 else 1) + (if sending then 0 else 1)
    }

    /** The bytes of the file in the send buffer. */
    ghost function Unsent(): seq<Byte>
      requires V().Ok(file, chunk)
      reads this, buf, buf.cmmd, buf.data
    {
      if !started then [] else if buf.bProcCmmd then V().data[..buf.dataLen] else V().data[V().sent..buf.totalLen]
    }

    lemma FuturePayload()
      requires Valid()
      ensures Payload(Future()) == Unsent() + file[mHasReadLen..]
    {
      if !started {
        PayloadAppend(FrameCells(LoginFrame(file)), Stream(file, chunk, 0));
        FramePayload(LoginFrame(file));
      } else {
        PayloadAppend(V().Pending(), if ended then [] else Stream(file, chunk, mHasReadLen));
        PendingPayload();
      }
      StreamPayload(file, chunk, mHasReadLen);
    }

    lemma PendingPayload()
      requires Valid() && started
      ensures Payload(V().Pending()) == Unsent()
    {
      var v := V();
      if v.proc {
        PayloadAppend(Tag(v.cmmd[v.sent..v.total], false), Tag(v.data[..v.dataLen], true));
        PayloadOfTag(v.cmmd[v.sent..v.total], false);
        PayloadOfTag(v.data[..v.dataLen], true);
      } else {
        PayloadOfTag(v.data[v.sent..v.total], true);
      }
    }

    /** The sender is untouched. */
    twostate lemma Kept()
      requires old(Valid()) && unchanged(this) && unchanged(buf) && unchanged(buf.cmmd)
      requires old(buf.data) != null ==> unchanged(old(buf.data))
      ensures Valid() && Future() == old(Future()) && ToDo() == old(ToDo())
    {
    }

    /** After LOGINRET and before the first chunk the frames of the file remain. */
    lemma NothingRead()
      requires Valid() && started && !sending && !ended && mHasReadLen == 0 && buf.dataLen == 0
      ensures Future() == Stream(file, chunk, 0)
    {
      assert V().Pending() == [];
    }

    /** Between two segments the frames from the next chunk on remain. */
    lemma IdleFuture()
      requires Valid() && started && !sending && !ended && buf.totalLen == 0
      ensures Future() == Stream(file, chunk, mHasReadLen)
    {
      assert V().Pending() == [];
    }

    lemma NoFuture()
      requires Valid() && ended && !sending
      ensures Future() == []
    {
    }

    constructor (file: seq<Byte>, chunk: int)
      requires Sendable(file, chunk)
      ensures Valid() && !started && !ended && this.file == file && this.chunk == chunk
      ensures Future() == Whole(file, chunk) && fresh(buf) && fresh(buf.cmmd) && buf.data == null
    {
      this.file, this.chunk := file, chunk;
      buf := new ProcBuffer();
      mFileLen, mHasReadLen, mFrameCount, position := 0, 0, 0, 0;
      sending, len, leftLen, started := false, 0, 0, false;
      ended, calls := false, 0;
    }

    /** tcpSendData enters sendEx. */
    method TcpSendData()
      requires !sending && buf.totalLen > 0 && buf.hasProcLen == 0
      modifies this`sending, this`len, this`leftLen
      ensures sending && len == leftLen == buf.totalLen
    {
      len := buf.totalLen - buf.hasProcLen;
      leftLen := len;
      sending := true;
    }

    method PutHead(head: seq<Byte>)
      requires |head| <= buf.cmmd.Length
      modifies buf.cmmd
      ensures buf.cmmd[..|head|] == head
    {
      Copy(buf.cmmd, 0, head);
      assert buf.cmmd[..][..|head|] == head;
    }

    /** setFetchFile: the answer with the file length. */
    method SetFetchFile()
      requires Valid() && !started
      modifies this, buf, buf.cmmd
      ensures Valid() && started && !ended && sending && Future() == old(Future()) && buf.data == old(buf.data)
      ensures mHasReadLen == 0 && buf.dataLen == 0 && ToDo() < old(ToDo())
    {
      mFileLen := |file|;
      var head := Header(LoginRet, LoginRetSize) + LoginBody(mFileLen);
      PutHead(head);
      buf.totalLen := NetCmdSize + LoginRetSize;
      buf.bProcCmmd := true;
      started := true;
      calls := 0;
      TcpSendData();
      V().Loaded(LoginFrame(file));
    }

    /** writeBuffer reads the next chunk and puts a FILES frame into the buffer. */
    method LoadChunk()
      requires Valid() && started && !sending && buf.totalLen == 0 && !ended && mHasReadLen < mFileLen
      modifies this`mHasReadLen, this`mFrameCount, this`position, buf`totalLen, buf`bProcCmmd, buf`dataLen, buf`data,
               buf`memLen,
               buf.cmmd, buf.data
      ensures old(buf.data) != null ==> buf.data == old(buf.data)
      ensures old(buf.data) == null ==> fresh(buf.data)
      ensures Loaded(old(mHasReadLen)) && mFrameCount == old(mFrameCount) + 1
    {
      var iLeftLen := mFileLen - mHasReadLen;
      var iBuffLen := if iLeftLen > chunk then chunk else iLeftLen;
      buf.totalLen := NetCmdSize + FileGetSize;
      buf.bProcCmmd := true;
      FetchChunk(iBuffLen);
      PutHead(Header(Files, iBuffLen + FileGetSize) + FileGet(position, iBuffLen));
      CountChunk(iBuffLen);
      NextFrame(old(mHasReadLen), iBuffLen);
    }

    /** The parts of the frame that the buffer must hold. */
    lemma NextFrame(pos: int, n: int)
      requires Sendable(file, chunk) && 0 <= pos < |file| && n == Min(chunk, |file| - pos)
      ensures var f := FileFrame(file, chunk, pos);
        && f.cmd == Files && f.head == FileGet(pos, n) && f.content == file[pos..pos + n]
        && |f.head| + |f.content| == n + FileGetSize
    {
    }

    /** The memory is allocated for the first chunk, and every later one fits into it. */
    method FetchChunk(n: nat)
      requires buf.data != null ==> n <= buf.data.Length && buf.data != buf.cmmd
      requires 0 <= position && position + n <= |file|
      modifies buf`data, buf`memLen, buf.data
      ensures old(buf.data) != null ==> buf.data == old(buf.data) && buf.memLen == old(buf.memLen)
      ensures old(buf.data) == null ==> fresh(buf.data) && buf.data.Length == buf.memLen == n
      ensures buf.data != null && n <= buf.data.Length && buf.data[..n] == file[position..position + n]
    {
      buf.CreateMem(n);
      ReadChunk(n);
    }

    method CountChunk(n: int)
      modifies this`mHasReadLen, this`mFrameCount, this`position, buf`dataLen
      ensures buf.dataLen == n && position == old(position) + n && mHasReadLen == old(mHasReadLen) + n
      ensures mFrameCount == old(mFrameCount) + 1
    {
      buf.dataLen := n;
      position := position + n;
      mHasReadLen := mHasReadLen + buf.dataLen;
      mFrameCount := mFrameCount + 1;
    }

    /** The buffer holds the frame of the chunk at pos, and nothing of it has been sent. */
    ghost predicate Loaded(pos: int)
      reads this, buf, buf.cmmd, buf.data
    {
      && Sendable(file, chunk) && 0 <= pos < |file| && mFileLen == |file|
      && buf.cmmd.Length == CmdLen && buf.data != null && buf.data != buf.cmmd && buf.hasProcLen == 0
      && buf.data.Length == buf.memLen == Min(chunk, |file|)
      && buf.bProcCmmd && buf.totalLen == NetCmdSize + FileGetSize && position == mHasReadLen == pos + buf.dataLen
      && var f := FileFrame(file, chunk, pos);
      && buf.dataLen == |f.content| && buf.data[..buf.dataLen] == f.content
      && buf.cmmd[..buf.totalLen] == Header(f.cmd, |f.head| + |f.content|) + f.head
    }

    /** memset and fread, which returns what it is asked for. */
    method ReadChunk(n: nat)
      requires buf.data != null && n <= buf.data.Length && 0 <= position && position + n <= |file|
      modifies buf.data
      ensures buf.data[..n] == file[position..position + n]
    {
      Copy(buf.data, 0, Zeros(n));
      Copy(buf.data, 0, file[position..position + n]);
      assert buf.data[..][..n] == file[position..position + n];
    }

    /** The frame of the next chunk in place of the chunk. */
    lemma LoadedFuture(pos: int)
      requires Loaded(pos) && started && !ended && sending && len == leftLen == buf.totalLen
      requires calls + 2 * |Tiles(file, chunk, pos)| == 2 * |Tiles(file, chunk, 0)| + 1
      ensures Valid() && Future() == Stream(file, chunk, pos)
    {
      V().Loaded(FileFrame(file, chunk, pos));
      assert |Tiles(file, chunk, pos)| == 1 + |Tiles(file, chunk, mHasReadLen)|;
    }

    /** writeBuffer at the end of the file: pushSendCmd(MODULE_MSG_DATAEND). */
    method LoadEnd()
      requires Valid() && started && !sending && buf.totalLen == 0 && !ended && mHasReadLen >= mFileLen
      modifies this`ended, this`calls, this`sending, this`len, this`leftLen, buf`totalLen, buf`bProcCmmd, buf.cmmd
      ensures Valid() && sending && ended && calls == old(calls) + 1 && Future() == old(Future())
    {
      PutHead(Header(DataEnd, 0));
      buf.totalLen := NetCmdSize;
      buf.bProcCmmd := true;
      TcpSendData();
      ended, calls := true, calls + 1;
      V().Loaded(EndFrame);
    }

    /** writeBuffer: the next segment goes out; `exit` is the result OWN_SOCK_EXIT, after which
        writeBuffer is not called again. */
    method WriteBuffer() returns (exit: bool)
      requires Valid() && started && !sending && !ended
      modifies this, buf, buf.cmmd, buf.data
      ensures Valid() && started && sending && Future() == old(Future()) && calls == old(calls) + 1
      ensures exit == ended && ToDo() < old(ToDo())
      ensures ended <==> calls == 2 * |Tiles(file, chunk, 0)| + 1
      ensures old(buf.data) != null ==> buf.data == old(buf.data)
      ensures old(buf.data) == null ==> buf.data == null || fresh(buf.data)
    {
      exit := false;
      if buf.totalLen == 0 {
        if mHasReadLen < mFileLen {
          WriteChunk();
        } else {
          LoadEnd();
          exit := true;
        }
      } else {
        WriteData();
      }
    }

    method WriteChunk()
      requires Valid() && started && !sending && buf.totalLen == 0 && !ended && mHasReadLen < mFileLen
      modifies this, buf, buf.cmmd, buf.data
      ensures Valid() && started && sending && !ended && Future() == old(Future()) && calls == old(calls) + 1
      ensures old(buf.data) != null ==> buf.data == old(buf.data)
      ensures old(buf.data) == null ==> fresh(buf.data)
    {
      ghost var pos := mHasReadLen;
      IdleFuture();
      LoadChunk();
      TcpSendData();
      calls := calls + 1;
      LoadedFuture(pos);
    }

    method WriteData()
      requires Valid() && started && !sending && buf.totalLen > 0 && !ended
      modifies this`sending, this`len, this`leftLen, this`calls
      ensures Valid() && sending && Future() == old(Future()) && calls == old(calls) + 1
    {
      TcpSendData();
      calls := calls + 1;
    }

    /** One send() of the loop in sendEx, which takes n bytes; when the last byte has gone,
        tcpSendData turns to the data or resets the buffer. */
    method SendSome(n: nat) returns (bytes: seq<Byte>, ghost cells: seq<Cell>)
      requires Valid() && started && sending && n <= leftLen
      modifies this`sending, this`leftLen, buf, buf.cmmd
      ensures Valid() && |bytes| == n && Bytes(cells) == bytes && old(Future()) == cells + Future()
      ensures buf.data == old(buf.data) && (n < old(leftLen) <==> sending)
      ensures ToDo() <= old(ToDo()) - 3 * n + (if sending then 0 else 1)
      ensures ended == old(ended) && mHasReadLen == old(mHasReadLen) && (old(buf.dataLen) == 0 ==> buf.dataLen == 0)
    {
      bytes := NextBytes(n);
      cells := Tag(bytes, !buf.bProcCmmd);
      MoveOn(n);
    }

    method MoveOn(n: nat)
      requires Valid() && started && sending && n <= leftLen
      modifies this`sending, this`leftLen, buf, buf.cmmd
      ensures Valid() && old(Future()) == old(Tag(V().Next(n), !buf.bProcCmmd)) + Future()
      ensures buf.data == old(buf.data) && (n < old(leftLen) <==> sending)
      ensures ended == old(ended) && mHasReadLen == old(mHasReadLen) && (old(buf.dataLen) == 0 ==> buf.dataLen == 0)
    {
      ghost var v := V();
      Sent(n);
      v.SendingSplits(file, chunk, n, buf.cmmd[..]);
      assert V() == v.After(n).(cmmd := buf.cmmd[..]);
    }

    method NextBytes(n: nat) returns (bytes: seq<Byte>)
      requires Valid() && sending && n <= leftLen
      ensures bytes == V().Next(n) && |bytes| == n
    {
      var k := buf.hasProcLen + len - leftLen;
      bytes := if buf.bProcCmmd then buf.cmmd[k..k + n] else buf.data[k..k + n];
    }

    method Sent(n: nat)
      requires Valid() && sending && n <= leftLen
      modifies this`sending, this`leftLen, buf, buf.cmmd
      ensures V() == old(V()).After(n).(cmmd := buf.cmmd[..])
      ensures V().total > 0 ==> buf.cmmd[..] == old(buf.cmmd[..])
      ensures buf.data == old(buf.data) && buf.memLen == old(buf.memLen) && buf.hasProcLen == 0 &&
        leftLen == old(leftLen) - n
      ensures n < old(leftLen) <==> sending
      ensures old(buf.dataLen) == 0 ==> buf.dataLen == 0
    {
      leftLen := leftLen - n;
      if leftLen == 0 {
        sending := false;
        buf.hasProcLen := buf.hasProcLen + len;
        assert buf.hasProcLen == buf.totalLen;
        if buf.bProcCmmd {
          buf.SetToVideo();
        } else {
          buf.Reset();
        }
      }
    }
  }

  // ---- the receiver ----

  class Receiver {
    ghost const file: seq<Byte>    // the file that the sender has
    ghost const chunk: int
    const buf: ProcBuffer
    var written: seq<Byte>         // the file that fwrite has written
    var mTotalLen: int
    var mRecvDataLen: int
    var asked: bool                // the command to start has been sent
    var ended: bool                // DATAEND has been read
    ghost var loggedIn: bool
    ghost var got: seq<Cell>       // the part of a frame in the buffer

    /** The frame that is being received. */
    ghost function Current(): (f: Frame)
      requires Sendable(file, chunk)
      reads this
      ensures FrameOk(f)
    {
      if !loggedIn then LoginFrame(file)
      else if |written| < |file| then FileFrame(file, chunk, |written|)
      else EndFrame
    }

    /** What follows that frame. */
    ghost function Following(): seq<Cell>
      requires Sendable(file, chunk)
      reads this
    {
      if !loggedIn then Stream(file, chunk, 0)
      else if |written| < |file| then Stream(file, chunk, |written| + |Current().content|)
      else []
    }

    /** What the receiver has not taken in completely. */
    ghost function Expected(): seq<Cell>
      requires Sendable(file, chunk)
      reads this
    {
      if ended then [] else if !loggedIn then Whole(file, chunk)
      else if |written| <= |file| then Stream(file, chunk, |written|) else []
    }

    lemma ExpectedPayload()
      requires Valid()
      ensures Payload(Expected()) == file[|written|..]
    {
      if !ended {
        StreamPayload(file, chunk, |written|);
        PayloadAppend(FrameCells(LoginFrame(file)), Stream(file, chunk, 0));
        FramePayload(LoginFrame(file));
      }
    }

    /** The receiver is untouched. */
    twostate lemma Kept()
      requires old(Valid()) && unchanged(this) && unchanged(buf) && unchanged(buf.data)
      ensures Valid() && Expected() == old(Expected())
    {
    }

    /** Until the end the receiver waits for more. */
    lemma MoreToCome()
      requires Valid()
      ensures !ended ==> |got| < |Expected()|
    {
      if !ended { ExpectedSplits(); }
    }

    /** Before LOGINRET has been read more than the frames of the file is to come. */
    lemma MoreThanStream()
      requires Valid() && !ended
      ensures !loggedIn ==> |Expected()| - |got| > |Stream(file, chunk, 0)|
    {
      ExpectedSplits();
    }

    lemma ExpectedSplits()
      requires Sendable(file, chunk) && !ended && Written()
      ensures Expected() == FrameCells(Current()) + Following()
    {
    }

    /** What recv is asked for. */
    function Requested(): int
      reads this, buf
    {
      if buf.bProcCmmd then NetCmdSize - buf.hasProcLen else buf.totalLen - buf.hasProcLen
    }

    /** The received bytes of the frame stand at the front of the memory. */
    ghost predicate Holds()
      requires buf.data != null
      reads this, buf, buf.data
    {
      |got| <= buf.data.Length && Bytes(got) == buf.data[..|got|]
    }

    ghost predicate Written()
      reads this
    {
      && |written| <= |file| && written == file[..|written|]
      && mRecvDataLen == |written|
      && (if loggedIn then asked && mTotalLen == |file| else written == [])
    }

    ghost predicate Valid()
      reads this, buf, buf.data
    {
      && Sendable(file, chunk) && Written()
      && buf.data != null && buf.data != buf.cmmd && NetCmdSize <= buf.data.Length
      && Holds()
      && (if ended then
            got == [] && !buf.bProcCmmd && buf.totalLen == buf.hasProcLen == 0 && loggedIn && |written| == |file|
          else
            && |got| < |FrameCells(Current())| && got == FrameCells(Current())[..|got|]
            && (if buf.bProcCmmd then 0 <= buf.hasProcLen == |got| < NetCmdSize
                else
                  && 0 <= buf.hasProcLen == |got| - NetCmdSize
                  && buf.totalLen == |Current().head| + |Current().content|))
    }

    constructor (ghost file: seq<Byte>, ghost chunk: int, capacity: nat)
      requires Sendable(file, chunk) && NetCmdSize <= capacity
      ensures Valid() && !ended && !asked && written == [] && buf.data.Length == capacity && this.file == file &&
        this.chunk == chunk
      ensures got == [] && Expected() == Whole(file, chunk) && got + Whole(file, chunk) == Expected()
      ensures !loggedIn && buf.bProcCmmd
      ensures fresh(buf) && fresh(buf.cmmd) && fresh(buf.data)
    {
      this.file, this.chunk := file, chunk;
      buf := new ProcBuffer();
      written, mTotalLen, mRecvDataLen, asked, ended := [], 0, 0, false, false;
      loggedIn, got := false, [];
      new;
      buf.Reset();
      buf.CreateMem(capacity);
      assert [] + Whole(file, chunk) == Whole(file, chunk);
    }

    /** recv puts bytes into the memory, which has room for them. */
    method Take(k: nat, bytes: seq<Byte>, ghost cells: seq<Cell>)
      requires buf.data != null && Holds() && k == |got| && k + |bytes| <= buf.data.Length && Bytes(cells) == bytes
      modifies buf.data, this`got
      ensures got == old(got) + cells && Holds()
    {
      ghost var d := buf.data[..];
      Copy(buf.data, k, bytes);
      BytesAppend(got, cells);
      got := got + cells;
      assert buf.data[..][..k + |bytes|] == d[..k] + bytes;
    }

    /** The bytes in the memory are those of the frame. */
    lemma HeldBytes(n: nat)
      requires Sendable(file, chunk) && buf.data != null && Holds()
      requires |got| <= |FrameCells(Current())| && got == FrameCells(Current())[..|got|] && n <= |got|
      ensures n <= |FrameBytes(Current())| && buf.data[..n] == FrameBytes(Current())[..n]
    {
      FrameCellsBytes(Current());
      assert Bytes(FrameCells(Current())[..|got|]) == FrameBytes(Current())[..|got|];
      assert buf.data[..n] == buf.data[..|got|][..n];
      assert FrameBytes(Current())[..|got|][..n] == FrameBytes(Current())[..n];
    }

    lemma HeldHeader()
      requires Sendable(file, chunk) && buf.data != null && Holds()
      requires NetCmdSize <= |got| <= |FrameCells(Current())| && got == FrameCells(Current())[..|got|]
      ensures |got| <= buf.data.Length
      ensures FromLe32(buf.data[4..8]) == Current().cmd
      ensures FromLe32(buf.data[12..16]) == |Current().head| + |Current().content|
    {
      HeldBytes(NetCmdSize);
      FrameParts(Current());
      ReadHeader(buf.data, Current().cmd, |Current().head| + |Current().content|);
    }

    static lemma ReadHeader(d: array<Byte>, cmd: int, length: int)
      requires 0 <= cmd < 0x1_0000_0000 && 0 <= length < 0x1_0000_0000
      requires d.Length >= NetCmdSize && d[..NetCmdSize] == Header(cmd, length)
      ensures FromLe32(d[4..8]) == cmd && FromLe32(d[12..16]) == length
    {
      assert d[..][..NetCmdSize] == d[..NetCmdSize];
      HeaderRead(d[..], cmd, length);
      assert d[..][4..8] == d[4..8] && d[..][12..16] == d[12..16];
    }

    lemma HeldBody()
      requires Sendable(file, chunk) && buf.data != null && Holds() && got == FrameCells(Current())
      ensures var f := Current();
        && |got| == NetCmdSize + |f.head| + |f.content| <= buf.data.Length
        && buf.data[NetCmdSize..NetCmdSize + |f.head|] == f.head
        && buf.data[NetCmdSize + |f.head|..|got|] == f.content
    {
      HeldBytes(|got|);
      var f := Current();
      var b := FrameBytes(f);
      assert b[NetCmdSize..NetCmdSize + |f.head|] == f.head;
      assert b[NetCmdSize + |f.head|..] == f.content;
      assert buf.data[NetCmdSize..NetCmdSize + |f.head|] == buf.data[..|got|][NetCmdSize..NetCmdSize + |f.head|];
      assert buf.data[NetCmdSize + |f.head|..|got|] == buf.data[..|got|][NetCmdSize + |f.head|..];
    }

    /** readBuffer has the whole header. */
    method HeadDone(ghost rest: seq<Cell>)
      requires Sendable(file, chunk) && Written() && !ended && buf.data != null && buf.data != buf.cmmd
      requires Holds() && |got| == NetCmdSize == buf.hasProcLen && buf.bProcCmmd
      requires got == FrameCells(Current())[..|got|] && got + rest == Expected()
      modifies this`ended, this`got, buf`totalLen, buf`bProcCmmd, buf`hasProcLen
      ensures Valid() && got + rest == Expected()
      ensures if ended then old(Current()) == EndFrame else !buf.bProcCmmd
    {
      HeldHeader();
      ExpectedSplits();
      buf.totalLen := FromLe32(buf.data[12..16]);
      buf.bProcCmmd := false;
      buf.hasProcLen := 0;
      if buf.totalLen <= 0 {
        assert Current() == EndFrame;
        if FromLe32(buf.data[4..8]) == DataEnd {
          ended := true;
        }
        assert rest == (got + rest)[|got|..];
        got := [];
      }
    }

    /** recvPackData has the whole frame. */
    method PackDone(ghost rest: seq<Cell>)
      requires Complete() && got + rest == Expected()
      modifies this`written, this`mTotalLen, this`mRecvDataLen, this`asked, this`loggedIn, this`got, buf, buf.cmmd
      ensures Valid() && got + rest == Expected() && |old(written)| <= |written|
      ensures buf.data == old(buf.data) && loggedIn && buf.bProcCmmd && got == []
      ensures old(!loggedIn) ==> written == old(written)
    {
      RestFollows(rest);
      UsePack();
      StartFrame();
      NothingBefore(rest);
    }

    lemma RestFollows(rest: seq<Cell>)
      requires Sendable(file, chunk) && !ended && Written() && got == FrameCells(Current()) && got + rest == Expected()
      ensures rest == Following()
    {
      ExpectedSplits();
      Cancelled(got, rest, Following());
    }

    static lemma NothingBefore(c: seq<Cell>)
      ensures [] + c == c
    {
    }

    static lemma Cancelled(a: seq<Cell>, b: seq<Cell>, c: seq<Cell>)
      requires a + b == a + c
      ensures b == c
    {
      assert b == (a + b)[|a|..] && c == (a + c)[|a|..];
    }

    /** mRecvBuffer.reset(): the next frame begins. */
    method StartFrame()
      requires Sendable(file, chunk) && Written() && !ended && buf.data != null && buf.data != buf.cmmd
      requires NetCmdSize <= buf.data.Length
      modifies this`got, buf, buf.cmmd
      ensures Valid() && got == [] && buf.bProcCmmd && Expected() == old(Expected()) && buf.data == old(buf.data)
    {
      got := [];
      buf.Reset();
    }

    /** The memory holds a whole frame, which is not DATAEND. */
    ghost predicate Complete()
      reads this, buf, buf.data
    {
      && Sendable(file, chunk) && Written() && !ended && buf.data != null && buf.data != buf.cmmd
      && Holds()
      && got == FrameCells(Current()) && |Current().head| + |Current().content| > 0
    }

    /** The chunk is written, or the file length noted and the command to start sent. */
    method UsePack()
      requires Complete()
      modifies this`written, this`mTotalLen, this`mRecvDataLen, this`asked, this`loggedIn
      ensures Written() && loggedIn && Expected() == old(Following()) && |old(written)| <= |written|
      ensures old(!loggedIn) ==> written == old(written)
    {
      HeldFields();
      var cmd := FromLe32(buf.data[4..8]);
      if cmd == Files {
        WriteFrame();
      } else if cmd == LoginRet {
        NoteLength();
      }
    }

    /** LOGINRET tells the file length, and the receiver asks for the file. */
    method NoteLength()
      requires Sendable(file, chunk) && Written() && !loggedIn && !ended && buf.data != null && buf.data.Length >= 32
      requires FromLe32(buf.data[28..32]) == |file|
      modifies this`mTotalLen, this`asked, this`loggedIn
      ensures Written() && loggedIn && Expected() == old(Following())
    {
      mTotalLen := FromLe32(buf.data[28..32]);
      asked := true;
      loggedIn := true;
    }

    /** The fields of a whole frame, where recvPackData looks for them. */
    lemma HeldFields()
      requires Complete()
      ensures 24 <= |got| <= buf.data.Length
      ensures FromLe32(buf.data[4..8]) == Current().cmd
      ensures !loggedIn ==> Current().cmd == LoginRet && |got| >= 32 && FromLe32(buf.data[28..32]) == |file|
      ensures loggedIn ==> Current().cmd == Files && HeldChunk()
    {
      HeldHeader();
      if loggedIn { HeldFileFrame(); } else { HeldLoginFrame(); }
    }

    lemma HeldFileFrame()
      requires Complete() && loggedIn
      ensures HeldChunk() && Current().cmd == Files
    {
      HeldBody();
      ReadFileGet(buf.data, |written|, Min(chunk, |file| - |written|));
    }

    static lemma ReadFileGet(d: array<Byte>, pos: int, length: int)
      requires 0 <= pos < 0x8000_0000 && 0 <= length < 0x8000_0000 && d.Length >= NetCmdSize + FileGetSize
      requires d[NetCmdSize..NetCmdSize + FileGetSize] == FileGet(pos, length)
      ensures FromLe32(d[20..24]) == length
    {
      assert d[..][NetCmdSize..NetCmdSize + FileGetSize] == d[NetCmdSize..NetCmdSize + FileGetSize];
      FileGetRead(d[..], pos, length);
      assert d[..][20..24] == d[20..24];
    }

    lemma HeldLoginFrame()
      requires Complete() && !loggedIn
      ensures 32 <= |got| <= buf.data.Length && FromLe32(buf.data[28..32]) == |file| && Current().cmd == LoginRet
    {
      HeldBody();
      LoginRead(buf.data[..], |file|);
      assert buf.data[28..32] == buf.data[..][28..32];
    }

    /** The next chunk of the file is in the memory. */
    ghost predicate HeldChunk()
      requires Sendable(file, chunk) && buf.data != null
      reads this, buf, buf.data
    {
      && |written| < |file|
      && var n := Min(chunk, |file| - |written|);
      && 24 + n <= buf.data.Length && FromLe32(buf.data[20..24]) == n
      && buf.data[24..24 + n] == file[|written|..|written| + n]
    }

    /** fwrite of the nLength bytes after FILE_GET. */
    method WriteFrame()
      requires Sendable(file, chunk) && Written() && loggedIn && buf.data != null && HeldChunk()
      modifies this`written, this`mRecvDataLen
      ensures Written() && |written| == |old(written)| + Min(chunk, |file| - |old(written)|)
    {
      var nLength := FromLe32(buf.data[20..24]);
      written := written + buf.data[24..24 + nLength];
      mRecvDataLen := mRecvDataLen + nLength;
    }

    /** One recv of readBuffer or recvPackData, which yields some of the requested bytes, within
        the memory. */
    method RecvSome(bytes: seq<Byte>, ghost cells: seq<Cell>, ghost rest: seq<Cell>)
      requires Valid() && !ended && 0 < |bytes| <= Requested() && Bytes(cells) == bytes
      requires |got| + |bytes| <= buf.data.Length
      requires got + cells + rest == Expected()
      modifies this, buf, buf.cmmd, buf.data
      ensures Valid() && got + rest == Expected() && |old(written)| <= |written|
      ensures buf.data == old(buf.data)
      ensures Turned(old(buf.bProcCmmd), |bytes| == old(Requested()), old(Current()))
      ensures old(!loggedIn) ==> written == old(written)
      ensures old(buf.bProcCmmd) ==> loggedIn == old(loggedIn) && written == old(written)
    {
      Room();
      ExpectedSplits();
      Within(got, cells, rest, FrameCells(Current()), Following());
      if buf.bProcCmmd {
        RecvHead(bytes, cells, rest);
      } else {
        RecvPackData(bytes, cells, rest);
      }
    }

    /** What the receiver turns to after a recv, of a header or of a body, that completes it. */
    ghost predicate Turned(header: bool, complete: bool, f: Frame)
      reads this, buf
    {
      complete ==>
        if header then (if ended then f == EndFrame else !buf.bProcCmmd)
        else loggedIn && !ended && buf.bProcCmmd && got == []
    }

    method RecvHead(bytes: seq<Byte>, ghost cells: seq<Cell>, ghost rest: seq<Cell>)
      requires Valid() && !ended && buf.bProcCmmd && 0 < |bytes| <= Requested() && Bytes(cells) == bytes
      requires got + cells + rest == Expected() && |got| + |cells| <= |FrameCells(Current())|
      requires |got| + |bytes| <= buf.data.Length
      requires got + cells == FrameCells(Current())[..|got| + |cells|]
      modifies this`ended, this`got, buf, buf.data
      ensures Valid() && got + rest == Expected()
      ensures buf.data == old(buf.data)
      ensures Turned(true, |bytes| == old(Requested()), old(Current()))
    {
      Take(buf.hasProcLen, bytes, cells);
      buf.hasProcLen := buf.hasProcLen + |bytes|;
      if buf.hasProcLen == NetCmdSize {
        HeadDone(rest);
      }
    }

    method RecvPackData(bytes: seq<Byte>, ghost cells: seq<Cell>, ghost rest: seq<Cell>)
      requires Valid() && !ended && !buf.bProcCmmd && 0 < |bytes| <= Requested() && Bytes(cells) == bytes
      requires got + cells + rest == Expected() && |got| + |cells| <= |FrameCells(Current())|
      requires |got| + |bytes| <= buf.data.Length
      requires got + cells == FrameCells(Current())[..|got| + |cells|]
      modifies this, buf, buf.cmmd, buf.data
      ensures Valid() && got + rest == Expected() && |old(written)| <= |written|
      ensures buf.data == old(buf.data)
      ensures Turned(false, |bytes| == old(Requested()), old(Current()))
      ensures old(!loggedIn) ==> written == old(written)
    {
      Take(NetCmdSize + buf.hasProcLen, bytes, cells);
      buf.hasProcLen := buf.hasProcLen + |bytes|;
      if buf.hasProcLen == buf.totalLen {
        PackDone(rest);
      }
    }

    /** recv is asked for something, and no more than the rest of the frame. */
    lemma Room()
      requires Valid() && !ended
      ensures Requested() > 0 && |got| + Requested() <= |FrameCells(Current())|
    {
    }

    /** The end of the memory that the next recv may write. */
    function Reach(): int
      reads this, buf
    {
      (if buf.bProcCmmd then 0 else NetCmdSize) + buf.hasProcLen + Requested()
    }

    /** If every frame fits, no recv is asked for bytes beyond the memory. */
    lemma RoomForAll()
      requires Valid() && !ended && TakesAll(buf.data.Length, file, chunk)
      ensures Reach() == |got| + Requested() <= buf.data.Length
    {
      Room();
    }
  }

  /** And only then: if some frame does not fit, the receiver comes to ask for bytes beyond its
      memory, after the header of LOGINRET or of the first chunk. */
  method Overrun(file: seq<Byte>, chunk: int, capacity: nat) returns (r: Receiver)
    requires Sendable(file, chunk) && NetCmdSize <= capacity && !TakesAll(capacity, file, chunk)
    ensures r.Valid() && !r.ended && r.file == file && r.chunk == chunk && r.buf.data.Length == capacity
    ensures r.Reach() > capacity
  {
    CapacityNeeded(capacity, file, chunk);
    if capacity < NetCmdSize + LoginRetSize {
      r := new Receiver(file, chunk, capacity);
      var rest := ReadOn(r, Whole(file, chunk));
    } else {
      var rest;
      r, rest := ReadLogin(file, chunk, capacity);
      OverrunFirst(r, rest);
    }
  }

  /** LOGINRET, which fits. */
  method ReadLogin(file: seq<Byte>, chunk: int, capacity: nat) returns (r: Receiver, rest: seq<Cell>)
    requires Sendable(file, chunk) && NetCmdSize + LoginRetSize <= capacity
    ensures fresh(r) && fresh(r.buf) && fresh(r.buf.cmmd) && fresh(r.buf.data)
    ensures r.Valid() && !r.ended && r.file == file && r.chunk == chunk && r.buf.data.Length == capacity
    ensures r.loggedIn && r.written == [] && r.buf.bProcCmmd && r.got == [] && r.got + rest == r.Expected()
  {
    r := new Receiver(file, chunk, capacity);
    rest := ReadFrame(r, Whole(file, chunk));
  }

  method ReadFrame(r: Receiver, stream: seq<Cell>) returns (rest: seq<Cell>)
    requires r.Valid() && !r.ended && !r.loggedIn && r.buf.bProcCmmd && r.got == [] && r.got + stream == r.Expected()
    requires NetCmdSize + LoginRetSize <= r.buf.data.Length
    modifies r, r.buf, r.buf.cmmd, r.buf.data
    ensures r.Valid() && !r.ended && r.buf.data == old(r.buf.data) && r.written == []
    ensures r.loggedIn && r.buf.bProcCmmd && r.got == [] && r.got + rest == r.Expected()
  {
    rest := ReadOn(r, stream);
    rest := ReadOn(r, rest);
  }

  method OverrunFirst(r: Receiver, stream: seq<Cell>)
    requires r.Valid() && !r.ended && r.got + stream == r.Expected()
    requires r.loggedIn && r.written == [] && r.file != [] && r.buf.bProcCmmd && r.got == []
    requires r.buf.data.Length < NetCmdSize + FileGetSize + Min(r.chunk, |r.file|)
    modifies r, r.buf, r.buf.cmmd, r.buf.data
    ensures r.Valid() && !r.ended && r.buf.data == old(r.buf.data) && r.Reach() > r.buf.data.Length
  {
    var rest := ReadOn(r, stream);
  }

  /** The receiver gets all that it asks for. */
  method ReadOn(r: Receiver, stream: seq<Cell>) returns (rest: seq<Cell>)
    requires r.Valid() && !r.ended && r.got + stream == r.Expected() && r.Reach() <= r.buf.data.Length
    modifies r, r.buf, r.buf.cmmd, r.buf.data
    ensures r.Valid() && r.got + rest == r.Expected() && r.buf.data == old(r.buf.data)
    ensures r.Turned(old(r.buf.bProcCmmd), true, old(r.Current()))
    ensures old(!r.loggedIn) ==> r.written == old(r.written)
    ensures old(r.buf.bProcCmmd) ==> r.loggedIn == old(r.loggedIn) && r.written == old(r.written)
  {
    r.Room();
    r.ExpectedSplits();
    var k := r.Requested();
    assert |r.got + stream| == |r.Expected()|;
    rest := stream[k..];
    assert stream == stream[..k] + rest;
    Transfer.Grouped(r.got, stream[..k], rest);
    r.RecvSome(Bytes(stream[..k]), stream[..k], rest);
  }

  // ---- both ends and the connection ----

  datatype Step = Fetch | Start | Write | Send(n: nat) | Recv(n: nat)

  class Transfer {
    const sender: Sender
    const receiver: Receiver
    var wire: seq<Byte>            // bytes on their way to the receiver
    var started: bool              // the sender has got the command to start
    var armed: bool                // the write event of the sender's session
    ghost var cells: seq<Cell>

    ghost predicate Apart()
      reads this, sender, sender.buf, receiver, receiver.buf
    {
      && sender.buf != receiver.buf && sender.buf.cmmd != receiver.buf.cmmd && receiver.buf.data != null
      && sender.buf.data != receiver.buf.cmmd && receiver.buf.data != sender.buf.cmmd &&
         sender.buf.data != receiver.buf.data
      && sender.buf.data != sender.buf.cmmd && receiver.buf.data != receiver.buf.cmmd
    }

    ghost predicate Valid()
      reads this, sender, sender.buf, sender.buf.cmmd, sender.buf.data, receiver, receiver.buf, receiver.buf.data
    {
      && Ends() && Bytes(cells) == wire
      && receiver.got + cells + sender.Future() == receiver.Expected()
    }

    ghost predicate Ends()
      reads this, sender, sender.buf, sender.buf.cmmd, sender.buf.data, receiver, receiver.buf, receiver.buf.data
    {
      Both() && Flags()
    }

    ghost predicate Both()
      reads this, sender, sender.buf, sender.buf.cmmd, sender.buf.data, receiver, receiver.buf, receiver.buf.data
    {
      && Apart() && sender.Valid() && receiver.Valid()
      && sender.file == receiver.file && sender.chunk == receiver.chunk
      && TakesAll(receiver.buf.data.Length, receiver.file, receiver.chunk)
    }

    ghost predicate Flags()
      reads this, sender, sender.buf, receiver
    {
      && (armed ==> started && !sender.ended) && (started ==> sender.started)
      && (receiver.asked ==> sender.started) && (sender.ended ==> started) && (started ==> armed || sender.ended)
      && (!started ==> sender.mHasReadLen == 0 && sender.buf.dataLen == 0)
    }

    constructor (file: seq<Byte>, chunk: int, capacity: nat)
      requires Sendable(file, chunk) && TakesAll(capacity, file, chunk)
      ensures Valid() && sender.file == file && sender.chunk == chunk && receiver.written == [] && wire == []
    {
      var s := new Sender(file, chunk);
      label Made:
      var r := new Receiver(file, chunk, capacity);
      s.Kept@Made();
      Grouped([], [], s.Future());
      sender, receiver := s, r;
      wire, started, armed, cells := [], false, false, [];
    }

    /** What is to be done: by the sender, by the receiver for every byte on the wire, and the
        start. */
    ghost function Measure(): nat
      requires sender.V().Ok(sender.file, sender.chunk)
      reads this, sender, sender.buf, sender.buf.cmmd, sender.buf.data
    {
      sender.ToDo() + |wire| + (if started then 0 else 1)
    }

    /** The step changes something. */
    predicate Possible(s: Step)
      reads this, sender, receiver
    {
      match s
      case Fetch => !sender.started
      case Start => receiver.asked && !started
      case Write => armed && !sender.sending
      case Send(n) => sender.started && sender.sending && n > 0
      case Recv(n) => !receiver.ended && n > 0 && wire != []
    }

    /** One step of either end. What is not possible in a state does nothing. */
    method Happen(s: Step)
      requires Valid()
      modifies this, sender, sender.buf, sender.buf.cmmd, sender.buf.data, receiver, receiver.buf, receiver.buf.cmmd,
               receiver.buf.data
      ensures Valid() && |old(receiver.written)| <= |receiver.written|
      ensures old(sender.buf.data) != null ==> sender.buf.data == old(sender.buf.data)
      ensures old(sender.buf.data) == null ==> sender.buf.data == null || fresh(sender.buf.data)
      ensures receiver.buf.data == old(receiver.buf.data)
      ensures old(Possible(s)) ==> Measure() < old(Measure())
    {
      if s.Recv? {
        DoRecv(s.n);
      } else {
        SenderStep(s);
      }
    }

    method SenderStep(s: Step)
      requires Valid() && !s.Recv?
      modifies this, sender, sender.buf, sender.buf.cmmd, sender.buf.data
      ensures Valid()
      ensures old(sender.buf.data) != null ==> sender.buf.data == old(sender.buf.data)
      ensures old(sender.buf.data) == null ==> sender.buf.data == null || fresh(sender.buf.data)
      ensures old(Possible(s)) ==> Measure() < old(Measure())
    {
      match s
      case Fetch => DoFetch();
      case Start => DoStart();
      case Write => DoWrite();
      case Send(n) => DoSend(n);
    }

    method DoFetch()
      requires Valid()
      modifies sender, sender.buf, sender.buf.cmmd
      ensures Valid() && sender.buf.data == old(sender.buf.data)
      ensures old(Possible(Fetch)) ==> Measure() < old(Measure())
    {
      if !sender.started {
        sender.SetFetchFile();
        receiver.Kept();
      }
    }

    /** The command that the receiver has sent arms the write event, once. */
    method DoStart()
      requires Valid()
      modifies this`started, this`armed
      ensures Valid()
      ensures old(Possible(Start)) ==> Measure() < old(Measure())
    {
      if receiver.asked && !started {
        started, armed := true, true;
        sender.Kept();
        receiver.Kept();
      }
    }

    method DoWrite()
      requires Valid()
      modifies this`armed, this`wire, this`cells, sender, sender.buf, sender.buf.cmmd, sender.buf.data
      ensures Valid()
      ensures old(sender.buf.data) != null ==> sender.buf.data == old(sender.buf.data)
      ensures old(sender.buf.data) == null ==> sender.buf.data == null || fresh(sender.buf.data)
      ensures old(Possible(Write)) ==> Measure() < old(Measure())
    {
      if armed && !sender.sending {
        WriteUp();
      }
    }

    method WriteUp()
      requires Valid() && armed && !sender.sending
      modifies this`armed, this`wire, this`cells, sender, sender.buf, sender.buf.cmmd, sender.buf.data
      ensures Valid() && Measure() < old(Measure())
      ensures old(sender.buf.data) != null ==> sender.buf.data == old(sender.buf.data)
      ensures old(sender.buf.data) == null ==> sender.buf.data == null || fresh(sender.buf.data)
    {
      WriteNext();
      SetWire(wire, cells);
    }

    /** onWrite arms the event again unless the result is OWN_SOCK_EXIT. */
    method WriteNext()
      requires Ends() && armed && !sender.sending
      modifies this`armed, sender, sender.buf, sender.buf.cmmd, sender.buf.data
      ensures Ends()
      ensures sender.Future() == old(sender.Future()) && receiver.Expected() == old(receiver.Expected())
      ensures old(sender.buf.data) != null ==> sender.buf.data == old(sender.buf.data)
      ensures old(sender.buf.data) == null ==> sender.buf.data == null || fresh(sender.buf.data)
      ensures sender.ToDo() < old(sender.ToDo())
    {
      var exit := WriteSegment();
      SetArmed(!exit);
    }

    method SetArmed(b: bool)
      requires Both()
      modifies this`armed
      ensures Both() && armed == b && sender.Future() == old(sender.Future()) && sender.ToDo() == old(sender.ToDo())
      ensures receiver.Expected() == old(receiver.Expected())
    {
      armed := b;
      sender.Kept();
      receiver.Kept();
    }

    method WriteSegment() returns (exit: bool)
      requires Both() && sender.started && !sender.sending && !sender.ended
      modifies sender, sender.buf, sender.buf.cmmd, sender.buf.data
      ensures Both() && sender.started && exit == sender.ended
      ensures sender.Future() == old(sender.Future()) && receiver.Expected() == old(receiver.Expected())
      ensures old(sender.buf.data) != null ==> sender.buf.data == old(sender.buf.data)
      ensures old(sender.buf.data) == null ==> sender.buf.data == null || fresh(sender.buf.data)
      ensures sender.ToDo() < old(sender.ToDo())
    {
      exit := sender.WriteBuffer();
      receiver.Kept();
    }

    method SetWire(w: seq<Byte>, ghost c: seq<Cell>)
      requires Ends() && Bytes(c) == w && receiver.got + c + sender.Future() == receiver.Expected()
      modifies this`wire, this`cells
      ensures Valid()
      ensures Measure() == old(Measure()) - old(|wire|) + |w|
    {
      wire, cells := w, c;
      sender.Kept();
      receiver.Kept();
    }

    method DoSend(n: nat)
      requires Valid()
      modifies this`wire, this`cells, sender, sender.buf, sender.buf.cmmd
      ensures Valid() && sender.buf.data == old(sender.buf.data)
      ensures old(Possible(Send(n))) ==> Measure() < old(Measure())
    {
      if sender.started && sender.sending && n > 0 {
        SendUpTo(if n < sender.leftLen then n else sender.leftLen);
      }
    }

    /** n bytes go from the sender to the wire. */
    method SendUpTo(n: nat)
      requires Valid() && sender.started && sender.sending && 0 < n <= sender.leftLen
      modifies this`wire, this`cells, sender, sender.buf, sender.buf.cmmd
      ensures Valid() && sender.buf.data == old(sender.buf.data) && Measure() < old(Measure())
    {
      var bytes;
      ghost var c;
      bytes, c := PassOn(n);
      Joined(receiver.got, cells, c, sender.Future());
      BytesAppend(cells, c);
      SetWire(wire + bytes, cells + c);
    }

    method PassOn(n: nat) returns (bytes: seq<Byte>, ghost c: seq<Cell>)
      requires Ends() && sender.started && sender.sending && n <= sender.leftLen
      modifies sender, sender.buf, sender.buf.cmmd
      ensures Ends() && sender.buf.data == old(sender.buf.data)
      ensures old(sender.Future()) == c + sender.Future() && Bytes(c) == bytes &&
        receiver.Expected() == old(receiver.Expected())
      ensures |bytes| == n && sender.ToDo() <= old(sender.ToDo()) - 3 * n + 1
      ensures n == 0 ==> sender.ToDo() == old(sender.ToDo())
    {
      bytes, c := sender.SendSome(n);
      receiver.Kept();
    }

    method TakeIn(bytes: seq<Byte>, ghost c: seq<Cell>, ghost rest: seq<Cell>)
      requires Ends() && !receiver.ended && 0 < |bytes| <= receiver.Requested() && Bytes(c) == bytes
      requires receiver.got + c + (rest + sender.Future()) == receiver.Expected()
      modifies receiver, receiver.buf, receiver.buf.cmmd, receiver.buf.data
      ensures Ends() && receiver.buf.data == old(receiver.buf.data) && |old(receiver.written)| <= |receiver.written|
      ensures receiver.got + (rest + sender.Future()) == receiver.Expected() && sender.Future() == old(sender.Future())
      ensures sender.ToDo() == old(sender.ToDo())
    {
      receiver.RoomForAll();
      receiver.RecvSome(bytes, c, rest + sender.Future());
      sender.Kept();
    }

    method DoRecv(n: nat)
      requires Valid()
      modifies this`wire, this`cells, receiver, receiver.buf, receiver.buf.cmmd, receiver.buf.data
      ensures Valid() && receiver.buf.data == old(receiver.buf.data) && |old(receiver.written)| <= |receiver.written|
      ensures old(Possible(Recv(n))) ==> Measure() < old(Measure())
    {
      if !receiver.ended { receiver.Room(); }
      var k := receiver.Requested();
      k := if |wire| < k then |wire| else k;
      k := if n < k then n else k;
      if !receiver.ended && k > 0 {
        RecvUpTo(k);
      }
    }

    /** k bytes go from the wire to the receiver. */
    method RecvUpTo(k: nat)
      requires Valid() && !receiver.ended && 0 < k <= |wire| && k <= receiver.Requested()
      modifies this`wire, this`cells, receiver, receiver.buf, receiver.buf.cmmd, receiver.buf.data
      ensures Valid() && receiver.buf.data == old(receiver.buf.data) && |old(receiver.written)| <= |receiver.written|
      ensures Measure() < old(Measure())
    {
      Halves(k);
      TakeIn(wire[..k], cells[..k], cells[k..]);
      Grouped(receiver.got, cells[k..], sender.Future());
      SetWire(wire[k..], cells[k..]);
    }

    lemma Halves(k: nat)
      requires Valid() && k <= |wire|
      ensures |cells| == |wire| && Bytes(cells[..k]) == wire[..k] && Bytes(cells[k..]) == wire[k..]
      ensures receiver.got + cells[..k] + (cells[k..] + sender.Future()) == receiver.Expected()
    {
      Taken(receiver.got, cells, k, sender.Future());
      BytesHalves(cells, k);
    }

    static lemma BytesHalves(c: seq<Cell>, k: nat)
      requires k <= |c|
      ensures Bytes(c[..k]) == Bytes(c)[..k] && Bytes(c[k..]) == Bytes(c)[k..]
    {
    }

    static lemma Joined(a: seq<Cell>, b: seq<Cell>, c: seq<Cell>, d: seq<Cell>)
      ensures a + (b + c) + d == a + b + (c + d)
    {
    }

    static lemma Taken(a: seq<Cell>, b: seq<Cell>, k: nat, c: seq<Cell>)
      requires k <= |b|
      ensures a + b[..k] + (b[k..] + c) == a + b + c
    {
    }

    static lemma Grouped(a: seq<Cell>, b: seq<Cell>, c: seq<Cell>)
      ensures a + (b + c) == a + b + c
    {
    }

    /** Every sequence of sends and receives, however they split the stream. */
    method Run(steps: seq<Step>)
      requires Valid()
      modifies this, sender, sender.buf, sender.buf.cmmd, sender.buf.data, receiver, receiver.buf, receiver.buf.cmmd,
               receiver.buf.data
      ensures Valid() && |old(receiver.written)| <= |receiver.written|
    {
      for i := 0 to |steps|
        invariant Valid() && |old(receiver.written)| <= |receiver.written|
        invariant old(sender.buf.data) != null ==> sender.buf.data == old(sender.buf.data)
        invariant old(sender.buf.data) == null ==> sender.buf.data == null || fresh(sender.buf.data)
        invariant receiver.buf.data == old(receiver.buf.data)
      {
        Happen(steps[i]);
      }
    }

    /** As long as the receiver has not read DATAEND some step is possible. */
    method SomeStep() returns (s: Step)
      requires Valid() && !receiver.ended
      ensures Possible(s)
    {
      if wire != [] {
        s := Recv(1);
      } else if !sender.started {
        s := Fetch;
      } else if sender.sending {
        s := Send(1);
      } else if !started {
        s := Start;
        LoggedIn();
      } else {
        s := Write;
        Unfinished();
      }
    }

    lemma Unfinished()
      requires Valid() && !receiver.ended && wire == [] && !sender.sending
      ensures !sender.ended
    {
      if sender.ended { Complete(); }
    }

    /** When LOGINRET has been sent and the wire is empty, the receiver has read it. */
    lemma LoggedIn()
      requires Valid() && sender.started && !sender.sending && !started && wire == []
      ensures receiver.asked
    {
      assert cells == [];
      var f := sender.Future();
      sender.NothingRead();
      assert |receiver.got| + |f| == |receiver.Expected()|;
      receiver.MoreThanStream();
    }

    /** Every run comes to an end, however the steps are chosen among the possible ones: each
        lowers the measure. Here the choice is SomeStep's. */
    method Finish()
      requires Valid()
      modifies this, sender, sender.buf, sender.buf.cmmd, sender.buf.data, receiver, receiver.buf, receiver.buf.cmmd,
               receiver.buf.data
      ensures Valid() && receiver.ended && receiver.written == sender.file
    {
      while !receiver.ended
        invariant Valid()
        invariant old(sender.buf.data) != null ==> sender.buf.data == old(sender.buf.data)
        invariant old(sender.buf.data) == null ==> sender.buf.data == null || fresh(sender.buf.data)
        invariant receiver.buf.data == old(receiver.buf.data)
        decreases Measure()
      {
        Advance();
      }
    }

    method Advance()
      requires Valid() && !receiver.ended
      modifies this, sender, sender.buf, sender.buf.cmmd, sender.buf.data, receiver, receiver.buf, receiver.buf.cmmd,
               receiver.buf.data
      ensures Valid() && Measure() < old(Measure())
      ensures old(sender.buf.data) != null ==> sender.buf.data == old(sender.buf.data)
      ensures old(sender.buf.data) == null ==> sender.buf.data == null || fresh(sender.buf.data)
      ensures receiver.buf.data == old(receiver.buf.data)
    {
      var s := SomeStep();
      Happen(s);
    }

    /** Bytes written, file bytes in the receive buffer, on the wire and in the send buffer, and
        the rest of the file not yet read: together they are always the file. */
    lemma Conservation()
      requires Valid()
      ensures sender.file == receiver.written
        + (Payload(receiver.got) + Payload(cells) + sender.Unsent() + sender.file[sender.mHasReadLen..])
    {
      sender.FuturePayload();
      receiver.ExpectedPayload();
      Carried(receiver.got, cells, sender.Future(), sender.Unsent(), sender.file[sender.mHasReadLen..],
        receiver.Expected());
      assert sender.file == receiver.written + sender.file[|receiver.written|..];
    }

    static lemma Carried(a: seq<Cell>, b: seq<Cell>, c: seq<Cell>, d: seq<Byte>, e: seq<Byte>, f: seq<Cell>)
      requires Payload(c) == d + e && a + b + c == f
      ensures Payload(f) == Payload(a) + Payload(b) + d + e
    {
      PayloadAppend(a + b, c);
      PayloadAppend(a, b);
      Associated(Payload(a) + Payload(b), d, e);
    }

    static lemma Associated(a: seq<Byte>, b: seq<Byte>, c: seq<Byte>)
      ensures a + (b + c) == a + b + c
    {
    }

    /** The output is always a prefix of the file, and the file itself once DATAEND is read. */
    lemma Output()
      requires Valid()
      ensures receiver.written == sender.file[..|receiver.written|]
      ensures receiver.ended ==> receiver.written == sender.file
    {
    }

    /** Nothing is lost: when DATAEND has been sent and the wire is empty, it has been read. */
    lemma Complete()
      requires Valid() && sender.ended && !sender.sending && wire == []
      ensures receiver.ended && receiver.written == sender.file
    {
      assert cells == [];
      sender.NoFuture();
      assert receiver.got == receiver.Expected();
      receiver.MoreToCome();
    }
  }
}


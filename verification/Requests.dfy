/** The commands that a client sends: Session reads them until one is a request for a file,
    then TaskFileSend reads on (Session.cpp, TaskFileSend.cpp). */
module Requests {
  import opened Octets
  import opened TransferFormat

  datatype Command = Command(cmd: int, body: seq<Byte>)

  /** A command that fits into the buffers. */
  predicate Fits(c: Command) {
    0 <= c.cmd < 0x1_0000_0000 && |c.body| <= CmdLen - NetCmdSize
  }

  function Encoded(c: Command): (b: seq<Byte>)
    requires Fits(c)
    ensures |b| == NetCmdSize + |c.body|
  {
    Header(c.cmd, |c.body|) + c.body
  }

  ghost predicate AllFit(cs: seq<Command>) {
    forall i {:trigger cs[i]} :: 0 <= i < |cs| ==> Fits(cs[i])
  }

  function Commands(cs: seq<Command>): seq<Byte>
    requires AllFit(cs)
  {
    if cs == [] then [] else Encoded(cs[0]) + Commands(cs[1..])
  }

  function Frames(cs: seq<Command>): seq<seq<Byte>>
    requires AllFit(cs)
  {
    if cs == [] then [] else Frames(cs[..|cs| - 1]) + [Encoded(cs[|cs| - 1])]
  }

  /** mReadBuff with mbRecvHead, mHasRecvLen and mTotalDataLen of a session, or tagCmdBuffer
      of a sender. */
  class CommandBuffer {
    const buff: array<Byte>
    var head: bool
    var has: int
    var total: int

    ghost predicate Valid()
      reads this, buff
    {
      && buff.Length == CmdLen
      && (if head then 0 <= has < NetCmdSize
          else 0 <= has && (has < total || Stuck()) && total <= CmdLen - NetCmdSize && FromLe32(buff[12..16]) == total)
    }

    /** A command without a body: recv is asked for no bytes and returns 0, which ends the
        connection. */
    predicate Stuck()
      reads this
    {
      !head && has == total == 0
    }

    /** The bytes of the command so far. */
    ghost function Got(): seq<Byte>
      requires Valid()
      reads this, buff
    {
      if head then buff[..has] else buff[..NetCmdSize + has]
    }

    /** The buffer is untouched. */
    twostate lemma Kept()
      requires old(Valid()) && unchanged(this) && unchanged(buff)
      ensures Valid() && Got() == old(Got())
    {
    }

    function Requested(): int
      reads this
    {
      if head then NetCmdSize - has else total - has
    }

    constructor ()
      ensures Valid() && Got() == [] && fresh(buff)
    {
      buff := new Byte[CmdLen](_ => 0);
      head, has, total := true, 0, 0;
    }

    method Put(k: nat, bytes: seq<Byte>)
      requires k + |bytes| <= buff.Length
      modifies buff
      ensures buff[..k + |bytes|] == old(buff[..k]) + bytes
    {
      forall i | 0 <= i < |bytes| {
        buff[k + i] := bytes[i];
      }
    }

    /** One recv of readBuffer or recvPackData, which continues the command c. When the command
        is complete it is handed over and the buffer starts anew. */
    method Take(bytes: seq<Byte>, ghost c: Command) returns (done: bool, frame: seq<Byte>)
      requires Valid() && Fits(c) && 0 < |bytes| <= Requested()
      requires Got() + bytes <= Encoded(c)
      modifies this, buff
      ensures Valid()
      ensures done <==> c.body != [] && old(Got()) + bytes == Encoded(c)
      ensures Stuck() <==> c.body == [] && old(Got()) + bytes == Encoded(c)
      ensures if done then frame == Encoded(c) && Got() == [] else Got() == old(Got()) + bytes
    {
      done, frame := false, [];
      if head {
        TakeHead(bytes, c);
      } else {
        done, frame := TakeBody(bytes, c);
      }
    }

    method TakeHead(bytes: seq<Byte>, ghost c: Command)
      requires Valid() && head && Fits(c) && 0 < |bytes| <= Requested() && Got() + bytes <= Encoded(c)
      modifies this, buff
      ensures Valid() && Got() == old(Got()) + bytes
      ensures Got() == Encoded(c) <==> Stuck()
      ensures Stuck() ==> c.body == []
    {
      Put(has, bytes);
      has := has + |bytes|;
      if has == NetCmdSize {
        HeadRead(c);
        total := FromLe32(buff[12..16]);
        has := 0;
        head := false;
      }
    }

    lemma HeadRead(c: Command)
      requires buff.Length == CmdLen && Fits(c) && buff[..NetCmdSize] <= Encoded(c)
      ensures FromLe32(buff[12..16]) == |c.body|
    {
      assert Encoded(c)[..NetCmdSize] == Header(c.cmd, |c.body|);
      assert buff[..][..NetCmdSize] == buff[..NetCmdSize];
      HeaderRead(buff[..], c.cmd, |c.body|);
      assert buff[..][12..16] == buff[12..16];
    }

    method TakeBody(bytes: seq<Byte>, ghost c: Command) returns (done: bool, frame: seq<Byte>)
      requires Valid() && !head && Fits(c) && 0 < |bytes| <= Requested() && Got() + bytes <= Encoded(c)
      modifies this, buff
      ensures Valid()
      ensures done <==> old(Got()) + bytes == Encoded(c)
      ensures if done then frame == Encoded(c) && Got() == [] else Got() == old(Got()) + bytes
      ensures c.body != [] && !Stuck()
    {
      ghost var got := Got();
      assert buff[..NetCmdSize] <= Encoded(c) by { assert buff[..NetCmdSize] == (got + bytes)[..NetCmdSize]; }
      HeadRead(c);
      Put(NetCmdSize + has, bytes);
      assert buff[..NetCmdSize] == buff[..NetCmdSize + has + |bytes|][..NetCmdSize] == got[..NetCmdSize];
      HeadRead(c);
      has := has + |bytes|;
      done, frame := has == total, [];
      if done {
        frame := buff[..NetCmdSize + total];
        head, has, total := true, 0, 0;
      }
    }
  }

  /** What a whole command asks the session for: a file that exists, something else with a file
      that exists, or a file that does not, which ends the connection. */
  datatype Asked = Fetch | Other | NoFile

  datatype Reader = BySession(asked: Asked) | BySender

  /** The connection of one client: the session's own buffer until the hand-off to a sender,
      then the sender's. */
  class Connection {
    const session: CommandBuffer
    const task: CommandBuffer
    var handed: bool               // mTaskBase != NULL
    var ended: bool                // readBuffer has returned 0 for a missing file
    var wire: seq<Byte>            // what the client has sent or will send
    var received: seq<seq<Byte>>
    ghost const commands: seq<Command>
    ghost var read: nat
    ghost var readers: seq<Reader> // who has read each command, and what the session found in it
    ghost var handOff: nat         // the first command that was a request, or else the next one

    function Current(): CommandBuffer
      reads this
    {
      if handed then task else session
    }

    ghost predicate Valid()
      reads this, session, session.buff, task, task.buff
    {
      && session != task && session.buff != task.buff
      && session.Valid() && task.Valid() && (if handed then session.Got() == [] else task.Got() == [])
      && AllFit(commands) && read <= |commands|
      && received == Frames(commands[..read])
      && Current().Got() + wire == Commands(commands[read..])
      && (read < |commands| && !Current().Stuck() ==> |Current().Got()| < |Encoded(commands[read])|)
      && (Current().Stuck() ==>
            read < |commands| && commands[read].body == [] && Current().Got() == Encoded(commands[read]))
      && NoneEmpty() && HandOff()
    }

    ghost predicate HandOff()
      reads this
    {
      |readers| == read && Shared(readers, handOff, handed, ended)
    }

    /** The session has read the commands up to and including the first request for a file, and
        the sender all later ones; a missing file ends the connection. */
    static ghost predicate Shared(readers: seq<Reader>, h: nat, handed: bool, ended: bool) {
      && h <= |readers|
      && (forall j {:trigger readers[j]} :: 0 <= j < h ==>
            readers[j] == BySession(Other) || (readers[j] == BySession(NoFile) && j == |readers| - 1))
      && (h < |readers| ==> readers[h] == BySession(Fetch))
      && (forall j {:trigger readers[j]} :: h < j < |readers| ==> readers[j] == BySender)
      && (handed <==> h < |readers|)
      && (ended <==> 0 < |readers| && readers[|readers| - 1] == BySession(NoFile))
    }

    /** All commands that have been read have a body. */
    ghost predicate NoneEmpty()
      requires read <= |commands|
      reads this
    {
      forall j {:trigger commands[j]} :: 0 <= j < read ==> commands[j].body != []
    }

    constructor (commands: seq<Command>)
      requires AllFit(commands)
      ensures Valid() && !handed && !ended && received == [] && wire == Commands(commands) && this.commands == commands
    {
      session := new CommandBuffer();
      task := new CommandBuffer();
      handed, ended, wire, received, this.commands := false, false, Commands(commands), [], commands;
      read, readers, handOff := 0, [], 0;
      new;
      assert commands[0..] == commands;
    }

    /** The number of bytes that one recv takes if the kernel has n. */
    function Taken(n: nat): (k: nat)
      ensures k == 0 ==> n == 0 || wire == [] || Current().Requested() <= 0
      ensures k > 0 ==> k <= n && k <= |wire| && k <= Current().Requested() && k in {n, |wire|, Current().Requested()}
      reads this, session, task
    {
      var k := if |wire| < Current().Requested() then |wire| else Current().Requested();
      if k < 0 then 0 else if n < k then n else k
    }

    /** One recv of at most n bytes, into the buffer of the sender if there is one, else into
        that of the session. If it completes a command of the session, `asked` says what that
        is; a request for a file that exists is handed over to a new TaskFileSend. */
    method Recv(n: nat, asked: Asked)
      requires Valid() && !ended
      modifies this, Current(), Current().buff
      ensures Valid() && wire == old(wire[Taken(n)..])
      ensures Progress(old(handed), old(read), old(readers), asked)
    {
      var k := Taken(n);
      if k > 0 {
        RecvSome(k, asked);
      }
    }

    /** At most one command has been completed. It is handed over exactly if the session has
        found a request in it, and ends the connection exactly if the session has found a
        missing file. */
    ghost predicate Progress(handed0: bool, read0: nat, readers0: seq<Reader>, asked: Asked)
      reads this
    {
      && (read == read0 || read == read0 + 1)
      && (handed <==> handed0 || (asked == Fetch && read > read0))
      && (ended <==> !handed0 && asked == NoFile && read > read0)
      && readers == readers0 + (if read == read0 then [] else [if handed0 then BySender else BySession(asked)])
    }

    method RecvSome(k: nat, asked: Asked)
      requires Valid() && !ended && 0 < k <= |wire| && k <= Current().Requested()
      modifies this, Current(), Current().buff
      ensures Valid() && wire == old(wire[k..])
      ensures Progress(old(handed), old(read), old(readers), asked)
    {
      var done, frame := TakeNext(k);
      if done {
        NoteFrame(wire[k..], frame, asked);
      } else {
        SetWire(wire[k..], asked);
      }
    }

    /** Neither buffer holds any bytes. */
    ghost predicate BothEmpty()
      reads this, session, session.buff, task, task.buff
    {
      && session != task && session.buff != task.buff && session.Valid() && task.Valid()
      && session.Got() == [] && task.Got() == [] && !session.Stuck() && !task.Stuck()
    }

    twostate lemma StaysEmpty()
      requires old(BothEmpty()) && unchanged(session) && unchanged(session.buff)
      requires unchanged(task) && unchanged(task.buff)
      ensures BothEmpty()
    {
      session.Kept();
      task.Kept();
    }

    /** What the log says. */
    ghost predicate Logged()
      reads this
    {
      && AllFit(commands) && read <= |commands|
      && received == Frames(commands[..read]) && NoneEmpty() && HandOff()
    }

    lemma EmptyValid()
      requires BothEmpty() && Logged() && wire == Commands(commands[read..])
      ensures Valid()
    {
    }

    /** What the buffers and the log say between two calls of recv. */
    ghost predicate Buffers()
      reads this, session, session.buff, task, task.buff
    {
      && session != task && session.buff != task.buff
      && session.Valid() && task.Valid() && (if handed then session.Got() == [] else task.Got() == [])
      && AllFit(commands) && read < |commands|
      && received == Frames(commands[..read]) && NoneEmpty() && HandOff()
    }

    method SetWire(w: seq<Byte>, ghost asked: Asked)
      requires Buffers() && Current().Got() + w == Commands(commands[read..])
      requires if Current().Stuck() then commands[read].body == [] && Current().Got() == Encoded(commands[read])
               else |Current().Got()| < |Encoded(commands[read])|
      requires !ended
      modifies this`wire
      ensures Valid() && wire == w && Progress(handed, read, readers, asked)
    {
      wire := w;
      session.Kept();
      task.Kept();
    }

    /** A whole command has arrived. */
    method NoteFrame(w: seq<Byte>, frame: seq<Byte>, asked: Asked)
      requires BothEmpty() && Logged() && !ended && read < |commands| && w == Commands(commands[read + 1..])
      requires frame == Encoded(commands[read]) && commands[read].body != []
      modifies this`wire, this`received, this`read, this`readers, this`handOff, this`handed, this`ended
      ensures Valid() && wire == w && read == old(read) + 1
      ensures Progress(old(handed), old(read), old(readers), asked)
    {
      FrameDone();
      wire := w;
      received := received + [frame];
      read := read + 1;
      NoteReader(asked);
      StaysEmpty();
      EmptyValid();
    }

    method NoteReader(asked: Asked)
      requires Shared(readers, handOff, handed, ended) && !ended
      modifies this`readers, this`handOff, this`handed, this`ended
      ensures Shared(readers, handOff, handed, ended)
      ensures readers == old(readers) + [if old(handed) then BySender else BySession(asked)]
      ensures handed <==> old(handed) || asked == Fetch
      ensures ended <==> !old(handed) && asked == NoFile
    {
      readers := readers + [if handed then BySender else BySession(asked)];
      if !handed {
        match asked
        case Fetch => handed := true;
        case Other => handOff := |readers|;
        case NoFile => ended, handOff := true, |readers|;
      }
    }

    /** The buffer in use takes the next k bytes. */
    method TakeNext(k: nat) returns (done: bool, frame: seq<Byte>)
      requires Valid() && 0 < k <= |wire| && k <= Current().Requested()
      modifies Current(), Current().buff
      ensures Buffers()
      ensures done ==> commands[read].body != [] && BothEmpty()
      ensures done ==> frame == Encoded(commands[read]) && wire[k..] == Commands(commands[read + 1..])
      ensures !done ==> Current().Got() + wire[k..] == Commands(commands[read..])
      ensures !done && !Current().Stuck() ==> |Current().Got()| < |Encoded(commands[read])|
      ensures !done && Current().Stuck() ==>
        commands[read].body == [] && Current().Got() == Encoded(commands[read])
    {
      NextFrame(k);
      Unfolded();
      ghost var c := commands[read];
      Continues(Current().Got(), wire, Encoded(c), Commands(commands[read + 1..]), k);
      done, frame := Current().Take(wire[..k], c);
    }

    /** The next bytes belong to the next command. */
    lemma NextFrame(k: nat)
      requires Valid() && 0 < k <= |wire| && k <= Current().Requested()
      ensures read < |commands| && Current().Got() + wire[..k] <= Encoded(commands[read])
      ensures Current().Got() + wire == Encoded(commands[read]) + Commands(commands[read + 1..])
    {
      Unfolded();
      var c := commands[read];
      assert (Current().Got() + wire)[..|Current().Got()|] == Current().Got();
      RequestedFits(Current(), c, wire, Commands(commands[read + 1..]));
      Continues(Current().Got(), wire, Encoded(c), Commands(commands[read + 1..]), k);
    }

    lemma Unfolded()
      requires AllFit(commands) && read <= |commands|
      ensures read < |commands| ==>
        Commands(commands[read..]) == Encoded(commands[read]) + Commands(commands[read + 1..])
    {
      if read < |commands| { assert commands[read..][1..] == commands[read + 1..]; }
    }

    /** recv is asked for the rest of the header, or else of the command. */
    static lemma RequestedFits(b: CommandBuffer, c: Command, w: seq<Byte>, rest: seq<Byte>)
      requires b.Valid() && !b.Stuck() && Fits(c) && b.Got() + w == Encoded(c) + rest && |b.Got()| < |Encoded(c)|
      ensures |b.Got()| + b.Requested() == if |b.Got()| < NetCmdSize then NetCmdSize else |Encoded(c)|
    {
      if !b.head {
        assert b.buff[..NetCmdSize] == (b.Got() + w)[..NetCmdSize];
        assert Encoded(c)[..NetCmdSize] == (Encoded(c) + rest)[..NetCmdSize];
        b.HeadRead(c);
      }
    }

    static lemma Continues(got: seq<Byte>, w: seq<Byte>, e: seq<Byte>, rest: seq<Byte>, k: nat)
      requires got + w == e + rest && k <= |w| && |got| + k <= |e|
      ensures got + w[..k] <= e && (|got| + k == |e| <==> got + w[..k] == e)
      ensures |got| + k == |e| ==> w[k..] == rest
      ensures (got + w[..k]) + w[k..] == e + rest
    {
      assert (got + w[..k]) + w[k..] == got + w;
      assert got + w[..k] == (e + rest)[..|got| + k];
      assert w[k..] == (e + rest)[|got| + k..];
    }

    lemma FrameDone()
      requires AllFit(commands) && read < |commands|
      ensures Frames(commands[..read + 1]) == Frames(commands[..read]) + [Encoded(commands[read])]
    {
      assert commands[..read + 1][..read] == commands[..read];
    }

    /** At the end of the stream, or at the end of the connection, the commands read are all
        that come before the first one without a body, whoever has read them, unless one of them
        has asked the session for a missing file. */
    lemma AllReceived()
      requires Valid() && (wire == [] || Current().Stuck() || ended)
      ensures received == Frames(commands[..read])
      ensures forall j {:trigger commands[j]} :: 0 <= j < read ==> commands[j].body != []
      ensures read == |commands| || commands[read].body == [] || (0 < read && readers[read - 1] == BySession(NoFile))
    {
      Unfolded();
      if wire == [] {
        assert |Current().Got()| == |Commands(commands[read..])|;
      }
    }

    /** The session reads up to the first request, and the sender all the rest. */
    lemma ReadBySession()
      requires Valid()
      ensures forall j :: 0 <= j < |readers| ==>
        (readers[j].BySender? <==> exists i :: 0 <= i < j && readers[i] == BySession(Fetch))
      ensures handed <==> BySession(Fetch) in readers
    {
      forall j | 0 <= j < |readers|
        ensures readers[j].BySender? <==> exists i :: 0 <= i < j && readers[i] == BySession(Fetch)
      {
        if j > handOff { assert readers[handOff] == BySession(Fetch); }
      }
      if handed { assert readers[handOff] == BySession(Fetch); }
    }
  }
}

/** Every schedule of a transfer: the received file is the sent one, nothing is left over, and nothing gets stuck. */
module TransferRuns {
  import opened TransferFrames
  import opened TransferProtocol

  // ---------- Bytes that move from one side to the other ----------

  lemma {:induction false} SendKeepsSum(wire: seq<Byte>, buf: seq<Byte>, sent: nat, k: nat, later: seq<Byte>)
    requires sent + k <= |buf|
    ensures (wire + buf[sent..sent + k]) + (buf[sent + k..] + later) == wire + (buf[sent..] + later)
  {
    assert buf[sent..] == buf[sent..sent + k] + buf[sent + k..];
  }

  lemma {:induction false} RecvKeepsSum(wire: seq<Byte>, owed: seq<Byte>, target: seq<Byte>, got: nat, after: seq<Byte>, k: nat)
    requires k <= |wire| && got + k <= |target|
    requires wire + owed == target[got..] + after
    ensures wire[..k] == target[got..got + k]
    ensures target[..got] + wire[..k] == target[..got + k]
    ensures wire[k..] + owed == target[got + k..] + after
  {
    var all := wire + owed;
    assert all[..k] == wire[..k] && all[..k] == target[got..][..k];
    assert all[k..] == wire[k..] + owed;
    assert (target[got..] + after)[k..] == target[got..][k..] + after;
    assert target[got..][k..] == target[got + k..];
  }

  // ---------- Moving bytes ----------

  /** The bytes that a sending call puts on the wire. */
  function SentNow(io: Io, k: nat): seq<Byte> {
    if io.Sending? && io.sent + k <= |io.buf| then io.buf[io.sent..io.sent + k] else []
  }

  function MoveClient(n: Net, k: nat): Net
    requires CanMove(n.client.io, n.down, k)
  {
    var io := n.client.io;
    n.(client := n.client.(io := Moved(io, n.down, k)),
       up := if io.Sending? then n.up + SentNow(io, k) else n.up,
       down := if io.Receiving? then n.down[k..] else n.down)
  }

  function MoveServer(n: Net, k: nat): Net
    requires CanMove(n.server.io, n.up, k)
  {
    var io := n.server.io;
    n.(server := n.server.(io := Moved(io, n.up, k)),
       down := if io.Sending? then n.down + SentNow(io, k) else n.down,
       up := if io.Receiving? then n.up[k..] else n.up)
  }

  /** One receiving call on its own: what it still expects shrinks with the wire. */
  lemma {:induction false} MovedReceiving(io: Io, wire: seq<Byte>, target: seq<Byte>, owed: seq<Byte>, after: seq<Byte>, k: nat)
    requires ReceivingWell(io, target) && CanMove(io, wire, k)
    requires wire + owed == Unread(io, target) + after
    ensures ReceivingWell(Moved(io, wire, k), target)
    ensures wire[k..] + owed == Unread(Moved(io, wire, k), target) + after
  {
    RecvKeepsSum(wire, owed, target, |io.got|, after, k);
  }

  lemma {:induction false} MovedSending(io: Io, wire: seq<Byte>, arrived: seq<Byte>, later: seq<Byte>, k: nat)
    requires SendingWell(io) && CanMove(io, arrived, k)
    ensures SendingWell(Moved(io, arrived, k))
    ensures (wire + SentNow(io, k)) + (Unsent(Moved(io, arrived, k)) + later) == wire + (Unsent(io) + later)
  {
    SendKeepsSum(wire, io.buf, io.sent, k, later);
  }

  lemma {:induction false} ClientSendKeepsInv(n: Net, k: nat, name: Name, f: File)
    requires Inv(n, name, f) && CanMove(n.client.io, n.down, k) && n.client.io.Sending?
    ensures Inv(MoveClient(n, k), name, f)
  {
    MovedSending(n.client.io, n.up, n.down, RequestRest(n.client.pc.CNameLen?, name), k);
  }

  lemma {:induction false} ClientReceiveKeepsInv(n: Net, k: nat, name: Name, f: File)
    requires Inv(n, name, f) && CanMove(n.client.io, n.down, k) && n.client.io.Receiving?
    ensures Inv(MoveClient(n, k), name, f)
  {
    var c := n.client;
    var at := |c.written|;
    MovedReceiving(c.io, n.down, Target(c.pc, at, f), ReplyLeft(n.server, f), After(c.pc, at, f), k);
  }

  lemma {:induction false} MoveClientKeepsInv(n: Net, k: nat, name: Name, f: File)
    requires Inv(n, name, f) && CanMove(n.client.io, n.down, k)
    ensures Inv(MoveClient(n, k), name, f)
  {
    if n.client.io.Sending? { ClientSendKeepsInv(n, k, name, f); } else { ClientReceiveKeepsInv(n, k, name, f); }
  }

  lemma {:induction false} ServerSendKeepsInv(n: Net, k: nat, name: Name, f: File)
    requires Inv(n, name, f) && CanMove(n.server.io, n.up, k) && n.server.io.Sending?
    ensures Inv(MoveServer(n, k), name, f)
  {
    MovedSending(n.server.io, n.down, n.up, Later(n.server.pc, n.server.position, f), k);
  }

  lemma {:induction false} ServerReceiveKeepsInv(n: Net, k: nat, name: Name, f: File)
    requires Inv(n, name, f) && CanMove(n.server.io, n.up, k) && n.server.io.Receiving?
    ensures Inv(MoveServer(n, k), name, f)
  {
    var first := n.server.pc.VNameLen?;
    MovedReceiving(n.server.io, n.up, RequestPart(first, name), RequestLeft(n.client, name), RequestRest(first, name), k);
  }

  lemma {:induction false} MoveServerKeepsInv(n: Net, k: nat, name: Name, f: File)
    requires Inv(n, name, f) && CanMove(n.server.io, n.up, k)
    ensures Inv(MoveServer(n, k), name, f)
  {
    if n.server.io.Sending? { ServerSendKeepsInv(n, k, name, f); } else { ServerReceiveKeepsInv(n, k, name, f); }
  }

  // ---------- Going on to the next call ----------

  lemma {:induction false} ChunkFacts(f: File, from: nat)
    requires from < |f|
    ensures var todo := f[from..]; var c := FirstChunk(todo);
            && 1 <= |c| <= SPLIT_LEN && from + |c| <= |f|
            && f[..from] + c == f[..from + |c|] && todo[|c|..] == f[from + |c|..]
            && FrameAll(Chunks(todo)) == Encode(|c|) + (c + FrameAll(Chunks(f[from + |c|..])))
            && ChunkCount(|f| - from) == 1 + ChunkCount(|f| - (from + |c|))
            && Decode(Encode(|c|)) == |c|
  {
    var todo := f[from..];
    var c := FirstChunk(todo);
    ChunkCountStep(todo);
    DecodeEncode(|c|);
    assert todo[|c|..] == f[from + |c|..];
    assert Chunks(todo)[1..] == Chunks(todo[|c|..]);
    Assoc(Encode(|c|), c, FrameAll(Chunks(todo[|c|..])));
  }

  lemma {:induction false} InfoFacts(f: File)
    ensures |Info(f)| == 16 && Decode(Info(f)[8..]) == SPLIT_LEN && ReadInfo(Info(f)) == ChunkCount(|f|)
    ensures Decode(Encode(16)) == 16
    ensures Stream(f) == Encode(16) + (Info(f) + FrameAll(Chunks(f)))
  {
    DecodeEncode(|f|);
    DecodeEncode(SPLIT_LEN);
    DecodeEncode(16);
    assert Info(f)[..8] == Encode(|f|) && Info(f)[8..] == Encode(SPLIT_LEN);
    Assoc(Encode(16), Info(f), FrameAll(Chunks(f)));
  }

  lemma {:induction false} ClientCallReady(c: Client, name: Name, f: File)
    requires ClientOk(c, name, f) && Remaining(c.io) == 0 && !c.io.Idle?
    ensures c.pc.CInfo? ==> |c.io.got| == 16 && Decode(c.io.got[8..]) > 0
    ensures !RequestPc(c.pc) ==> c.io.Receiving? && c.io.got == Target(c.pc, |c.written|, f)
  {
    hide ChunkCount, Encode, Decode, FrameAll, Chunks, FirstChunk, Content, Stream, Info;
    InfoFacts(f);
    var target := Target(c.pc, |c.written|, f);
    assert target[..|target|] == target;
  }

  /** The next call is as it should be, and the bytes owed in both directions are the same as before. */
  ghost predicate ClientWent(c: Client, r: Client, name: Name, f: File)
    requires |c.written| <= |f|
  {
    && ClientOk(r, name, f)
    && (r.io.Idle? || Remaining(r.io) > 0)
    && RequestLeft(r, name) == RequestLeft(c, name)
    && ReplyAwaited(r, f) == ReplyAwaited(c, f)
  }

  lemma {:induction false} NothingLeft()
    ensures ChunkCount(0) == 0 && FrameAll(Chunks([])) == []
  {
  }

  lemma {:induction false} NextFrameOk(name: Name, f: File, written: seq<Byte>)
    requires |written| <= |f| && written == f[..|written|]
    ensures var r := NextFrame(ChunkCount(|f| - |written|), written);
            && ClientOk(r, name, f)
            && ReplyAwaited(r, f) == FrameAll(Chunks(f[|written|..]))
            && RequestLeft(r, name) == []
            && (r.io.Idle? || Remaining(r.io) > 0)
  {
    hide ChunkCount, Encode, Decode, FrameAll, Chunks, FirstChunk, Content, Stream, Info;
    NothingLeft();
    if |written| < |f| { ChunkFacts(f, |written|); } else { assert f[|written|..] == []; }
  }

  lemma {:induction false} RequestContinuesOk(c: Client, name: Name, f: File)
    requires ClientOk(c, name, f) && Remaining(c.io) == 0 && (c.pc.CNameLen? || c.pc.CName?)
    ensures ClientWent(c, ClientContinues(c, name), name, f)
  {
    hide ChunkCount, Encode, Decode, FrameAll, Chunks, FirstChunk, Content, Stream, Info;
    InfoFacts(f);
    assert f[0..] == f;
  }

  lemma {:induction false} InfoLenContinuesOk(c: Client, name: Name, f: File)
    requires ClientOk(c, name, f) && Remaining(c.io) == 0 && c.pc.CInfoLen?
    ensures ClientWent(c, ClientContinues(c, name), name, f)
  {
    hide ChunkCount, Encode, Decode, FrameAll, Chunks, FirstChunk, Content, Stream, Info;
    InfoFacts(f);
    ClientCallReady(c, name, f);
  }

  lemma {:induction false} InfoContinuesOk(c: Client, name: Name, f: File)
    requires ClientOk(c, name, f) && Remaining(c.io) == 0 && c.pc.CInfo?
    ensures c.io.Receiving? && |c.io.got| == 16 && Decode(c.io.got[8..]) > 0
    ensures ClientWent(c, ClientContinues(c, name), name, f)
  {
    hide ChunkCount, Encode, Decode, FrameAll, Chunks, FirstChunk, Content, Stream, Info;
    InfoFacts(f);
    ClientCallReady(c, name, f);
    assert c.written == [] && f[|c.written|..] == f && Unread(c.io, Info(f)) == [];
    assert ClientContinues(c, name) == NextFrame(ChunkCount(|f|), []);
    NextFrameOk(name, f, []);
  }

  lemma {:induction false} ChunkLenContinuesOk(c: Client, name: Name, f: File)
    requires ClientOk(c, name, f) && Remaining(c.io) == 0 && c.pc.CChunkLen?
    ensures ClientWent(c, ClientContinues(c, name), name, f)
  {
    hide ChunkCount, Encode, Decode, FrameAll, Chunks, FirstChunk, Content, Stream, Info;
    ClientCallReady(c, name, f);
    ChunkFacts(f, |c.written|);
  }

  lemma {:induction false} ChunkContinuesOk(c: Client, name: Name, f: File)
    requires ClientOk(c, name, f) && Remaining(c.io) == 0 && c.pc.CChunk?
    ensures ClientWent(c, ClientContinues(c, name), name, f)
  {
    hide ChunkCount, Encode, Decode, FrameAll, Chunks, FirstChunk, Content, Stream, Info;
    ClientCallReady(c, name, f);
    ChunkFacts(f, |c.written|);
    var written := c.written + c.io.got;
    assert ClientContinues(c, name) == NextFrame(ChunkCount(|f| - |written|), written);
    NextFrameOk(name, f, written);
  }

  lemma {:induction false} ClientContinuesOk(c: Client, name: Name, f: File)
    requires ClientOk(c, name, f) && Remaining(c.io) == 0 && !c.io.Idle?
    ensures !c.pc.CNameLen? && !c.pc.CName? ==> c.io.Receiving?
    ensures c.pc.CInfo? ==> |c.io.got| == 16 && Decode(c.io.got[8..]) > 0
    ensures ClientWent(c, ClientContinues(c, name), name, f)
  {
    hide ClientContinues, ClientWent, ClientVars, SendingWell;
    if c.pc.CNameLen? || c.pc.CName? {
      RequestContinuesOk(c, name, f);
    } else if c.pc.CInfoLen? {
      InfoLenContinuesOk(c, name, f);
    } else if c.pc.CInfo? {
      InfoContinuesOk(c, name, f);
    } else if c.pc.CChunkLen? {
      ChunkLenContinuesOk(c, name, f);
    } else {
      ChunkContinuesOk(c, name, f);
    }
  }

  ghost predicate ServerWent(v: Server, r: Server, name: Name, f: File)
    requires v.position <= |f|
  {
    && ServerOk(r, name, f)
    && (r.io.Idle? || Remaining(r.io) > 0)
    && RequestAwaited(r, name) == RequestAwaited(v, name)
    && ReplyLeft(r, f) == ReplyLeft(v, f)
  }

  lemma {:induction false} NextChunkOk(v: Server, name: Name, f: File)
    requires v.file == f && v.position <= |f|
    ensures var r := NextChunk(v, ChunkCount(|f| - v.position));
            && ServerOk(r, name, f)
            && ReplyLeft(r, f) == FrameAll(Chunks(f[v.position..]))
            && RequestAwaited(r, name) == []
            && (r.io.Idle? || Remaining(r.io) > 0)
  {
    hide ChunkCount, Encode, Decode, FrameAll, Chunks, FirstChunk, Content, Stream, Info;
    NothingLeft();
    if v.position < |f| { ChunkFacts(f, v.position); } else { assert f[v.position..] == []; }
  }

  lemma {:induction false} NameContinuesOk(v: Server, files: map<Name, File>, name: Name)
    requires ServerOk(v, name, Content(files, name)) && Remaining(v.io) == 0 && (v.pc.VNameLen? || v.pc.VName?)
    ensures v.io.Receiving? && (v.pc.VName? ==> 0 < |v.io.got| <= 250)
    ensures ServerWent(v, ServerContinues(v, files), name, Content(files, name))
  {
    hide ChunkCount, Encode, Decode, FrameAll, Chunks, FirstChunk, Content, Stream, Info;
    var f := Content(files, name);
    InfoFacts(f);
    DecodeEncode(|name|);
    if v.pc.VNameLen? {
      assert v.io.got == Encode(|name|);
    } else {
      assert v.io.got == name;
      assert [] + Stream(f) == Stream(f);
    }
  }

  lemma {:induction false} InfoSentOk(v: Server, files: map<Name, File>, name: Name)
    requires ServerOk(v, name, Content(files, name)) && Remaining(v.io) == 0 && (v.pc.VInfoLen? || v.pc.VInfo?)
    ensures ServerWent(v, ServerContinues(v, files), name, Content(files, name))
  {
    hide ChunkCount, Encode, Decode, FrameAll, Chunks, FirstChunk, Content, Stream, Info;
    var f := Content(files, name);
    InfoFacts(f);
    if v.pc.VInfo? {
      NextChunkOk(v, name, f);
      assert f[v.position..] == f;
    }
  }

  lemma {:induction false} ChunkLenSentOk(v: Server, files: map<Name, File>, name: Name)
    requires ServerOk(v, name, Content(files, name)) && Remaining(v.io) == 0 && v.pc.VChunkLen?
    ensures ServerWent(v, ServerContinues(v, files), name, Content(files, name))
  {
    hide ChunkCount, Encode, Decode, FrameAll, Chunks, FirstChunk, Content, Stream, Info;
    ChunkFacts(Content(files, name), v.position);
  }

  lemma {:induction false} ChunkSentOk(v: Server, files: map<Name, File>, name: Name)
    requires ServerOk(v, name, Content(files, name)) && Remaining(v.io) == 0 && v.pc.VChunk?
    ensures ServerWent(v, ServerContinues(v, files), name, Content(files, name))
  {
    hide ChunkCount, Encode, Decode, FrameAll, Chunks, FirstChunk, Content, Stream, Info;
    NextChunkOk(v, name, Content(files, name));
  }

  lemma {:induction false} ServerContinuesOk(v: Server, files: map<Name, File>, name: Name)
    requires ServerOk(v, name, Content(files, name)) && Remaining(v.io) == 0 && !v.io.Idle?
    ensures v.pc.VNameLen? || v.pc.VName? ==> v.io.Receiving?
    ensures v.pc.VName? ==> 0 < |v.io.got| <= 250
    ensures ServerWent(v, ServerContinues(v, files), name, Content(files, name))
  {
    hide ServerContinues, ServerWent, Content, ServerVars, ReceivingWell, SendingWell;
    if v.pc.VNameLen? || v.pc.VName? {
      NameContinuesOk(v, files, name);
    } else if v.pc.VInfoLen? || v.pc.VInfo? {
      InfoSentOk(v, files, name);
    } else if v.pc.VChunkLen? {
      ChunkLenSentOk(v, files, name);
    } else {
      ChunkSentOk(v, files, name);
    }
  }

  // ---------- Steps and runs ----------

  /** Between steps no call has everything already. */
  ghost predicate Stable(n: Net, name: Name, f: File) {
    && Inv(n, name, f)
    && (n.client.io.Idle? || Remaining(n.client.io) > 0)
    && (n.server.io.Idle? || Remaining(n.server.io) > 0)
  }

  ghost predicate Possible(n: Net, step: Step) {
    match step
    case ClientMoves(k) => CanMove(n.client.io, n.down, k)
    case ServerMoves(k) => CanMove(n.server.io, n.up, k)
  }

  ghost function ClientNext(n: Net, k: nat, files: map<Name, File>, name: Name): (r: Net)
    requires Stable(n, name, Content(files, name)) && CanMove(n.client.io, n.down, k)
    ensures Stable(r, name, Content(files, name))
  {
    MoveClientKeepsInv(n, k, name, Content(files, name));
    var m := MoveClient(n, k);
    if Remaining(m.client.io) > 0 then m else
    ClientContinuesOk(m.client, name, Content(files, name));
    m.(client := ClientContinues(m.client, name))
  }

  ghost function ServerNext(n: Net, k: nat, files: map<Name, File>, name: Name): (r: Net)
    requires Stable(n, name, Content(files, name)) && CanMove(n.server.io, n.up, k)
    ensures Stable(r, name, Content(files, name))
  {
    MoveServerKeepsInv(n, k, name, Content(files, name));
    var m := MoveServer(n, k);
    if Remaining(m.server.io) > 0 then m else
    ServerContinuesOk(m.server, files, name);
    m.(server := ServerContinues(m.server, files))
  }

  ghost function Next(n: Net, step: Step, files: map<Name, File>, name: Name): (r: Net)
    requires Stable(n, name, Content(files, name))
    ensures Stable(r, name, Content(files, name))
  {
    if !Possible(n, step) then n else
    match step
    case ClientMoves(k) => ClientNext(n, k, files, name)
    case ServerMoves(k) => ServerNext(n, k, files, name)
  }

  lemma {:induction false} InitialStable(name: Name, f: File)
    ensures Stable(Initial(name), name, f)
  {
    var n := Initial(name);
    assert f[..0] == [];
    assert Unread(n.server.io, Encode(|name|)) == Encode(|name|);
    assert [] + Stream(f) == Stream(f);
  }

  ghost function Run(files: map<Name, File>, name: Name, steps: seq<Step>): (r: Net)
    ensures Stable(r, name, Content(files, name))
  {
    if steps == [] then
      InitialStable(name, Content(files, name));
      Initial(name)
    else
      Next(Run(files, name, steps[..|steps| - 1]), steps[|steps| - 1], files, name)
  }

  /**
   End to end: under every schedule, when both sides have finished, the client has written exactly the requested
   file, or nothing if the server cannot open it, and both channels are empty.
   */
  lemma {:induction false} ReceivedFileIsSentFile(files: map<Name, File>, name: Name, steps: seq<Step>)
    requires Run(files, name, steps).client.pc.CDone? && Run(files, name, steps).server.pc.VDone?
    ensures var n := Run(files, name, steps);
            && (if name in files then n.client.written == files[name] else n.client.written == [])
            && n.up == [] && n.down == []
  {
    var n := Run(files, name, steps);
    assert n.down + ([] + []) == [] + [];
  }

  lemma {:induction false} BuffersSuffice(n: Net, name: Name, f: File)
    requires Inv(n, name, f)
    ensures n.client.pc.CChunk? ==> n.client.io.Receiving? && 1 <= n.client.io.size <= 2048
    ensures n.client.pc.CInfo? ==> n.client.io.Receiving? && n.client.io.size == 16
    ensures n.server.pc.VName? ==> n.server.io.Receiving? && n.server.io.size < 256
  {
    hide ChunkCount, Encode, Decode, FrameAll, Chunks, FirstChunk, Stream, Info;
    InfoFacts(f);
    if n.client.pc.CChunk? { ChunkFacts(f, |n.client.written|); }
  }

  /** At every moment what is written is a prefix of the file, and no frame overruns the buffer it is received in. */
  lemma {:induction false} WrittenIsPrefix(files: map<Name, File>, name: Name, steps: seq<Step>)
    ensures var n := Run(files, name, steps);
            && (if name in files then n.client.written <= files[name] else n.client.written == [])
            && (n.client.pc.CChunk? ==> n.client.io.Receiving? && 1 <= n.client.io.size <= 2048)
            && (n.client.pc.CInfo? ==> n.client.io.Receiving? && n.client.io.size == 16)
            && (n.server.pc.VName? ==> n.server.io.Receiving? && n.server.io.size < 256)
  {
    BuffersSuffice(Run(files, name, steps), name, Content(files, name));
  }

  // ---------- Progress ----------

  ghost predicate Complete(n: Net) {
    n.client.pc.CDone? && n.server.pc.VDone?
  }

  lemma {:induction false} StableCanMove(n: Net, name: Name, f: File)
    requires Stable(n, name, f) && !Complete(n)
    ensures exists step :: Possible(n, step)
  {
    if n.client.io.Sending? {
      assert Possible(n, ClientMoves(1));
    } else if n.server.io.Sending? {
      assert Possible(n, ServerMoves(1));
    } else if n.server.io.Receiving? {
      assert |RequestAwaited(n.server, name)| > 0;
      assert Possible(n, ServerMoves(1));
    } else {
      assert |ReplyAwaited(n.client, f)| > 0;
      assert Possible(n, ClientMoves(1));
    }
  }

  /** No deadlock: until both sides have finished, one of them can move a byte. */
  lemma {:induction false} SomeoneCanMove(files: map<Name, File>, name: Name, steps: seq<Step>)
    requires !Complete(Run(files, name, steps))
    ensures exists step :: Possible(Run(files, name, steps), step)
  {
    StableCanMove(Run(files, name, steps), name, Content(files, name));
  }

  /** The bytes still to be sent and received, on both channels. */
  ghost function Work(n: Net, name: Name, f: File): nat
    requires Inv(n, name, f)
  {
    |RequestLeft(n.client, name)| + |RequestAwaited(n.server, name)| + |ReplyLeft(n.server, f)| + |ReplyAwaited(n.client, f)|
  }

  lemma {:induction false} ClientMoveUsesWork(n: Net, k: nat, name: Name, f: File)
    requires Stable(n, name, f) && CanMove(n.client.io, n.down, k) && Inv(MoveClient(n, k), name, f)
    ensures Work(MoveClient(n, k), name, f) < Work(n, name, f)
  {
  }

  lemma {:induction false} ServerMoveUsesWork(n: Net, k: nat, name: Name, f: File)
    requires Stable(n, name, f) && CanMove(n.server.io, n.up, k) && Inv(MoveServer(n, k), name, f)
    ensures Work(MoveServer(n, k), name, f) < Work(n, name, f)
  {
  }

  lemma {:induction false} ClientNextUsesWork(n: Net, k: nat, files: map<Name, File>, name: Name)
    requires Stable(n, name, Content(files, name)) && CanMove(n.client.io, n.down, k)
    ensures Work(ClientNext(n, k, files, name), name, Content(files, name)) < Work(n, name, Content(files, name))
  {
    var f := Content(files, name);
    MoveClientKeepsInv(n, k, name, f);
    ClientMoveUsesWork(n, k, name, f);
    var m := MoveClient(n, k);
    if Remaining(m.client.io) == 0 { ClientContinuesOk(m.client, name, f); }
  }

  lemma {:induction false} ServerNextUsesWork(n: Net, k: nat, files: map<Name, File>, name: Name)
    requires Stable(n, name, Content(files, name)) && CanMove(n.server.io, n.up, k)
    ensures Work(ServerNext(n, k, files, name), name, Content(files, name)) < Work(n, name, Content(files, name))
  {
    var f := Content(files, name);
    MoveServerKeepsInv(n, k, name, f);
    ServerMoveUsesWork(n, k, name, f);
    var m := MoveServer(n, k);
    if Remaining(m.server.io) == 0 { ServerContinuesOk(m.server, files, name); }
  }

  lemma {:induction false} NextUsesWork(n: Net, step: Step, files: map<Name, File>, name: Name)
    requires Stable(n, name, Content(files, name)) && Possible(n, step)
    ensures Work(Next(n, step, files, name), name, Content(files, name)) < Work(n, name, Content(files, name))
  {
    hide Stable, Work, Content, ClientNext, ServerNext;
    match step
    case ClientMoves(k) => ClientNextUsesWork(n, k, files, name);
    case ServerMoves(k) => ServerNextUsesWork(n, k, files, name);
  }

  /** Every possible step uses up work, so no schedule goes on moving bytes for ever. */
  lemma {:induction false} StepsUseUpWork(files: map<Name, File>, name: Name, steps: seq<Step>, step: Step)
    requires Possible(Run(files, name, steps), step)
    ensures Work(Next(Run(files, name, steps), step, files, name), name, Content(files, name))
            < Work(Run(files, name, steps), name, Content(files, name))
  {
    NextUsesWork(Run(files, name, steps), step, files, name);
  }
}

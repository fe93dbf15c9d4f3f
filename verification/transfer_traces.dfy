/**
 What each side of a transfer puts on the wire and takes off it, over a whole run. It is what the methods of SyncFiles
 move: SyncSendFile sends Stream(file); SyncRecvFile sends Frame(name) and receives Stream(file).
 */
module TransferTraces {
  import opened TransferFrames
  import opened TransferProtocol
  import opened TransferRuns

  datatype Trace = Trace(
    clientSent: seq<Byte>,
    serverReceived: seq<Byte>,
    serverSent: seq<Byte>,
    clientReceived: seq<Byte>)

  const NOTHING := Trace([], [], [], [])

  /** The bytes that a receiving call takes off the wire. */
  function TakenNow(io: Io, wire: seq<Byte>, k: nat): seq<Byte> {
    if io.Receiving? && k <= |wire| then wire[..k] else []
  }

  /** The bytes that move in one step. */
  ghost function MovedBy(n: Net, step: Step): Trace {
    if !Possible(n, step) then NOTHING
    else
      match step
      case ClientMoves(k) => NOTHING.(clientSent := SentNow(n.client.io, k), clientReceived := TakenNow(n.client.io, n.down, k))
      case ServerMoves(k) => NOTHING.(serverSent := SentNow(n.server.io, k), serverReceived := TakenNow(n.server.io, n.up, k))
  }

  function Joined(a: Trace, b: Trace): Trace {
    Trace(a.clientSent + b.clientSent, a.serverReceived + b.serverReceived, a.serverSent + b.serverSent,
          a.clientReceived + b.clientReceived)
  }

  ghost function TraceOf(files: map<Name, File>, name: Name, steps: seq<Step>): Trace {
    if steps == [] then NOTHING
    else
      var before := steps[..|steps| - 1];
      Joined(TraceOf(files, name, before), MovedBy(Run(files, name, before), steps[|steps| - 1]))
  }

  // ---------- One call ----------

  lemma {:induction false} SendTells(io: Io, arrived: seq<Byte>, later: seq<Byte>, k: nat)
    requires SendingWell(io) && CanMove(io, arrived, k)
    ensures Unsent(io) + later == SentNow(io, k) + (Unsent(Moved(io, arrived, k)) + later)
    ensures TakenNow(io, arrived, k) == []
  {
    MovedSending(io, [], arrived, later, k);
    assert [] + SentNow(io, k) == SentNow(io, k);
    assert [] + (Unsent(io) + later) == Unsent(io) + later;
  }

  lemma {:induction false} ReceiveTells(io: Io, wire: seq<Byte>, target: seq<Byte>, owed: seq<Byte>, after: seq<Byte>, k: nat)
    requires ReceivingWell(io, target) && CanMove(io, wire, k)
    requires wire + owed == Unread(io, target) + after
    ensures Unread(io, target) + after == TakenNow(io, wire, k) + (Unread(Moved(io, wire, k), target) + after)
    ensures SentNow(io, k) == []
  {
    hide Unread, Moved;
    MovedReceiving(io, wire, target, owed, after, k);
    CutWire(wire, owed, k);
  }

  lemma {:induction false} CutWire(wire: seq<Byte>, owed: seq<Byte>, k: nat)
    requires k <= |wire|
    ensures wire + owed == wire[..k] + (wire[k..] + owed)
  {
  }

  // ---------- One move of a side ----------

  /** What the client still sends and still receives, before and after. */
  ghost predicate ClientTells(c: Client, r: Client, sent: seq<Byte>, got: seq<Byte>, name: Name, f: File)
    requires |c.written| <= |f| && |r.written| <= |f|
  {
    && RequestLeft(c, name) == sent + RequestLeft(r, name)
    && ReplyAwaited(c, f) == got + ReplyAwaited(r, f)
  }

  lemma {:induction false} MoveClientTells(n: Net, k: nat, name: Name, f: File)
    requires Inv(n, name, f) && CanMove(n.client.io, n.down, k)
    ensures ClientTells(n.client, MoveClient(n, k).client, SentNow(n.client.io, k), TakenNow(n.client.io, n.down, k), name, f)
  {
    hide Encode, FrameAll, Chunks, FirstChunk, Stream, Info, ChunkCount, SentNow, TakenNow, Unsent;
    var c := n.client;
    var at := |c.written|;
    if c.io.Sending? {
      SendTells(c.io, n.down, RequestRest(c.pc.CNameLen?, name), k);
      assert [] + ReplyAwaited(c, f) == ReplyAwaited(c, f);
    } else {
      ReceiveTells(c.io, n.down, Target(c.pc, at, f), ReplyLeft(n.server, f), After(c.pc, at, f), k);
      NothingUnsent(c.io);
      NothingUnsent(Moved(c.io, n.down, k));
    }
  }

  lemma {:induction false} NothingUnsent(io: Io)
    requires !io.Sending?
    ensures Unsent(io) == []
  {
  }

  ghost predicate ServerTells(v: Server, r: Server, sent: seq<Byte>, got: seq<Byte>, name: Name, f: File)
    requires v.position <= |f| && r.position <= |f|
  {
    && ReplyLeft(v, f) == sent + ReplyLeft(r, f)
    && RequestAwaited(v, name) == got + RequestAwaited(r, name)
  }

  lemma {:induction false} ServerSendTells(n: Net, k: nat, name: Name, f: File)
    requires Inv(n, name, f) && CanMove(n.server.io, n.up, k) && n.server.io.Sending?
    ensures ServerTells(n.server, MoveServer(n, k).server, SentNow(n.server.io, k), TakenNow(n.server.io, n.up, k), name, f)
  {
    hide Encode, FrameAll, Chunks, FirstChunk, Stream, Info, ChunkCount, SentNow, TakenNow, Unsent, Later, Frame;
    SendTells(n.server.io, n.up, Later(n.server.pc, n.server.position, f), k);
    assert !ListenPc(n.server.pc);
  }

  lemma {:induction false} ServerReceiveTells(n: Net, k: nat, name: Name, f: File)
    requires Inv(n, name, f) && CanMove(n.server.io, n.up, k) && n.server.io.Receiving?
    ensures ServerTells(n.server, MoveServer(n, k).server, SentNow(n.server.io, k), TakenNow(n.server.io, n.up, k), name, f)
  {
    hide Encode, FrameAll, Chunks, FirstChunk, Stream, Info, ChunkCount, SentNow, TakenNow, Unsent, Later, Unread;
    var v := n.server;
    var first := v.pc.VNameLen?;
    ReceiveTells(v.io, n.up, RequestPart(first, name), RequestLeft(n.client, name), RequestRest(first, name), k);
    NothingUnsent(v.io);
    NothingUnsent(Moved(v.io, n.up, k));
  }

  lemma {:induction false} MoveServerTells(n: Net, k: nat, name: Name, f: File)
    requires Inv(n, name, f) && CanMove(n.server.io, n.up, k)
    ensures ServerTells(n.server, MoveServer(n, k).server, SentNow(n.server.io, k), TakenNow(n.server.io, n.up, k), name, f)
  {
    hide Inv, MoveServer, ServerTells, SentNow, TakenNow;
    if n.server.io.Sending? {
      ServerSendTells(n, k, name, f);
    } else {
      ServerReceiveTells(n, k, name, f);
    }
  }

  lemma {:induction false} ClientNextTells(n: Net, k: nat, files: map<Name, File>, name: Name)
    requires Stable(n, name, Content(files, name)) && CanMove(n.client.io, n.down, k)
    ensures var r := ClientNext(n, k, files, name);
            && r.server == n.server
            && ClientTells(n.client, r.client, SentNow(n.client.io, k), TakenNow(n.client.io, n.down, k), name, Content(files, name))
  {
    hide Content, RequestLeft, ReplyAwaited, SentNow, TakenNow, ClientContinues;
    var f := Content(files, name);
    MoveClientKeepsInv(n, k, name, f);
    MoveClientTells(n, k, name, f);
    var m := MoveClient(n, k);
    if Remaining(m.client.io) <= 0 { ClientContinuesOk(m.client, name, f); }
  }

  lemma {:induction false} ServerNextTells(n: Net, k: nat, files: map<Name, File>, name: Name)
    requires Stable(n, name, Content(files, name)) && CanMove(n.server.io, n.up, k)
    ensures var r := ServerNext(n, k, files, name);
            && r.client == n.client
            && ServerTells(n.server, r.server, SentNow(n.server.io, k), TakenNow(n.server.io, n.up, k), name, Content(files, name))
  {
    hide Content, ReplyLeft, RequestAwaited, SentNow, TakenNow, ServerContinues;
    var f := Content(files, name);
    MoveServerKeepsInv(n, k, name, f);
    MoveServerTells(n, k, name, f);
    var m := MoveServer(n, k);
    if Remaining(m.server.io) <= 0 { ServerContinuesOk(m.server, files, name); }
  }

  // ---------- Whole runs ----------

  /** What each side has moved and still moves is what its method moves. */
  ghost predicate Told(t: Trace, n: Net, name: Name, f: File)
    requires n.server.position <= |f| && |n.client.written| <= |f|
  {
    && t.clientSent + RequestLeft(n.client, name) == Frame(name)
    && t.serverReceived + RequestAwaited(n.server, name) == Frame(name)
    && t.serverSent + ReplyLeft(n.server, f) == Stream(f)
    && t.clientReceived + ReplyAwaited(n.client, f) == Stream(f)
  }

  lemma {:induction false} InitialTold(name: Name, f: File)
    ensures Told(NOTHING, Initial(name), name, f)
  {
    hide Encode, Stream;
    var n := Initial(name);
    assert Encode(|name|)[0..] == Encode(|name|);
    assert [] + Frame(name) == Frame(name);
    assert [] + Stream(f) == Stream(f);
    assert [] + ([] + Stream(f)) == Stream(f);
  }

  lemma {:induction false} Regroup(a: seq<Byte>, b: seq<Byte>, c: seq<Byte>, whole: seq<Byte>, rest: seq<Byte>)
    requires a + rest == whole && rest == b + c
    ensures (a + b) + c == whole
  {
    Assoc(a, b, c);
  }

  lemma {:induction false} Unchanged(a: seq<Byte>, rest: seq<Byte>, whole: seq<Byte>)
    requires a + rest == whole
    ensures (a + []) + rest == whole
  {
    assert a + [] == a;
  }

  lemma {:induction false} ClientStepTold(t: Trace, n: Net, k: nat, files: map<Name, File>, name: Name)
    requires Stable(n, name, Content(files, name)) && CanMove(n.client.io, n.down, k) && Told(t, n, name, Content(files, name))
    ensures Told(Joined(t, MovedBy(n, ClientMoves(k))), ClientNext(n, k, files, name), name, Content(files, name))
  {
    hide Content, RequestLeft, RequestAwaited, ReplyLeft, ReplyAwaited, SentNow, TakenNow, ClientNext, Frame, Stream;
    var f := Content(files, name);
    var r := ClientNext(n, k, files, name);
    ClientNextTells(n, k, files, name);
    var sent, got := SentNow(n.client.io, k), TakenNow(n.client.io, n.down, k);
    Regroup(t.clientSent, sent, RequestLeft(r.client, name), Frame(name), RequestLeft(n.client, name));
    Regroup(t.clientReceived, got, ReplyAwaited(r.client, f), Stream(f), ReplyAwaited(n.client, f));
    Unchanged(t.serverReceived, RequestAwaited(n.server, name), Frame(name));
    Unchanged(t.serverSent, ReplyLeft(n.server, f), Stream(f));
  }

  lemma {:induction false} ServerStepTold(t: Trace, n: Net, k: nat, files: map<Name, File>, name: Name)
    requires Stable(n, name, Content(files, name)) && CanMove(n.server.io, n.up, k) && Told(t, n, name, Content(files, name))
    ensures Told(Joined(t, MovedBy(n, ServerMoves(k))), ServerNext(n, k, files, name), name, Content(files, name))
  {
    hide Content, RequestLeft, RequestAwaited, ReplyLeft, ReplyAwaited, SentNow, TakenNow, ServerNext, Frame, Stream;
    var f := Content(files, name);
    var r := ServerNext(n, k, files, name);
    ServerNextTells(n, k, files, name);
    var sent, got := SentNow(n.server.io, k), TakenNow(n.server.io, n.up, k);
    Regroup(t.serverSent, sent, ReplyLeft(r.server, f), Stream(f), ReplyLeft(n.server, f));
    Regroup(t.serverReceived, got, RequestAwaited(r.server, name), Frame(name), RequestAwaited(n.server, name));
    Unchanged(t.clientSent, RequestLeft(n.client, name), Frame(name));
    Unchanged(t.clientReceived, ReplyAwaited(n.client, f), Stream(f));
  }

  lemma {:induction false} NothingTold(t: Trace)
    ensures Joined(t, NOTHING) == t
  {
  }

  lemma {:induction false} StepTold(t: Trace, n: Net, step: Step, files: map<Name, File>, name: Name)
    requires Stable(n, name, Content(files, name)) && Told(t, n, name, Content(files, name))
    ensures Told(Joined(t, MovedBy(n, step)), Next(n, step, files, name), name, Content(files, name))
  {
    hide Told, Stable, Content, ClientNext, ServerNext, Joined;
    if !Possible(n, step) {
      NothingTold(t);
    } else {
      match step
      case ClientMoves(k) => ClientStepTold(t, n, k, files, name);
      case ServerMoves(k) => ServerStepTold(t, n, k, files, name);
    }
  }

  lemma {:induction false} RunTold(files: map<Name, File>, name: Name, steps: seq<Step>)
    ensures Told(TraceOf(files, name, steps), Run(files, name, steps), name, Content(files, name))
  {
    hide Told, Content, Next, MovedBy, Joined;
    if steps == [] {
      InitialTold(name, Content(files, name));
    } else {
      var before, step := steps[..|steps| - 1], steps[|steps| - 1];
      RunTold(files, name, before);
      StepTold(TraceOf(files, name, before), Run(files, name, before), step, files, name);
    }
  }

  /**
   Under every schedule, what each side has sent and received is a beginning of what its method sends and receives, and
   all of it when both have finished: the client sends Frame(name) and receives Stream(file), as SyncRecvFile does; the
   server receives the one and sends the other, as RecvBuff and SyncSendFile do.
   */
  lemma {:induction false} SidesMoveWhatMethodsMove(files: map<Name, File>, name: Name, steps: seq<Step>)
    ensures var t, file := TraceOf(files, name, steps), if name in files then files[name] else [];
            && t.clientSent <= Frame(name) && t.serverReceived <= Frame(name)
            && t.serverSent <= Stream(file) && t.clientReceived <= Stream(file)
            && (Complete(Run(files, name, steps)) ==> t == Trace(Frame(name), Frame(name), Stream(file), Stream(file)))
  {
    var n, f := Run(files, name, steps), Content(files, name);
    RunTold(files, name, steps);
    if Complete(n) { NothingLeftToMove(n, name, f); }
  }

  lemma {:induction false} NothingLeftToMove(n: Net, name: Name, f: File)
    requires Stable(n, name, f) && Complete(n)
    ensures RequestLeft(n.client, name) == [] && RequestAwaited(n.server, name) == []
    ensures ReplyLeft(n.server, f) == [] && ReplyAwaited(n.client, f) == []
  {
  }

  // ---------- The kernel is free ----------

  lemma {:induction false} TraceSnoc(files: map<Name, File>, name: Name, steps: seq<Step>, step: Step)
    ensures TraceOf(files, name, steps + [step]) ==
            Joined(TraceOf(files, name, steps), MovedBy(Run(files, name, steps), step))
  {
    hide Run, MovedBy;
    assert (steps + [step])[..|steps|] == steps;
  }

  /** The trace after a step of the client in which the kernel moves k bytes. */
  function ClientGains(n: Net, k: nat, t: Trace): Trace {
    match n.client.io
    case Sending(buf, sent) =>
      if sent + k <= |buf| then t.(clientSent := t.clientSent + buf[sent..sent + k]) else t
    case Receiving(size, got) =>
      if |got| + k <= size && k <= |n.down| then t.(clientReceived := t.clientReceived + n.down[..k]) else t
    case Idle => t
  }

  function ServerGains(n: Net, k: nat, t: Trace): Trace {
    match n.server.io
    case Sending(buf, sent) =>
      if sent + k <= |buf| then t.(serverSent := t.serverSent + buf[sent..sent + k]) else t
    case Receiving(size, got) =>
      if |got| + k <= size && k <= |n.up| then t.(serverReceived := t.serverReceived + n.up[..k]) else t
    case Idle => t
  }

  lemma {:induction false} ClientShare(n: Net, k: nat, t: Trace)
    requires n.client.io.Idle? || Remaining(n.client.io) > 0
    ensures Joined(t, MovedBy(n, ClientMoves(k))) == ClientGains(n, k, t)
  {
  }

  lemma {:induction false} ServerShare(n: Net, k: nat, t: Trace)
    requires n.server.io.Idle? || Remaining(n.server.io) > 0
    ensures Joined(t, MovedBy(n, ServerMoves(k))) == ServerGains(n, k, t)
  {
  }

  lemma {:induction false} NobodyMovesNothing(files: map<Name, File>, name: Name, steps: seq<Step>)
    ensures var n := Run(files, name, steps);
            && (n.client.io.Idle? || Remaining(n.client.io) > 0)
            && (n.server.io.Idle? || Remaining(n.server.io) > 0)
  {
    hide Inv, Content;
  }

  /**
   At any moment of any schedule the kernel may take from a sending side any number of the bytes left in its buffer, up to
   all of them, and give a receiving side any number of the bytes that have arrived, up to all that its call asks for.
   Those bytes move and no others; a side that asks for more than there are waits.
   */
  lemma {:induction false} AnyShareMoves(files: map<Name, File>, name: Name, steps: seq<Step>, k: nat)
    ensures var n, t := Run(files, name, steps), TraceOf(files, name, steps);
            && TraceOf(files, name, steps + [ClientMoves(k)]) == ClientGains(n, k, t)
            && TraceOf(files, name, steps + [ServerMoves(k)]) == ServerGains(n, k, t)
  {
    hide Stable, Run, TraceOf, MovedBy, Joined, Remaining, ClientGains, ServerGains;
    var n, t := Run(files, name, steps), TraceOf(files, name, steps);
    TraceSnoc(files, name, steps, ClientMoves(k));
    TraceSnoc(files, name, steps, ServerMoves(k));
    NobodyMovesNothing(files, name, steps);
    ClientShare(n, k, t);
    ServerShare(n, k, t);
  }
}

/**
 A whole transfer: the client requests a file by name, the server answers with its stream. Each side runs its socket
 calls one after the other; a step moves some of the bytes that the current call still has to move, and the two sides
 interleave freely, so a run is any schedule of partial sends and receives. EAGAIN is a step that moves nothing.
 */
module TransferProtocol {
  import opened TransferFrames

  /** With `.copy` and the final zero a name must fit the 256 bytes the client builds its file name in. */
  type Name = s: seq<Byte> | 0 < |s| <= 250 witness [0]
  type File = s: seq<Byte> | |s| <= MAX_FILE_LEN witness []

  /** The socket call a side is in. */
  datatype Io =
    | Sending(buf: seq<Byte>, sent: nat)
    | Receiving(size: int, got: seq<Byte>)
    | Idle

  datatype ClientPc = CNameLen | CName | CInfoLen | CInfo | CChunkLen | CChunk | CDone
  datatype ServerPc = VNameLen | VName | VInfoLen | VInfo | VChunkLen | VChunk | VDone

  datatype Client = Client(pc: ClientPc, io: Io, left: int, written: seq<Byte>)
  datatype Server = Server(pc: ServerPc, io: Io, file: seq<Byte>, position: nat, left: int)

  /** `up` carries what the client sends, `down` what the server sends. */
  datatype Net = Net(client: Client, server: Server, up: seq<Byte>, down: seq<Byte>)

  datatype Step = ClientMoves(k: nat) | ServerMoves(k: nat)

  /** A file that cannot be opened is transferred as an empty one. */
  function Content(files: map<Name, File>, name: Name): File {
    if name in files then files[name] else []
  }

  function Initial(name: Name): Net {
    Net(Client(CNameLen, Sending(Encode(|name|), 0), 0, []), Server(VNameLen, Receiving(8, []), [], 0, 0), [], [])
  }

  // ---------- One socket call ----------

  function Remaining(io: Io): int {
    match io
    case Sending(buf, sent) => |buf| - sent
    case Receiving(size, got) => size - |got|
    case Idle => 0
  }

  /** The kernel moves at least one byte unless there is none to move, and no more than asked for or present. */
  predicate CanMove(io: Io, arrived: seq<Byte>, k: nat) {
    !io.Idle? && k <= Remaining(io) && (k == 0 ==> Remaining(io) == 0) && (io.Receiving? ==> k <= |arrived|)
  }

  function Moved(io: Io, arrived: seq<Byte>, k: nat): Io
    requires CanMove(io, arrived, k)
  {
    if io.Sending? then Sending(io.buf, io.sent + k) else Receiving(io.size, io.got + arrived[..k])
  }

  // ---------- What follows a completed call ----------

  /** The client reads the file length and the chunk length. */
  function ReadInfo(info: seq<Byte>): int
    requires |info| == 16 && Decode(info[8..]) > 0
  {
    (Decode(info[..8]) + Decode(info[8..]) - 1) / Decode(info[8..])
  }

  function NextFrame(left: int, written: seq<Byte>): Client {
    if left == 0 then Client(CDone, Idle, 0, written) else Client(CChunkLen, Receiving(8, []), left, written)
  }

  function ClientContinues(c: Client, name: Name): Client
    requires c.pc.CInfoLen? || c.pc.CInfo? || c.pc.CChunkLen? || c.pc.CChunk? ==> c.io.Receiving?
    requires c.pc.CInfo? ==> |c.io.got| == 16 && Decode(c.io.got[8..]) > 0
  {
    match c.pc
    case CNameLen => c.(pc := CName, io := Sending(name, 0))
    case CName => c.(pc := CInfoLen, io := Receiving(8, []))
    case CInfoLen => c.(pc := CInfo, io := Receiving(Decode(c.io.got), []))
    case CInfo => NextFrame(ReadInfo(c.io.got), c.written)
    case CChunkLen => c.(pc := CChunk, io := Receiving(Decode(c.io.got), []))
    case CChunk => NextFrame(c.left - 1, c.written + c.io.got)
    case CDone => c
  }

  function NextChunk(v: Server, left: int): Server
    requires v.position <= |v.file|
  {
    if left == 0 then v.(pc := VDone, io := Idle, left := 0)
    else v.(pc := VChunkLen, io := Sending(Encode(|FirstChunk(v.file[v.position..])|), 0), left := left)
  }

  function ServerContinues(v: Server, files: map<Name, File>): Server
    requires v.pc.VNameLen? || v.pc.VName? ==> v.io.Receiving?
    requires v.pc.VName? ==> 0 < |v.io.got| <= 250
    requires v.position <= |v.file|
  {
    match v.pc
    case VNameLen => v.(pc := VName, io := Receiving(Decode(v.io.got), []))
    case VName => v.(pc := VInfoLen, io := Sending(Encode(16), 0), file := Content(files, v.io.got))
    case VInfoLen => v.(pc := VInfo, io := Sending(Info(v.file), 0))
    case VInfo => NextChunk(v, ChunkCount(|v.file|))
    case VChunkLen =>
      var chunk := FirstChunk(v.file[v.position..]);
      v.(pc := VChunk, io := Sending(chunk, 0), position := v.position + |chunk|)
    case VChunk => NextChunk(v, v.left - 1)
    case VDone => v
  }

  // ---------- The invariant ----------

  predicate RequestPc(pc: ClientPc) {
    pc.CNameLen? || pc.CName?
  }

  predicate ListenPc(pc: ServerPc) {
    pc.VNameLen? || pc.VName?
  }

  /** The request as it is sent and received, call by call. */
  function RequestPart(first: bool, name: Name): seq<Byte> {
    if first then Encode(|name|) else name
  }

  /** What a receiving call of the client is to find when it has written `at` bytes, and what comes after that. */
  ghost function Target(pc: ClientPc, at: nat, f: File): seq<Byte>
    requires at <= |f|
  {
    match pc
    case CInfoLen => Encode(16)
    case CInfo => Info(f)
    case CChunkLen => Encode(|FirstChunk(f[at..])|)
    case CChunk => FirstChunk(f[at..])
    case _ => []
  }

  ghost function After(pc: ClientPc, at: nat, f: File): seq<Byte>
    requires at <= |f|
  {
    var todo := f[at..];
    match pc
    case CInfoLen => Info(f) + FrameAll(Chunks(f))
    case CInfo => FrameAll(Chunks(f))
    case CChunkLen => FirstChunk(todo) + FrameAll(Chunks(todo[|FirstChunk(todo)|..]))
    case CChunk => FrameAll(Chunks(todo[|FirstChunk(todo)|..]))
    case CDone => []
    case _ => Stream(f)
  }

  /** What the server sends after its current call, when it has read `position` bytes of the file. */
  ghost function Later(pc: ServerPc, position: nat, f: File): seq<Byte>
    requires position <= |f|
  {
    var todo := f[position..];
    match pc
    case VInfoLen => Info(f) + FrameAll(Chunks(f))
    case VInfo => FrameAll(Chunks(f))
    case VChunkLen => FirstChunk(todo) + FrameAll(Chunks(todo[|FirstChunk(todo)|..]))
    case VChunk => FrameAll(Chunks(todo))
    case VDone => []
    case _ => Stream(f)
  }

  /** The call of this size has received the beginning of its target. */
  ghost predicate ReceivingWell(io: Io, target: seq<Byte>) {
    io.Receiving? && io.size == |target| && |io.got| <= |target| && io.got == target[..|io.got|]
  }

  ghost predicate SendingWell(io: Io) {
    io.Sending? && io.sent <= |io.buf|
  }

  /** The variables of the receiving loop. */
  ghost predicate ClientVars(pc: ClientPc, left: int, written: seq<Byte>, f: File) {
    && |written| <= |f| && written == f[..|written|]
    && match pc
       case CDone => |written| == |f|
       case CChunkLen => |written| < |f| && left == ChunkCount(|f| - |written|)
       case CChunk => |written| < |f| && left == ChunkCount(|f| - |written|)
       case _ => written == []
  }

  ghost predicate ClientOk(c: Client, name: Name, f: File) {
    && ClientVars(c.pc, c.left, c.written, f)
    && if RequestPc(c.pc) then SendingWell(c.io) && c.io.buf == RequestPart(c.pc.CNameLen?, name)
       else if c.pc.CDone? then c.io.Idle?
       else ReceivingWell(c.io, Target(c.pc, |c.written|, f))
  }

  /** The variables of the sending loop. */
  ghost predicate ServerVars(pc: ServerPc, file: seq<Byte>, position: nat, left: int, f: File) {
    && position <= |f|
    && (if ListenPc(pc) then position == 0 <= |file| else file == f)
    && match pc
       case VChunkLen => position < |f| && left == ChunkCount(|f| - position)
       case VChunk => left == ChunkCount(|f| - position) + 1
       case VDone => position == |f|
       case _ => position == 0
  }

  /** The buffer of a sending call of the server. */
  ghost predicate ServerBuffer(pc: ServerPc, buf: seq<Byte>, position: nat, f: File)
    requires position <= |f|
  {
    match pc
    case VInfoLen => buf == Encode(16)
    case VInfo => buf == Info(f)
    case VChunkLen => buf == Encode(|FirstChunk(f[position..])|)
    case _ => 1 <= |buf| <= SPLIT_LEN
  }

  ghost predicate ServerOk(v: Server, name: Name, f: File) {
    && ServerVars(v.pc, v.file, v.position, v.left, f)
    && if ListenPc(v.pc) then ReceivingWell(v.io, RequestPart(v.pc.VNameLen?, name))
       else if v.pc.VDone? then v.io.Idle?
       else SendingWell(v.io) && ServerBuffer(v.pc, v.io.buf, v.position, f)
  }

  /** The bytes a call has still to send. */
  function Unsent(io: Io): seq<Byte> {
    if io.Sending? && io.sent <= |io.buf| then io.buf[io.sent..] else []
  }

  /** The part of the target a call has still to receive. */
  function Unread(io: Io, target: seq<Byte>): seq<Byte> {
    if io.Receiving? && |io.got| <= |target| then target[|io.got|..] else []
  }

  /** What follows the present part of the request. */
  function RequestRest(first: bool, name: Name): seq<Byte> {
    if first then name else []
  }

  /** What the client has still to send, and what the server has still to read of the request. */
  ghost function RequestLeft(c: Client, name: Name): seq<Byte> {
    Unsent(c.io) + RequestRest(c.pc.CNameLen?, name)
  }

  ghost function RequestAwaited(v: Server, name: Name): seq<Byte> {
    if ListenPc(v.pc) then Unread(v.io, RequestPart(v.pc.VNameLen?, name)) + RequestRest(v.pc.VNameLen?, name) else []
  }

  /** What the server has still to send of the reply, and what the client has still to read of it. */
  ghost function ReplyLeft(v: Server, f: File): seq<Byte>
    requires v.position <= |f|
  {
    Unsent(v.io) + Later(v.pc, v.position, f)
  }

  ghost function ReplyAwaited(c: Client, f: File): seq<Byte>
    requires |c.written| <= |f|
  {
    Unread(c.io, Target(c.pc, |c.written|, f)) + After(c.pc, |c.written|, f)
  }

  ghost predicate Inv(n: Net, name: Name, f: File) {
    && ClientOk(n.client, name, f)
    && ServerOk(n.server, name, f)
    && n.up + RequestLeft(n.client, name) == RequestAwaited(n.server, name)
    && n.down + ReplyLeft(n.server, f) == ReplyAwaited(n.client, f)
  }
}

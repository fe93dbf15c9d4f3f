/** The two transfer loops, each on its own end of the connection. */
module SyncFiles {
  import opened TransferFrames
  import opened TransferSockets

  class SyncFileTool {
    const socket: EpollSocket
    var file: seq<Byte>    // what the stream reads, or has written
    var position: nat      // where it reads next

    constructor (socket: EpollSocket, file: seq<Byte>)
      ensures this.socket == socket && this.file == file && position == 0
    {
      this.socket, this.file, position := socket, file, 0;
    }

    method ReadFile(buff: array<Byte>, len: nat) returns (count: nat)
      requires len <= buff.Length && position <= |file|
      modifies this`position, buff
      ensures count == if |file| - old(position) <= len then |file| - old(position) else len
      ensures position == old(position) + count && buff[..count] == file[old(position)..position]
    {
      count := if |file| - position <= len then |file| - position else len;
      forall i | 0 <= i < count { buff[i] := file[position + i]; }
      position := position + count;
    }

    method WriteFile(buff: array<Byte>, len: nat)
      requires len <= buff.Length
      modifies this`file
      ensures file == old(file) + buff[..len]
    {
      file := file + buff[..len];
    }

    static lemma {:induction false} FrameFirst(rest: seq<Byte>)
      requires rest != []
      ensures FrameAll(Chunks(rest)) == Frame(FirstChunk(rest)) + FrameAll(Chunks(rest[|FirstChunk(rest)|..]))
    {
      assert Chunks(rest)[1..] == Chunks(rest[|FirstChunk(rest)|..]);
    }

    method SendInfo()
      requires socket.reliable && |file| <= MAX_FILE_LEN
      modifies socket`outgoing, socket`patience
      ensures socket.outgoing == old(socket.outgoing) + Frame(Info(file))
    {
      var info := Info(file);
      var fileInfos := new Byte[16](i requires 0 <= i < 16 => info[i]);
      assert fileInfos[..16] == info;
      var ok := socket.SendBuff(fileInfos, 16);
    }

    /** One iteration of the sending loop. */
    method SendChunk(buff: array<Byte>)
      requires position < |file| && buff.Length == SPLIT_LEN && socket.reliable
      modifies this`position, socket`outgoing, socket`patience, buff
      ensures old(position) < position <= |file|
      ensures file[old(position)..][..position - old(position)] == FirstChunk(file[old(position)..])
      ensures socket.outgoing == old(socket.outgoing) + Frame(FirstChunk(file[old(position)..]))
    {
      var buffLen := ReadFile(buff, SPLIT_LEN);
      assert buff[..buffLen] == FirstChunk(file[old(position)..]);
      var ok := socket.SendBuff(buff, buffLen);
      forall i | 0 <= i < buff.Length { buff[i] := 0; }
    }

    method SendChunks()
      requires position == 0 && socket.reliable
      modifies this`position, socket`outgoing, socket`patience
      ensures socket.outgoing == old(socket.outgoing) + FrameAll(Chunks(file))
    {
      var fileArr := ChunkCount(|file|);
      var buff := new Byte[SPLIT_LEN](_ => 0);
      ghost var goal := old(socket.outgoing) + FrameAll(Chunks(file));
      assert file[position..] == file;
      while fileArr > 0
        invariant position <= |file| && fileArr == ChunkCount(|file| - position)
        invariant socket.outgoing + FrameAll(Chunks(file[position..])) == goal
      {
        fileArr := fileArr - 1;
        ghost var rest, sent := file[position..], socket.outgoing;
        ChunkCountStep(rest);
        FrameFirst(rest);
        SendChunk(buff);
        assert file[position..] == rest[|FirstChunk(rest)|..];
        Assoc(sent, Frame(FirstChunk(rest)), FrameAll(Chunks(file[position..])));
      }
      assert file[position..] == [];
    }

    /** The file goes out as its length, the chunk length and ceil(length / 2048) frames. */
    method SyncSendFile()
      requires position == 0 && |file| <= MAX_FILE_LEN && socket.reliable
      modifies this`position, socket`outgoing, socket`patience
      ensures socket.outgoing == old(socket.outgoing) + Stream(file)
    {
      Assoc(socket.outgoing, Frame(Info(file)), FrameAll(Chunks(file)));
      SendInfo();
      SendChunks();
    }

    method RecvInfo(ghost sent: seq<Byte>, ghost rest: seq<Byte>) returns (fileLen: int, fileSplitLen: int)
      requires socket.reliable && |sent| <= MAX_FILE_LEN && socket.Incoming() == Frame(Info(sent)) + rest
      modifies socket`arrived, socket`coming, socket`patience
      ensures fileLen == |sent| && fileSplitLen == SPLIT_LEN && socket.Incoming() == rest
    {
      var fileInfos := new Byte[16](_ => 0);
      var infoLen := socket.RecvBuff(fileInfos, Info(sent), rest);
      DecodeEncode(|sent|);
      DecodeEncode(SPLIT_LEN);
      assert fileInfos[..8] == Info(sent)[..8] == Encode(|sent|);
      assert fileInfos[8..] == Info(sent)[8..] == Encode(SPLIT_LEN);
      fileLen := Decode(fileInfos[..8]);
      fileSplitLen := Decode(fileInfos[8..]);
    }

    /** One iteration of the receiving loop. */
    method RecvChunk(buff: array<Byte>, ghost chunk: seq<Byte>, ghost rest: seq<Byte>)
      requires buff.Length == SPLIT_LEN >= |chunk| && socket.reliable && socket.Incoming() == Frame(chunk) + rest
      modifies this`file, socket`arrived, socket`coming, socket`patience, buff
      ensures file == old(file) + chunk && socket.Incoming() == rest
    {
      var buffLen := socket.RecvBuff(buff, chunk, rest);
      WriteFile(buff, buffLen);
      forall i | 0 <= i < buff.Length { buff[i] := 0; }
    }

    method RecvChunks(fileLen: int, fileSplitLen: int, ghost sent: seq<Byte>, ghost rest: seq<Byte>)
      requires file == [] && fileLen == |sent| && fileSplitLen == SPLIT_LEN
      requires socket.reliable && socket.Incoming() == FrameAll(Chunks(sent)) + rest
      modifies this`file, socket`arrived, socket`coming, socket`patience
      ensures file == sent && socket.Incoming() == rest
    {
      var fileArr := (fileLen + fileSplitLen - 1) / fileSplitLen;
      var buff := new Byte[fileSplitLen](_ => 0);
      assert sent[|file|..] == sent;
      while fileArr > 0
        invariant |file| <= |sent| && file == sent[..|file|] && fileArr == ChunkCount(|sent| - |file|)
        invariant socket.Incoming() == FrameAll(Chunks(sent[|file|..])) + rest
      {
        fileArr := fileArr - 1;
        ghost var todo := sent[|file|..];
        ghost var chunk := FirstChunk(todo);
        ChunkCountStep(todo);
        FrameFirst(todo);
        ghost var next := FrameAll(Chunks(todo[|chunk|..])) + rest;
        Assoc(Frame(chunk), FrameAll(Chunks(todo[|chunk|..])), rest);
        RecvChunk(buff, chunk, next);
        assert sent[|file|..] == todo[|chunk|..];
      }
      assert sent[|file|..] == [];
    }

    /** Receiving writes exactly the file that was sent, and consumes exactly its stream. */
    method SyncRecvFile(filename: array<Byte>, len: nat, ghost sent: seq<Byte>, ghost rest: seq<Byte>)
      requires file == [] && len <= filename.Length && FitsInt64(len) && |sent| <= MAX_FILE_LEN
      requires socket.reliable && socket.Incoming() == Stream(sent) + rest
      modifies this`file, socket`outgoing, socket`arrived, socket`coming, socket`patience
      ensures file == sent && socket.Incoming() == rest
      ensures socket.outgoing == old(socket.outgoing) + Frame(filename[..len])
    {
      var ok := socket.SendBuff(filename, len);
      ghost var frames := FrameAll(Chunks(sent)) + rest;
      Assoc(Frame(Info(sent)), FrameAll(Chunks(sent)), rest);
      var fileLen, fileSplitLen := RecvInfo(sent, frames);
      RecvChunks(fileLen, fileSplitLen, sent, rest);
    }
  }
}

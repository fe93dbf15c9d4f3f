/**
 One end of the connection, with the loops that send and receive exactly a given number of bytes. The kernel decides
 freely how many bytes each call moves and how often it answers EAGAIN, but not for ever: `patience` is how often.
 When `reliable`, it reports no other error. What the peer sends arrives bit by bit, while calls go on.
 */
module TransferSockets {
  import opened TransferFrames

  class EpollSocket {
    var outgoing: seq<Byte>  // everything sent
    var arrived: seq<Byte>   // not yet received
    var coming: seq<Byte>    // what the peer has sent or is still to send; it arrives while calls go on
    var patience: nat
    const reliable: bool

    constructor (coming: seq<Byte>, patience: nat, reliable: bool)
      ensures outgoing == [] && Incoming() == coming && this.reliable == reliable
    {
      this.outgoing, this.arrived, this.coming := [], [], coming;
      this.patience, this.reliable := patience, reliable;
    }

    /** All that is still to be received, whether it has arrived or not. */
    ghost function Incoming(): seq<Byte>
      reads this`arrived, this`coming
    {
      arrived + coming
    }

    /** ::send. */
    method Send(buf: array<Byte>, from: nat, n: nat) returns (bytes: int, again: bool)
      requires from + n <= buf.Length
      modifies this`outgoing, this`patience
      ensures -1 <= bytes <= n
      ensures outgoing == old(outgoing) + if bytes >= 0 then buf[from..from + bytes] else []
      ensures patience <= old(patience) && (again ==> bytes < 0 && patience < old(patience))
      ensures n == 0 ==> bytes == 0 || again
      ensures reliable && n > 0 && bytes <= 0 ==> again
    {
      again := false;
      bytes := if n == 0 then 0 else -1;
      var interrupted, failed: bool := *, *;
      if patience > 0 && interrupted {
        patience := patience - 1;
        return -1, true;
      }
      if n > 0 && (reliable || !failed) {
        bytes :| 1 <= bytes <= n;
      }
      if bytes > 0 { outgoing := outgoing + buf[from..from + bytes]; }
    }

    /** Some more bytes arrive, at least `least` of them. */
    method Arrive(least: nat)
      requires least <= |coming|
      modifies this`arrived, this`coming
      ensures Incoming() == old(Incoming()) && |arrived| >= |old(arrived)| + least
    {
      var n: nat :| least <= n <= |coming|;
      assert coming == coming[..n] + coming[n..];
      arrived, coming := arrived + coming[..n], coming[n..];
    }

    /**
     ::recv. It gives out some of the bytes that have arrived; while there are none, a reliable connection waits, or
     answers EAGAIN until it is out of patience.
     */
    method Recv(buf: array<Byte>, from: nat, n: nat) returns (bytes: int, again: bool)
      requires from + n <= buf.Length
      modifies this`arrived, this`coming, this`patience, buf
      ensures -1 <= bytes <= n && bytes <= |old(Incoming())|
      ensures Incoming() == if bytes >= 0 then old(Incoming())[bytes..] else old(Incoming())
      ensures forall i :: 0 <= i < bytes ==> buf[from + i] == old(Incoming())[i]
      ensures forall i :: 0 <= i < buf.Length && !(from <= i < from + bytes) ==> buf[i] == old(buf[i])
      ensures patience <= old(patience) && (again ==> bytes < 0 && patience < old(patience))
      ensures n == 0 ==> bytes == 0 || again
      ensures reliable && n > 0 && old(Incoming()) != [] && bytes <= 0 ==> again
    {
      again := false;
      bytes := if n == 0 then 0 else -1;
      var interrupted, failed: bool := *, *;
      if patience > 0 && interrupted {
        patience := patience - 1;
        return -1, true;
      }
      Arrive(if arrived == [] && coming != [] then 1 else 0);
      if n > 0 && arrived != [] && (reliable || !failed) {
        var available := if n <= |arrived| then n else |arrived|;
        bytes :| 1 <= bytes <= available;
      }
      if bytes > 0 {
        forall i | 0 <= i < bytes { buf[from + i] := arrived[i]; }
        arrived := arrived[bytes..];
      }
    }

    method SendSocket(buf: array<Byte>, dataSize: nat) returns (ret: int)
      requires dataSize <= buf.Length
      modifies this`outgoing, this`patience
      ensures ret == 0 || ret == -1
      ensures ret == 0 ==> outgoing == old(outgoing) + buf[..dataSize]
      ensures ret == -1 ==> exists n :: 0 <= n < dataSize && outgoing == old(outgoing) + buf[..n]
      ensures reliable ==> ret == 0
    {
      var sendNums, sendRemainNums := 0, dataSize;
      while true
        invariant sendNums + sendRemainNums == dataSize && (sendRemainNums > 0 || sendNums == 0)
        invariant outgoing == old(outgoing) + buf[..sendNums]
        decreases sendRemainNums, patience
      {
        var bytesSend, again := Send(buf, sendNums, sendRemainNums);
        assert bytesSend >= 0 ==> buf[..sendNums] + buf[sendNums..sendNums + bytesSend] == buf[..sendNums + bytesSend];
        if bytesSend == sendRemainNums {
          return 0;
        } else if bytesSend > 0 {
          sendNums := sendNums + bytesSend;
          sendRemainNums := sendRemainNums - bytesSend;
        } else if bytesSend < 0 && again {
        } else {
          assert outgoing == old(outgoing) + buf[..sendNums];
          return -1;
        }
      }
    }

    method RecvSocket(buf: array<Byte>, dataSize: nat) returns (ret: int)
      requires dataSize <= buf.Length && (reliable ==> dataSize <= |Incoming()|)
      modifies this`arrived, this`coming, this`patience, buf
      ensures ret == 0 || ret == -1
      ensures ret == 0 ==> dataSize <= |old(Incoming())| && Incoming() == old(Incoming())[dataSize..]
      ensures ret == 0 ==> buf[..dataSize] == old(Incoming())[..dataSize]
      ensures forall i :: dataSize <= i < buf.Length ==> buf[i] == old(buf[i])
      ensures reliable ==> ret == 0
    {
      var recvNums, recvRemainNums := 0, dataSize;
      while true
        invariant recvNums + recvRemainNums == dataSize && (recvRemainNums > 0 || recvNums == 0)
        invariant recvNums <= |old(Incoming())| && Incoming() == old(Incoming())[recvNums..]
        invariant forall i :: 0 <= i < recvNums ==> buf[i] == old(Incoming())[i]
        invariant forall i :: dataSize <= i < buf.Length ==> buf[i] == old(buf[i])
        decreases recvRemainNums, patience
      {
        var bytesRead, again := Recv(buf, recvNums, recvRemainNums);
        assert forall i :: recvNums <= i < recvNums + bytesRead ==> buf[i] == old(Incoming())[recvNums..][i - recvNums];
        if bytesRead == recvRemainNums {
          return 0;
        } else if bytesRead > 0 {
          recvNums := recvNums + bytesRead;
          recvRemainNums := recvRemainNums - bytesRead;
        } else if bytesRead < 0 && again {
        } else {
          return -1;
        }
      }
    }

    method SendBuff(buf: array<Byte>, len: nat) returns (ok: bool)
      requires len <= buf.Length && FitsInt64(len)
      modifies this`outgoing, this`patience
      ensures ok ==> outgoing == old(outgoing) + Frame(buf[..len])
      ensures reliable ==> ok
    {
      var header := Encode(len);
      var sendLen := new Byte[8](i requires 0 <= i < 8 => header[i]);
      assert sendLen[..8] == header;
      var retLen := SendSocket(sendLen, 8);
      var retBuff := SendSocket(buf, len);
      ok := retBuff >= 0 && retLen >= 0;
    }

    /** Receiving one frame fills the buffer with the message and consumes no byte of what follows. */
    method RecvBuff(buf: array<Byte>, ghost message: seq<Byte>, ghost rest: seq<Byte>) returns (recvLen: int)
      requires reliable && Incoming() == Frame(message) + rest && |message| <= buf.Length && FitsInt64(|message|)
      modifies this`arrived, this`coming, this`patience, buf
      ensures recvLen == |message| && buf[..recvLen] == message && Incoming() == rest
    {
      UnframeFrame(message, rest);
      var header := new Byte[8](_ => 0);
      var retLen := RecvSocket(header, 8);
      assert header[..8] == header[..] == Encode(|message|);
      recvLen := Decode(header[..]);
      assert Incoming() == message + rest;
      var retBuff := RecvSocket(buf, recvLen);
    }
  }
}

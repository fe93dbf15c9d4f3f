/** What goes over the socket: 8-byte lengths, frames, and a file cut into chunks. */
module TransferFrames {

  type Byte = b: int | 0 <= b < 256

  const TWO_64 := 0x1_0000_0000_0000_0000
  const TWO_63 := 0x8000_0000_0000_0000
  const SPLIT_LEN := 2048

  /** Up to here the number of chunks fits the `int` both sides keep it in, and the division in `double` is exact. */
  const MAX_FILE_LEN := SPLIT_LEN * 0x7fff_ffff

  // ---------- int64_t in memory: two's complement, least significant byte first ----------

  function Power256(k: nat): nat {
    if k == 0 then 1 else 256 * Power256(k - 1)
  }

  function Digits(n: nat, k: nat): (bytes: seq<Byte>)
    ensures |bytes| == k
  {
    if k == 0 then [] else [n % 256] + Digits(n / 256, k - 1)
  }

  function Number(bytes: seq<Byte>): nat {
    if bytes == [] then 0 else bytes[0] + 256 * Number(bytes[1..])
  }

  lemma {:induction false} NumberOfDigits(n: nat, k: nat)
    requires n < Power256(k)
    ensures Number(Digits(n, k)) == n
  {
    if k > 0 {
      assert n / 256 < Power256(k - 1);
      NumberOfDigits(n / 256, k - 1);
      assert Digits(n, k)[1..] == Digits(n / 256, k - 1);
    }
  }

  predicate FitsInt64(x: int) {
    -TWO_63 <= x < TWO_63
  }

  function Encode(x: int): (bytes: seq<Byte>)
    ensures |bytes| == 8
  {
    Digits(x % TWO_64, 8)
  }

  function Decode(bytes: seq<Byte>): int {
    var n := Number(bytes);
    if n >= TWO_63 then n - TWO_64 else n
  }

  lemma {:induction false} DecodeEncode(x: int)
    requires FitsInt64(x)
    ensures Decode(Encode(x)) == x
  {
    assert Power256(8) == TWO_64 by {
      assert Power256(1) == 256 && Power256(2) == 0x1_0000 && Power256(4) == 0x1_0000_0000;
      assert Power256(6) == 0x1_0000_0000_0000;
    }
    NumberOfDigits(x % TWO_64, 8);
  }

  lemma {:induction false} DigitIs(n: nat, k: nat, i: nat)
    requires i < k
    ensures Power256(i) > 0 && Digits(n, k)[i] == n / Power256(i) % 256
  {
    if i > 0 {
      DigitIs(n / 256, k - 1, i - 1);
      DivideTwice(n, Power256(i - 1));
      assert Digits(n, k)[1..] == Digits(n / 256, k - 1);
    }
  }

  lemma {:induction false} DivideTwice(n: nat, d: nat)
    requires d > 0
    ensures n / (256 * d) == n / 256 / d
  {
    var q, r := n / 256, n % 256;
    var a, b := q / d, q % d;
    DivMod(q, d);
    Regrouped(n, d, q, r, a, b);
    QuotientIs(n, 256 * d, a, 256 * b + r);
  }

  lemma {:induction false} Regrouped(n: nat, d: nat, q: nat, r: nat, a: nat, b: nat)
    requires n == 256 * q + r && q == d * a + b && r < 256 && b < d
    ensures n == (256 * d) * a + (256 * b + r) && 256 * b + r < 256 * d
  {
  }

  lemma {:induction false} DivMod(n: nat, d: nat)
    requires d > 0
    ensures n == d * (n / d) + n % d && 0 <= n % d < d && n / d >= 0
  {
  }

  lemma {:induction false} ProductGap(d: nat, p: nat, q: nat)
    requires p < q
    ensures d * p + d <= d * q
  {
    if p + 1 < q { ProductGap(d, p, q - 1); }
    assert d * q == d * (q - 1) + d;
  }

  lemma {:induction false} QuotientIsUnique(d: nat, p: nat, s: nat, q: nat, r: nat)
    requires d * p + s == d * q + r && s < d && r < d
    ensures p == q
  {
    if p < q { ProductGap(d, p, q); } else if q < p { ProductGap(d, q, p); }
  }

  lemma {:induction false} QuotientIs(n: nat, d: nat, q: nat, r: nat)
    requires n == d * q + r && r < d
    ensures n / d == q
  {
    DivMod(n, d);
    QuotientIsUnique(d, n / d, n % d, q, r);
  }

  lemma {:induction false} Unsigned(x: int)
    requires FitsInt64(x)
    ensures x % TWO_64 == if x >= 0 then x else x + 0x1_0000_0000_0000_0000
  {
  }

  /** The bytes of a length, least significant first; a negative one as its two's complement in 64 bits. */
  lemma {:induction false} EncodeBytes(x: int, i: nat)
    requires FitsInt64(x) && i < 8
    ensures Power256(i) > 0
    ensures Encode(x)[i] == (if x >= 0 then x else x + 0x1_0000_0000_0000_0000) / Power256(i) % 256
  {
    hide Digits, Power256;
    Unsigned(x);
    DigitIs(x % TWO_64, 8, i);
  }

  // ---------- Frames ----------

  lemma {:induction false} Assoc(a: seq<Byte>, b: seq<Byte>, c: seq<Byte>)
    ensures (a + b) + c == a + (b + c)
  {
  }

  /** SendBuff: the length, then the bytes. */
  function Frame(message: seq<Byte>): seq<Byte> {
    Encode(|message|) + message
  }

  function FrameAll(messages: seq<seq<Byte>>): seq<Byte> {
    if messages == [] then [] else Frame(messages[0]) + FrameAll(messages[1..])
  }

  /** RecvBuff on a stream: the message and what is left of the stream. */
  function Unframe(stream: seq<Byte>): (seq<Byte>, seq<Byte>)
    requires |stream| >= 8 && 0 <= Decode(stream[..8]) <= |stream| - 8
  {
    var len := Decode(stream[..8]);
    (stream[8..8 + len], stream[8 + len..])
  }

  /** Reading one frame consumes that frame and no byte of what follows. */
  lemma {:induction false} UnframeFrame(message: seq<Byte>, rest: seq<Byte>)
    requires |message| < TWO_63
    ensures var s := Frame(message) + rest;
            && |s| >= 8 && Decode(s[..8]) == |message|
            && Unframe(s) == (message, rest)
  {
    DecodeEncode(|message|);
    var s := Frame(message) + rest;
    assert s[..8] == Encode(|message|);
    assert s[8..8 + |message|] == message && s[8 + |message|..] == rest;
  }

  // ---------- Chunks ----------

  /** ceil(len / 2048), the number of frames both sides compute from the file length. */
  function ChunkCount(len: nat): nat {
    (len + SPLIT_LEN - 1) / SPLIT_LEN
  }

  /** ReadFile with a full buffer. */
  function FirstChunk(file: seq<Byte>): seq<Byte> {
    if |file| <= SPLIT_LEN then file else file[..SPLIT_LEN]
  }

  function Chunks(file: seq<Byte>): seq<seq<Byte>> {
    if file == [] then [] else [FirstChunk(file)] + Chunks(file[|FirstChunk(file)|..])
  }

  function Concat(parts: seq<seq<Byte>>): seq<Byte> {
    if parts == [] then [] else parts[0] + Concat(parts[1..])
  }

  function Total(parts: seq<seq<Byte>>): nat {
    if parts == [] then 0 else |parts[0]| + Total(parts[1..])
  }

  lemma {:induction false} ChunkCountStep(file: seq<Byte>)
    requires file != []
    ensures ChunkCount(|file|) == 1 + ChunkCount(|file| - |FirstChunk(file)|)
    ensures 1 <= |FirstChunk(file)| <= SPLIT_LEN
  {
  }

  /**
   Both sides agree on ceil(len / 2048) chunks; their lengths are 2048 but for a last one of 1 .. 2048, they sum to
   the length of the file, and together they are the file.
   */
  lemma {:induction false} ChunksCoverFile(file: seq<Byte>)
    ensures |Chunks(file)| == ChunkCount(|file|) == (|file| + 2047) / 2048
    ensures Concat(Chunks(file)) == file && Total(Chunks(file)) == |file|
    ensures forall i :: 0 <= i < |Chunks(file)| ==> 1 <= |Chunks(file)[i]| <= 2048
    ensures forall i :: 0 <= i < |Chunks(file)| - 1 ==> |Chunks(file)[i]| == 2048
    decreases |file|
  {
    if file != [] {
      ChunkCountStep(file);
      var c := FirstChunk(file);
      ChunksCoverFile(file[|c|..]);
      assert Chunks(file)[1..] == Chunks(file[|c|..]);
      assert c + file[|c|..] == file;
    }
  }

  /** The stream of one transfer after the request: the two numbers, then the chunks. */
  function Info(file: seq<Byte>): seq<Byte> {
    Encode(|file|) + Encode(SPLIT_LEN)
  }

  /** The first frame tells the length of the file, then the length of a chunk. */
  lemma {:induction false} InfoTells(file: seq<Byte>)
    requires FitsInt64(|file|)
    ensures |Info(file)| == 16 && Decode(Info(file)[..8]) == |file| && Decode(Info(file)[8..]) == 2048
  {
    DecodeEncode(|file|);
    DecodeEncode(SPLIT_LEN);
    assert Info(file)[..8] == Encode(|file|) && Info(file)[8..] == Encode(SPLIT_LEN);
  }

  function Stream(file: seq<Byte>): seq<Byte> {
    Frame(Info(file)) + FrameAll(Chunks(file))
  }

  /** Any sequence of messages comes back from the stream of its frames, in order and whole. */
  ghost predicate Parses(stream: seq<Byte>, messages: seq<seq<Byte>>, rest: seq<Byte>)
    decreases |messages|
  {
    if messages == [] then stream == rest
    else
      && |stream| >= 8
      && 0 <= Decode(stream[..8]) <= |stream| - 8
      && Unframe(stream).0 == messages[0]
      && Parses(Unframe(stream).1, messages[1..], rest)
  }

  lemma {:induction false} FramesRoundTrip(messages: seq<seq<Byte>>, rest: seq<Byte>)
    requires forall i :: 0 <= i < |messages| ==> |messages[i]| < TWO_63
    ensures Parses(FrameAll(messages) + rest, messages, rest)
    decreases |messages|
  {
    if messages == [] {
      assert [] + rest == rest;
    } else {
      var tail := FrameAll(messages[1..]) + rest;
      assert FrameAll(messages) + rest == Frame(messages[0]) + tail;
      UnframeFrame(messages[0], tail);
      FramesRoundTrip(messages[1..], rest);
    }
  }
}

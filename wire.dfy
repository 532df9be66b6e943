/**
 * The `Networkable` encoders and decoders of `src/net_chess.rs`, over byte
 * sequences instead of a TCP stream. A decoder returns what it read together
 * with the part of the stream it left unread; a short read fails like
 * `read_exact` at end of stream, having consumed everything that was left.
 */
module Wire {
  import opened Common
  import opened Chess

  /** The two ways reading a value can fail: the stream ended, or a tag byte named no packet (`BadPacketError`). */
  datatype PacketError = ReadFailed | BadPacket

  /** The outcome of one read: the value or the error, and the input still unread. */
  datatype Decoded<T> = Decoded(result: Result<T, PacketError>, rest: seq<byte>)

  // ---------------------------------------------------------------------------
  // BoardPosition: two bytes, file then rank
  // ---------------------------------------------------------------------------

  function SerializePos(p: Pos): (r: seq<byte>)
    ensures |r| == 2 && r[0] == p.x && r[1] == p.y
  {
    [p.x, p.y]
  }

  /** Reads two bytes; fewer than two left is a read failure. */
  function DeserializePos(s: seq<byte>): (r: Decoded<Pos>)
    ensures r.result.Ok? <==> |s| >= 2
    ensures r.result.Ok? ==> s == SerializePos(r.result.value) + r.rest
    ensures r.result.Err? ==> r.result.error == ReadFailed && r.rest == []
  {
    if |s| < 2 then Decoded(Err(ReadFailed), [])
    else Decoded(Ok(Pos(s[0], s[1])), s[2..])
  }

  lemma PosRoundTrip(p: Pos, rest: seq<byte>)
    ensures DeserializePos(SerializePos(p) + rest) == Decoded(Ok(p), rest)
  {
    var s := SerializePos(p) + rest;
    assert s[2..] == rest;
  }

  // ---------------------------------------------------------------------------
  // (): nothing on the wire
  // ---------------------------------------------------------------------------

  function SerializeUnit(u: ()): (r: seq<byte>)
    ensures r == []
  {
    []
  }

  /** Reads nothing and never fails. */
  function DeserializeUnit(s: seq<byte>): (r: Decoded<()>)
    ensures r.result.Ok? && r.rest == s
  {
    Decoded(Ok(()), s)
  }

  // ---------------------------------------------------------------------------
  // (T, T): the first component, then the second
  // ---------------------------------------------------------------------------

  function SerializePair<T>(ser: T -> seq<byte>, pair: (T, T)): (r: seq<byte>)
    ensures |r| == |ser(pair.0)| + |ser(pair.1)|
    ensures r[..|ser(pair.0)|] == ser(pair.0) && r[|ser(pair.0)|..] == ser(pair.1)
  {
    ser(pair.0) + ser(pair.1)
  }

  /** Reads the first component, then the second; the first failure is the result. */
  function DeserializePair<T>(de: seq<byte> -> Decoded<T>, s: seq<byte>): (r: Decoded<(T, T)>)
    ensures de(s).result.Err? ==> r == Decoded(Err(de(s).result.error), de(s).rest)
    ensures de(s).result.Ok? && de(de(s).rest).result.Err? ==>
      r == Decoded(Err(de(de(s).rest).result.error), de(de(s).rest).rest)
    ensures de(s).result.Ok? && de(de(s).rest).result.Ok? ==>
      r == Decoded(Ok((de(s).result.value, de(de(s).rest).result.value)), de(de(s).rest).rest)
    ensures r.result.Ok? <==> de(s).result.Ok? && de(de(s).rest).result.Ok?
  {
    var first := de(s);
    match first.result
    case Err(e) => Decoded(Err(e), first.rest)
    case Ok(a) =>
      var second := de(first.rest);
      match second.result
      case Err(e) => Decoded(Err(e), second.rest)
      case Ok(b) => Decoded(Ok((a, b)), second.rest)
  }

  /** Whenever the component codec round-trips, so does the pair codec. */
  lemma PairRoundTrip<T>(ser: T -> seq<byte>, de: seq<byte> -> Decoded<T>, pair: (T, T), rest: seq<byte>)
    requires forall x, tail :: de(ser(x) + tail) == Decoded(Ok(x), tail)
    ensures DeserializePair(de, SerializePair(ser, pair) + rest) == Decoded(Ok(pair), rest)
  {
    assert SerializePair(ser, pair) + rest == ser(pair.0) + (ser(pair.1) + rest);
    assert de(ser(pair.0) + (ser(pair.1) + rest)) == Decoded(Ok(pair.0), ser(pair.1) + rest);
    assert de(ser(pair.1) + rest) == Decoded(Ok(pair.1), rest);
  }

  // ---------------------------------------------------------------------------
  // usize: eight bytes, most significant first
  // ---------------------------------------------------------------------------

  /** A 64-bit `usize`. */
  type usize = x: int | 0 <= x < 0x1_0000_0000_0000_0000

  function Pow256(n: nat): (r: nat)
    ensures r >= 1
  {
    if n == 0 then 1 else 256 * Pow256(n - 1)
  }

  /** The reference reading of a byte string as a big-endian number. */
  function FromBigEndian(s: seq<byte>): nat {
    if s == [] then 0 else FromBigEndian(s[..|s| - 1]) * 256 + s[|s| - 1]
  }

  /** The low `n` bytes of `x`, most significant first (`to_be_bytes` for `n == 8`). */
  function ToBigEndian(x: nat, n: nat): (r: seq<byte>)
    ensures |r| == n
  {
    if n == 0 then [] else ToBigEndian(x / 256, n - 1) + [x % 256]
  }

  lemma {:induction false} FromBigEndianBound(s: seq<byte>)
    ensures FromBigEndian(s) < Pow256(|s|)
  {
    if s != [] {
      var init := s[..|s| - 1];
      FromBigEndianBound(init);
      assert FromBigEndian(init) + 1 <= Pow256(|s| - 1);
      assert FromBigEndian(s) == FromBigEndian(init) * 256 + s[|s| - 1];
    }
  }

  lemma {:induction false} FromToBigEndian(x: nat, n: nat)
    requires x < Pow256(n)
    ensures FromBigEndian(ToBigEndian(x, n)) == x
  {
    if n > 0 {
      var s := ToBigEndian(x, n);
      assert s[..n - 1] == ToBigEndian(x / 256, n - 1);
      assert x / 256 < Pow256(n - 1);
      FromToBigEndian(x / 256, n - 1);
    }
  }

  lemma {:induction false} ToFromBigEndian(s: seq<byte>)
    ensures ToBigEndian(FromBigEndian(s), |s|) == s
  {
    if s != [] {
      var init := s[..|s| - 1];
      var x := FromBigEndian(s);
      assert x == FromBigEndian(init) * 256 + s[|s| - 1];
      assert x / 256 == FromBigEndian(init) && x % 256 == s[|s| - 1];
      ToFromBigEndian(init);
      assert s == init + [s[|s| - 1]];
    }
  }

  /** `usize::to_be_bytes`: exactly eight bytes, which read big-endian give back the number. */
  function SerializeUsize(x: usize): (r: seq<byte>)
    ensures |r| == 8 && FromBigEndian(r) == x
  {
    FromToBigEndian(x, 8);
    ToBigEndian(x, 8)
  }

  /** Reads eight bytes as `usize::from_be_bytes`; fewer than eight left is a read failure. */
  function DeserializeUsize(s: seq<byte>): (r: Decoded<usize>)
    ensures r.result.Ok? <==> |s| >= 8
    ensures r.result.Ok? ==> s == SerializeUsize(r.result.value) + r.rest
    ensures r.result.Err? ==> r.result.error == ReadFailed && r.rest == []
  {
    if |s| < 8 then Decoded(Err(ReadFailed), [])
    else
      var word := s[..8];
      FromBigEndianBound(word);
      ToFromBigEndian(word);
      assert s == word + s[8..];
      Decoded(Ok(FromBigEndian(word)), s[8..])
  }

  lemma UsizeRoundTrip(x: usize, rest: seq<byte>)
    ensures DeserializeUsize(SerializeUsize(x) + rest) == Decoded(Ok(x), rest)
  {
    var s := SerializeUsize(x) + rest;
    assert s[..8] == SerializeUsize(x) && s[8..] == rest;
    assert FromBigEndian(s[..8]) == x;
  }

  // ---------------------------------------------------------------------------
  // Packet: a tag byte and its payload
  // ---------------------------------------------------------------------------

  datatype Packet = Move(from: Pos, to: Pos) | AckMove | RejMove

  /** Tag 0 followed by both positions, or the lone tag 1 or 2. */
  function SerializePacket(p: Packet): (r: seq<byte>)
    ensures p.Move? ==> r == [0, p.from.x, p.from.y, p.to.x, p.to.y]
    ensures p.AckMove? ==> r == [1]
    ensures p.RejMove? ==> r == [2]
  {
    match p
    case Move(from, to) => [0] + SerializePos(from) + SerializePos(to)
    case AckMove => [1]
    case RejMove => [2]
  }

  /**
   * `Packet::deserialize`: a tag byte, then for tag 0 two positions. An empty
   * stream or a short Move payload is a read failure that consumes the rest;
   * any tag above 2 is `BadPacketError` after consuming just that byte.
   */
  function DeserializePacket(s: seq<byte>): (r: Decoded<Packet>)
    ensures r.result.Ok? ==> s == SerializePacket(r.result.value) + r.rest
    ensures r.result == Err(BadPacket) <==> |s| >= 1 && s[0] > 2
    ensures r.result == Err(BadPacket) ==> r.rest == s[1..]
    ensures r.result == Err(ReadFailed) <==> |s| == 0 || (s[0] == 0 && |s| < 5)
    ensures r.result == Err(ReadFailed) ==> r.rest == []
  {
    if |s| == 0 then Decoded(Err(ReadFailed), [])
    else if s[0] == 0 then
      var first := DeserializePos(s[1..]);
      match first.result
      case Err(e) => Decoded(Err(e), first.rest)
      case Ok(from) =>
        var second := DeserializePos(first.rest);
        match second.result
        case Err(e) => Decoded(Err(e), second.rest)
        case Ok(to) =>
          assert s == [0] + SerializePos(from) + SerializePos(to) + second.rest;
          Decoded(Ok(Move(from, to)), second.rest)
    else if s[0] == 1 then Decoded(Ok(AckMove), s[1..])
    else if s[0] == 2 then Decoded(Ok(RejMove), s[1..])
    else Decoded(Err(BadPacket), s[1..])
  }

  /** Decoding an encoded packet gives the packet back and consumes exactly its bytes. */
  lemma PacketRoundTrip(p: Packet, rest: seq<byte>)
    ensures DeserializePacket(SerializePacket(p) + rest) == Decoded(Ok(p), rest)
  {
    var s := SerializePacket(p) + rest;
    var r := DeserializePacket(s);
    match p
    case Move(from, to) =>
      assert s[1..] == SerializePos(from) + (SerializePos(to) + rest);
      PosRoundTrip(from, SerializePos(to) + rest);
      PosRoundTrip(to, rest);
    case AckMove =>
      assert s[1..] == rest;
    case RejMove =>
      assert s[1..] == rest;
  }

  /** A successful decode consumes at least the tag byte, so a reading loop makes progress. */
  lemma DecodeProgress(s: seq<byte>)
    ensures DeserializePacket(s).result.Ok? ==> |DeserializePacket(s).rest| < |s|
  {
    var r := DeserializePacket(s);
    if r.result.Ok? {
      assert |SerializePacket(r.result.value)| >= 1;
    }
  }
}

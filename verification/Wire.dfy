// The peer wire protocol of crates/peer/src/protocol.rs: BEP 3 "peer messages" and the extended message of
// BEP 10. A stream is what is still to be read of it.
module Wire {
  import opened Prelude

  datatype Handshake = Handshake(infoHash: bytes, peerId: bytes, extensions: bytes)

  datatype Message =
    | KeepAlive
    | Choke
    | Unchoke
    | Interested
    | NotInterested
    | Have(index: nat)
    | Bitfield(bits: bytes)
    | Request(index: nat, begin: nat, length: nat)
    | Piece(index: nat, begin: nat, block: bytes)
    | Cancel(index: nat, begin: nat, length: nat)
    | Extended(msgId: byte, payload: bytes)
    | Port(port: nat)
    | Unknown(id: byte, data: bytes)

  datatype ReadError =
    | UnexpectedEof
    | InvalidData
    | LengthUnderflow // the program's `len - 9` on a shorter length: a panic

  // b"\x13BitTorrent protocol"
  const HANDSHAKE_PREFIX: bytes :=
    [19, 66, 105, 116, 84, 111, 114, 114, 101, 110, 116, 32, 112, 114, 111, 116, 111, 99, 111, 108]

  // --- big-endian integers ---

  function Be32(n: nat): bytes { [n / 0x100_0000 % 256, n / 0x1_0000 % 256, n / 0x100 % 256, n % 256] }

  function FromBe32(b: bytes): nat
    requires |b| == 4
  {
    (b[0] as int) * 0x100_0000 + (b[1] as int) * 0x1_0000 + (b[2] as int) * 0x100 + (b[3] as int)
  }

  function Be16(n: nat): bytes { [n / 0x100 % 256, n % 256] }

  function FromBe16(b: bytes): nat
    requires |b| == 2
  {
    (b[0] as int) * 0x100 + (b[1] as int)
  }

  lemma Be32Inverse(n: nat)
    requires n < U32
    ensures FromBe32(Be32(n)) == n
  {
    var a := n / 0x100;
    var b := a / 0x100;
    assert n / 0x1_0000 == b && n / 0x100_0000 == b / 0x100 < 0x100;
    assert n == a * 0x100 + n % 0x100 && a == b * 0x100 + a % 0x100 && b == b / 0x100 * 0x100 + b % 0x100;
  }

  lemma FromBe32Inverse(b: bytes)
    requires |b| == 4
    ensures FromBe32(b) < U32 && Be32(FromBe32(b)) == b
  {
    var n := FromBe32(b);
    var x: int, y: int, z: int, w: int := b[0], b[1], b[2], b[3];
    LastByte(x * 0x1_0000 + y * 0x100 + z, w, n);
    LastByte(x * 0x100 + y, z, n / 0x100);
    LastByte(x, y, n / 0x100 / 0x100);
    assert n / 0x1_0000 == n / 0x100 / 0x100 && n / 0x100_0000 == n / 0x100 / 0x100 / 0x100;
    assert x % 256 == x;
  }

  lemma LastByte(high: int, low: int, n: int)
    requires 0 <= low < 256 && n == high * 256 + low
    ensures n / 256 == high && n % 256 == low
  {
  }

  lemma Be16Inverse(n: nat)
    requires n < 0x1_0000
    ensures FromBe16(Be16(n)) == n
  {
  }

  // --- frames ---

  // What the field types of a message guarantee, and that its length field fits a u32 and its id is not one of
  // the named messages'.
  predicate WellFormed(m: Message) {
    && 1 + |Payload(m)| < U32
    && match m
       case Have(index) => index < U32
       case Request(index, begin, length) => index < U32 && begin < U32 && length < U32
       case Piece(index, begin, _) => index < U32 && begin < U32
       case Cancel(index, begin, length) => index < U32 && begin < U32 && length < U32
       case Port(port) => port < 0x1_0000
       case Unknown(id, _) => id > 9 && id != 20
       case _ => true
  }

  function Id(m: Message): byte {
    match m
    case KeepAlive => 0 // has none
    case Choke => 0
    case Unchoke => 1
    case Interested => 2
    case NotInterested => 3
    case Have(_) => 4
    case Bitfield(_) => 5
    case Request(_, _, _) => 6
    case Piece(_, _, _) => 7
    case Cancel(_, _, _) => 8
    case Port(_) => 9
    case Extended(_, _) => 20
    case Unknown(id, _) => id
  }

  function Payload(m: Message): bytes {
    match m
    case Have(index) => Be32(index)
    case Bitfield(bits) => bits
    case Request(index, begin, length) => Be32(index) + Be32(begin) + Be32(length)
    case Piece(index, begin, block) => Be32(index) + Be32(begin) + block
    case Cancel(index, begin, length) => Be32(index) + Be32(begin) + Be32(length)
    case Extended(msgId, payload) => [msgId] + payload
    case Port(port) => Be16(port)
    case Unknown(_, data) => data
    case _ => []
  }

  // The big-endian digits of `n` in base 256.
  predicate BigEndian(n: nat, b: bytes) {
    if b == [] then n == 0 else n % 256 == b[|b| - 1] && BigEndian(n / 256, b[..|b| - 1])
  }

  // The bytes of each message as BEP 3 and BEP 10 give them.
  predicate Spells(m: Message, f: bytes) {
    match m
    case KeepAlive => f == [0, 0, 0, 0]
    case Choke => f == [0, 0, 0, 1, 0]
    case Unchoke => f == [0, 0, 0, 1, 1]
    case Interested => f == [0, 0, 0, 1, 2]
    case NotInterested => f == [0, 0, 0, 1, 3]
    case Have(index) => |f| == 9 && f[..5] == [0, 0, 0, 5, 4] && BigEndian(index, f[5..9])
    case Bitfield(bits) => |f| >= 5 && BigEndian(1 + |bits|, f[..4]) && f[4] == 5 && f[5..] == bits
    case Request(index, begin, length) =>
      && |f| == 17 && f[..5] == [0, 0, 0, 13, 6]
      && BigEndian(index, f[5..9]) && BigEndian(begin, f[9..13]) && BigEndian(length, f[13..17])
    case Piece(index, begin, block) =>
      && |f| >= 13 && BigEndian(9 + |block|, f[..4]) && f[4] == 7
      && BigEndian(index, f[5..9]) && BigEndian(begin, f[9..13]) && f[13..] == block
    case Cancel(index, begin, length) =>
      && |f| == 17 && f[..5] == [0, 0, 0, 13, 8]
      && BigEndian(index, f[5..9]) && BigEndian(begin, f[9..13]) && BigEndian(length, f[13..17])
    case Port(port) => |f| == 7 && f[..5] == [0, 0, 0, 3, 9] && BigEndian(port, f[5..7])
    case Extended(msgId, payload) =>
      |f| >= 6 && BigEndian(2 + |payload|, f[..4]) && f[4] == 20 && f[5] == msgId && f[6..] == payload
    case Unknown(id, data) =>
      && (id > 9 && id != 20)
      && |f| >= 5 && BigEndian(1 + |data|, f[..4]) && f[4] == id && f[5..] == data
  }

  // The 68 bytes of a handshake.
  predicate SpellsShake(h: Handshake, f: bytes) {
    && |f| == 68 && f[0] == 19 && f[1..20] == Ascii("BitTorrent protocol")
    && f[20..28] == h.extensions && f[28..48] == h.infoHash && f[48..68] == h.peerId
  }

  // Length prefix, id, payload.
  function Frame(m: Message): bytes {
    if m.KeepAlive? then Be32(0) else Be32((1 + |Payload(m)|) % U32) + [Id(m)] + Payload(m)
  }

  function Frames(ms: seq<Message>): bytes {
    if ms == [] then [] else Frame(ms[0]) + Frames(ms[1..])
  }

  // What `read` makes of a length field, an id and the bytes after them, and how many of those it takes. The
  // length of fixed-size messages is not looked at.
  function ReadBody(len: nat, id: byte, s: bytes): Result<(Message, nat), ReadError>
    requires len > 0
  {
    match id
    case 0 => Ok((Choke, 0))
    case 1 => Ok((Unchoke, 0))
    case 2 => Ok((Interested, 0))
    case 3 => Ok((NotInterested, 0))
    case 4 => if |s| < 4 then Err(UnexpectedEof) else Ok((Have(FromBe32(s[..4])), 4))
    case 5 => if |s| < len - 1 then Err(UnexpectedEof) else Ok((Bitfield(s[..len - 1]), len - 1))
    case 6 =>
      if |s| < 12 then Err(UnexpectedEof)
      else Ok((Request(FromBe32(s[0..4]), FromBe32(s[4..8]), FromBe32(s[8..12])), 12))
    case 7 =>
      if |s| < 8 then Err(UnexpectedEof)
      else if len < 9 then Err(LengthUnderflow)
      else if |s| < len - 1 then Err(UnexpectedEof)
      else Ok((Piece(FromBe32(s[0..4]), FromBe32(s[4..8]), s[8..len - 1]), len - 1))
    case 8 =>
      if |s| < 12 then Err(UnexpectedEof)
      else Ok((Cancel(FromBe32(s[0..4]), FromBe32(s[4..8]), FromBe32(s[8..12])), 12))
    case 9 => if |s| < 2 then Err(UnexpectedEof) else Ok((Port(FromBe16(s[..2])), 2))
    case 20 =>
      if len < 2 then Err(InvalidData)
      else if |s| < len - 1 then Err(UnexpectedEof)
      else Ok((Extended(s[0], s[1..len - 1]), len - 1))
    case _ => if |s| < len - 1 then Err(UnexpectedEof) else Ok((Unknown(id, s[..len - 1]), len - 1))
  }

  // The message at the start of a stream and the number of bytes it takes.
  function Read(s: bytes): (r: Result<(Message, nat), ReadError>)
    ensures r.Ok? ==> 0 < r.value.1 <= |s|
  {
    if |s| < 4 then Err(UnexpectedEof)
    else
      var len := FromBe32(s[..4]);
      if len == 0 then Ok((KeepAlive, 4))
      else if |s| < 5 then Err(UnexpectedEof)
      else
        var (m, n) :- ReadBody(len, s[4], s[5..]);
        Ok((m, 5 + n))
  }

  // Reading until the stream is used up.
  function ReadAll(s: bytes): Result<seq<Message>, ReadError> {
    if s == [] then Ok([])
    else
      var (m, n) :- Read(s);
      var rest :- ReadAll(s[n..]);
      Ok([m] + rest)
  }

  function ShakeFrame(h: Handshake): bytes {
    HANDSHAKE_PREFIX + h.extensions + h.infoHash + h.peerId
  }

  function ReadShake(s: bytes): Result<(Handshake, nat), ReadError> {
    if |s| < 20 then Err(UnexpectedEof)
    else if s[..20] != HANDSHAKE_PREFIX then Err(InvalidData)
    else if |s| < 68 then Err(UnexpectedEof)
    else Ok((Handshake(s[28..48], s[48..68], s[20..28]), 68))
  }

  predicate ShakeFields(h: Handshake) { |h.infoHash| == 20 && |h.peerId| == 20 && |h.extensions| == 8 }

  // --- the program's reads and writes ---

  class ByteReader {
    var rest: bytes

    constructor (s: bytes)
      ensures rest == s
    {
      rest := s;
    }

    // `read_exact`
    method ReadExact(n: nat) returns (r: Result<bytes, ReadError>)
      modifies this
      ensures n <= |old(rest)| ==> r == Ok(old(rest)[..n]) && rest == old(rest)[n..]
      ensures n > |old(rest)| ==> r == Err(UnexpectedEof)
    {
      if n > |rest| {
        return Err(UnexpectedEof);
      }
      r := Ok(rest[..n]);
      rest := rest[n..];
    }
  }

  // `PeerMessage::serialize`, with the program's length constants.
  method Serialize(m: Message) returns (buf: bytes)
    ensures buf == Frame(m)
    ensures WellFormed(m) ==> Spells(m, buf)
  {
    hide Be32, Be16, Spells, WellFormed;
    if WellFormed(m) {
      FrameSpells(m);
    }
    match m
    case KeepAlive =>
      buf := Be32(0);
    case Choke =>
      buf := Be32(1);
      buf := buf + [0];
    case Unchoke =>
      buf := Be32(1);
      buf := buf + [1];
    case Interested =>
      buf := Be32(1);
      buf := buf + [2];
    case NotInterested =>
      buf := Be32(1);
      buf := buf + [3];
    case Have(index) =>
      Be32Length(index);
      buf := Be32(5);
      buf := buf + [4];
      buf := buf + Be32(index);
    case Bitfield(bits) =>
      buf := Be32((1 + |bits|) % U32);
      buf := buf + [5];
      buf := buf + bits;
    case Request(index, begin, length) =>
      buf := TripleFrame(6, index, begin, length);
    case Piece(index, begin, block) =>
      Be32Length(index);
      Be32Length(begin);
      buf := BlockFrame(index, begin, block);
    case Cancel(index, begin, length) =>
      buf := TripleFrame(8, index, begin, length);
    case Extended(msgId, payload) =>
      buf := Be32((2 + |payload|) % U32);
      buf := buf + [20];
      buf := buf + [msgId];
      buf := buf + payload;
      assert buf == Be32((2 + |payload|) % U32) + [20] + ([msgId] + payload);
    case Port(port) =>
      Be16Length(port);
      buf := Be32(3);
      buf := buf + [9];
      buf := buf + Be16(port);
    case Unknown(id, data) =>
      buf := Be32((1 + |data|) % U32);
      buf := buf + [id];
      buf := buf + data;
  }

  // The piece branch.
  method BlockFrame(index: nat, begin: nat, block: bytes) returns (buf: bytes)
    ensures buf == Be32((9 + |block|) % U32) + [7] + (Be32(index) + Be32(begin) + block)
  {
    hide Be32;
    buf := Be32((9 + |block|) % U32);
    buf := buf + [7];
    buf := buf + Be32(index);
    buf := buf + Be32(begin);
    buf := buf + block;
  }

  // The request and cancel branches.
  method TripleFrame(id: byte, index: nat, begin: nat, length: nat) returns (buf: bytes)
    ensures buf == Be32(13) + [id] + (Be32(index) + Be32(begin) + Be32(length))
    ensures |Be32(index) + Be32(begin) + Be32(length)| == 12
  {
    buf := Be32(13);
    buf := buf + [id];
    buf := buf + Be32(index);
    buf := buf + Be32(begin);
    buf := buf + Be32(length);
  }

  lemma Be32Length(n: nat)
    ensures |Be32(n)| == 4
  {
  }

  lemma Be16Length(n: nat)
    ensures |Be16(n)| == 2
  {
  }

  // `PeerMessage::read`: what `Read` says, and exactly its bytes are gone from the stream.
  method ReadMessage(reader: ByteReader) returns (r: Result<Message, ReadError>)
    modifies reader
    ensures match Read(old(reader.rest))
            case Ok((m, n)) => r == Ok(m) && reader.rest == old(reader.rest)[n..]
            case Err(e) => r == Err(e)
    ensures forall m, f, t :: Spells(m, f) && old(reader.rest) == f + t ==> r == Ok(m) && reader.rest == t
  {
    hide ReadBody, FromBe32, Spells;
    forall m, f, t | Spells(m, f) && reader.rest == f + t
      ensures Read(reader.rest) == Ok((m, |f|)) && reader.rest[|f|..] == t
    {
      SpelledIsRead(m, f, t);
    }
    var lenBytes := reader.ReadExact(4);
    if lenBytes.Err? {
      return Err(lenBytes.error);
    }
    var len := FromBe32(lenBytes.value);
    if len == 0 {
      return Ok(KeepAlive);
    }
    var idBytes := reader.ReadExact(1);
    if idBytes.Err? {
      return Err(idBytes.error);
    }
    assert reader.rest == old(reader.rest)[5..];
    ghost var s := reader.rest;
    r := ReadMessageBody(reader, len, idBytes.value[0]);
    var body := ReadBody(len, idBytes.value[0], s);
    if body.Ok? {
      BodyFits(len, idBytes.value[0], s);
      assert old(reader.rest)[5..][body.value.1..] == old(reader.rest)[5 + body.value.1..];
    }
  }

  lemma BodyFits(len: nat, id: byte, s: bytes)
    requires len > 0 && ReadBody(len, id, s).Ok?
    ensures ReadBody(len, id, s).value.1 <= |s|
  {
  }

  // The fields of a request or a cancel.
  method ReadTriple(reader: ByteReader) returns (r: Result<(nat, nat, nat), ReadError>)
    modifies reader
    ensures var s := old(reader.rest);
            if |s| < 12 then r == Err(UnexpectedEof)
            else r == Ok((FromBe32(s[0..4]), FromBe32(s[4..8]), FromBe32(s[8..12]))) && reader.rest == s[12..]
  {
    hide FromBe32;
    ghost var s := reader.rest;
    var b := reader.ReadExact(12);
    if b.Err? {
      return Err(b.error);
    }
    SliceOfSlice(s, 0, 12, 0, 4);
    SliceOfSlice(s, 0, 12, 4, 8);
    SliceOfSlice(s, 0, 12, 8, 12);
    r := Ok((FromBe32(b.value[0..4]), FromBe32(b.value[4..8]), FromBe32(b.value[8..12])));
  }

  method ReadPiece(reader: ByteReader, len: nat) returns (r: Result<Message, ReadError>)
    requires len > 0
    modifies reader
    ensures match ReadBody(len, 7, old(reader.rest))
            case Ok((m, n)) => r == Ok(m) && n <= |old(reader.rest)| && reader.rest == old(reader.rest)[n..]
            case Err(e) => r == Err(e)
  {
    hide FromBe32;
    ghost var s := reader.rest;
    var b := reader.ReadExact(8);
    if b.Err? {
      return Err(b.error);
    }
    if len < 9 {
      return Err(LengthUnderflow);
    }
    var block := reader.ReadExact(len - 9);
    if block.Err? {
      return Err(block.error);
    }
    SliceOfSlice(s, 0, 8, 0, 4);
    SliceOfSlice(s, 0, 8, 4, 8);
    assert s[8..][..len - 9] == s[8..len - 1] && s[8..][len - 9..] == s[len - 1..];
    r := Ok(Piece(FromBe32(b.value[0..4]), FromBe32(b.value[4..8]), block.value));
  }

  method ReadExtended(reader: ByteReader, len: nat) returns (r: Result<Message, ReadError>)
    requires len > 0
    modifies reader
    ensures match ReadBody(len, 20, old(reader.rest))
            case Ok((m, n)) => r == Ok(m) && n <= |old(reader.rest)| && reader.rest == old(reader.rest)[n..]
            case Err(e) => r == Err(e)
  {
    ghost var s := reader.rest;
    if len < 2 {
      return Err(InvalidData);
    }
    var b := reader.ReadExact(1);
    if b.Err? {
      return Err(b.error);
    }
    var payload := reader.ReadExact(len - 2);
    if payload.Err? {
      return Err(payload.error);
    }
    assert s[1..][..len - 2] == s[1..len - 1] && s[1..][len - 2..] == s[len - 1..];
    r := Ok(Extended(b.value[0], payload.value));
  }

  // The branches on the id.
  method ReadMessageBody(reader: ByteReader, len: nat, id: byte) returns (r: Result<Message, ReadError>)
    requires len > 0
    modifies reader
    ensures match ReadBody(len, id, old(reader.rest))
            case Ok((m, n)) => r == Ok(m) && n <= |old(reader.rest)| && reader.rest == old(reader.rest)[n..]
            case Err(e) => r == Err(e)
  {
    hide FromBe32, FromBe16;
    ghost var s := reader.rest;
    match id
    case 0 => r := Ok(Choke);
    case 1 => r := Ok(Unchoke);
    case 2 => r := Ok(Interested);
    case 3 => r := Ok(NotInterested);
    case 4 =>
      var b := reader.ReadExact(4);
      r := if b.Ok? then Ok(Have(FromBe32(b.value))) else Err(b.error);
    case 5 =>
      var b := reader.ReadExact(len - 1);
      r := if b.Ok? then Ok(Bitfield(b.value)) else Err(b.error);
    case 6 =>
      var b := ReadTriple(reader);
      r := if b.Ok? then Ok(Request(b.value.0, b.value.1, b.value.2)) else Err(b.error);
    case 7 =>
      r := ReadPiece(reader, len);
    case 8 =>
      var b := ReadTriple(reader);
      r := if b.Ok? then Ok(Cancel(b.value.0, b.value.1, b.value.2)) else Err(b.error);
    case 9 =>
      var b := reader.ReadExact(2);
      r := if b.Ok? then Ok(Port(FromBe16(b.value))) else Err(b.error);
    case 20 =>
      r := ReadExtended(reader, len);
    case _ =>
      var b := reader.ReadExact(len - 1);
      r := if b.Ok? then Ok(Unknown(id, b.value)) else Err(b.error);
  }

  method ReadHandshake(reader: ByteReader) returns (r: Result<Handshake, ReadError>)
    modifies reader
    ensures match ReadShake(old(reader.rest))
            case Ok((h, n)) => r == Ok(h) && reader.rest == old(reader.rest)[n..]
            case Err(e) => r == Err(e)
    ensures forall h, f, t :: SpellsShake(h, f) && old(reader.rest) == f + t ==> r == Ok(h) && reader.rest == t
  {
    hide SpellsShake;
    ghost var s := reader.rest;
    forall h, f, t | SpellsShake(h, f) && s == f + t ensures ReadShake(s) == Ok((h, 68)) && s[68..] == t {
      SpelledShakeIsRead(h, f, t);
    }
    var prefix := reader.ReadExact(20);
    if prefix.Err? {
      return Err(prefix.error);
    }
    if prefix.value != HANDSHAKE_PREFIX {
      return Err(InvalidData);
    }
    var reserved := reader.ReadExact(8);
    if reserved.Err? {
      return Err(reserved.error);
    }
    assert s[20..][..8] == s[20..28] && s[20..][8..] == s[28..];
    var infoHash := reader.ReadExact(20);
    if infoHash.Err? {
      return Err(infoHash.error);
    }
    assert s[28..][..20] == s[28..48] && s[28..][20..] == s[48..];
    var peerId := reader.ReadExact(20);
    if peerId.Err? {
      return Err(peerId.error);
    }
    assert s[48..][..20] == s[48..68] && s[48..][20..] == s[68..];
    r := Ok(Handshake(infoHash.value, peerId.value, reserved.value));
  }

  // `Handshake::new`: of the reserved bits the one of the extension protocol is set.
  method NewHandshake(infoHash: bytes, peerId: bytes) returns (h: Handshake)
    ensures h.infoHash == infoHash && h.peerId == peerId && h.extensions == [0, 0, 0, 0, 0, 0x10, 0, 0]
  {
    var extensions: bytes := seq(8, _ => 0);
    extensions := extensions[5 := 0x10];
    h := Handshake(infoHash, peerId, extensions);
  }

  // `Handshake::serialize`
  method SerializeHandshake(h: Handshake) returns (buf: bytes)
    ensures buf == ShakeFrame(h)
    ensures ShakeFields(h) ==> SpellsShake(h, buf)
  {
    buf := HANDSHAKE_PREFIX;
    buf := buf + h.extensions;
    buf := buf + h.infoHash;
    buf := buf + h.peerId;
    if ShakeFields(h) {
      ShakeSpells(h);
    }
  }

  // --- the bytes of the standards ---

  lemma {:induction false} BigEndianUnique(n: nat, a: bytes, b: bytes)
    requires |a| == |b| && BigEndian(n, a) && BigEndian(n, b)
    ensures a == b
  {
    if a != [] {
      BigEndianUnique(n / 256, a[..|a| - 1], b[..|b| - 1]);
      assert a == a[..|a| - 1] + [a[|a| - 1]] && b == b[..|b| - 1] + [b[|b| - 1]];
    }
  }

  lemma BigEndianStep(n: nat, b: bytes, last: byte)
    ensures BigEndian(n, b + [last]) <==> n % 256 == last && BigEndian(n / 256, b)
  {
    assert (b + [last])[..|b|] == b;
  }

  lemma BigEndianFour(n: nat, b: bytes)
    requires |b| == 4
    ensures BigEndian(n, b) <==>
              && n / 0x100_0000 == b[0] && n / 0x1_0000 % 256 == b[1] && n / 0x100 % 256 == b[2] && n % 256 == b[3]
  {
    hide BigEndian;
    var x, y, z := n / 256, n / 256 / 256, n / 256 / 256 / 256;
    assert n / 0x1_0000 == y && n / 0x100_0000 == z;
    assert b == [] + [b[0]] + [b[1]] + [b[2]] + [b[3]];
    BigEndianStep(n, [] + [b[0]] + [b[1]] + [b[2]], b[3]);
    BigEndianStep(x, [] + [b[0]] + [b[1]], b[2]);
    BigEndianStep(y, [] + [b[0]], b[1]);
    BigEndianStep(z, [], b[0]);
    BigEndianNone(z / 256);
  }

  lemma BigEndianNone(n: nat)
    ensures BigEndian(n, []) <==> n == 0
  {
  }

  lemma Be32IsBigEndian(n: nat)
    ensures |Be32(n)| == 4 && (n < U32 ==> BigEndian(n, Be32(n)))
  {
    hide BigEndian;
    BigEndianFour(n, Be32(n));
  }

  lemma FourIsSmall(n: nat, b: bytes)
    requires |b| == 4 && BigEndian(n, b)
    ensures n < U32 && b == Be32(n)
  {
    hide BigEndian;
    BigEndianFour(n, b);
    Be32IsBigEndian(n);
    BigEndianUnique(n, b, Be32(n));
  }

  lemma TwoIsSmall(n: nat, b: bytes)
    requires |b| == 2
    ensures BigEndian(n, b) <==> n < 0x1_0000 && b == Be16(n)
  {
    hide BigEndian;
    assert b == [] + [b[0]] + [b[1]];
    BigEndianStep(n, [] + [b[0]], b[1]);
    BigEndianStep(n / 256, [], b[0]);
    BigEndianNone(n / 256 / 256);
  }

  // What is written is what the standards say.
  lemma FrameSpells(m: Message)
    requires WellFormed(m)
    ensures Spells(m, Frame(m))
  {
    hide Spells, WellFormed, Frame;
    match m
    case Request(_, _, _) => FieldsSpell(m);
    case Cancel(_, _, _) => FieldsSpell(m);
    case Piece(index, begin, block) => PieceSpells(index, begin, block);
    case Have(_) => NumberSpells(m);
    case Port(_) => NumberSpells(m);
    case Bitfield(_) => BytesSpell(m);
    case Unknown(_, _) => BytesSpell(m);
    case Extended(msgId, payload) => ExtendedSpells(msgId, payload);
    case _ => BareSpells(m);
  }

  lemma BareSpells(m: Message)
    requires m.KeepAlive? || m.Choke? || m.Unchoke? || m.Interested? || m.NotInterested?
    ensures Spells(m, Frame(m))
  {
    hide Be32, BigEndian;
    SmallLengths();
  }

  lemma NumberSpells(m: Message)
    requires WellFormed(m) && (m.Have? || m.Port?)
    ensures Spells(m, Frame(m))
  {
    hide Be32, Be16, BigEndian;
    SmallLengths();
    var f, p := Frame(m), Payload(m);
    if m.Have? {
      Be32IsBigEndian(m.index);
    } else {
      Be16Length(m.port);
      TwoIsSmall(m.port, p);
    }
    FrameStarts(Be32(1 + |p|), Id(m), p);
    assert f[5..5 + |p|] == p;
  }

  lemma BytesSpell(m: Message)
    requires WellFormed(m) && (m.Bitfield? || m.Unknown?)
    ensures Spells(m, Frame(m))
  {
    hide Be32, BigEndian;
    var p := Payload(m);
    Be32IsBigEndian(1 + |p|);
    FrameStarts(Be32(1 + |p|), Id(m), p);
  }

  lemma ExtendedSpells(msgId: byte, payload: bytes)
    requires WellFormed(Extended(msgId, payload))
    ensures Spells(Extended(msgId, payload), Frame(Extended(msgId, payload)))
  {
    hide Be32, BigEndian;
    var p, f := [msgId] + payload, Frame(Extended(msgId, payload));
    Be32IsBigEndian(1 + |p|);
    FrameStarts(Be32(1 + |p|), 20, p);
    assert f[5] == p[0] && f[6..] == p[1..];
  }

  lemma FieldsSpell(m: Message)
    requires WellFormed(m) && (m.Request? || m.Cancel?)
    ensures Spells(m, Frame(m))
  {
    hide Be32, BigEndian;
    SmallLengths();
    var f, p := Frame(m), Payload(m);
    TripleSpells(p, m.index, m.begin, m.length);
    FrameStarts(Be32(1 + |p|), Id(m), p);
    TripleIn(f, p);
  }

  lemma PieceSpells(index: nat, begin: nat, block: bytes)
    requires WellFormed(Piece(index, begin, block))
    ensures Spells(Piece(index, begin, block), Frame(Piece(index, begin, block)))
  {
    hide Be32, BigEndian;
    var p, f := Be32(index) + Be32(begin) + block, Frame(Piece(index, begin, block));
    Be32IsBigEndian(index);
    Be32IsBigEndian(begin);
    Be32IsBigEndian(1 + |p|);
    FrameStarts(Be32(1 + |p|), 7, p);
    assert f[5..9] == Be32(index) && f[9..13] == Be32(begin) && f[13..] == block;
  }

  lemma FrameStarts(len: bytes, id: byte, p: bytes)
    requires |len| == 4
    ensures var f := len + [id] + p; f[..4] == len && f[4] == id && f[5..] == p && f[..5] == len + [id]
  {
  }

  lemma TripleSpells(p: bytes, a: nat, b: nat, c: nat)
    requires a < U32 && b < U32 && c < U32 && p == Be32(a) + Be32(b) + Be32(c)
    ensures |p| == 12 && BigEndian(a, p[0..4]) && BigEndian(b, p[4..8]) && BigEndian(c, p[8..12])
  {
    hide BigEndian, Be32;
    Be32IsBigEndian(a);
    Be32IsBigEndian(b);
    Be32IsBigEndian(c);
    assert p[0..4] == Be32(a) && p[4..8] == Be32(b) && p[8..12] == Be32(c);
  }

  lemma TripleIn(f: bytes, p: bytes)
    requires |p| == 12 && |f| >= 5 && f[5..] == p
    ensures |f| == 17 && f[5..9] == p[0..4] && f[9..13] == p[4..8] && f[13..17] == p[8..12]
  {
  }

  lemma SmallLengths()
    ensures Be32(0) == [0, 0, 0, 0] && Be32(1) == [0, 0, 0, 1] && Be32(3) == [0, 0, 0, 3]
    ensures Be32(5) == [0, 0, 0, 5] && Be32(13) == [0, 0, 0, 13]
  {
  }

  // And what the standards say is read as that message, whatever follows.
  lemma SpelledIsRead(m: Message, f: bytes, t: bytes)
    requires Spells(m, f)
    ensures Read(f + t) == Ok((m, |f|))
    ensures (f + t)[|f|..] == t
  {
    hide Read, Spells, WellFormed;
    SpelledIsFrame(m, f);
    RoundTrip(m, t);
  }

  lemma SpelledIsFrame(m: Message, f: bytes)
    requires Spells(m, f)
    ensures WellFormed(m) && f == Frame(m)
  {
    hide Spells, WellFormed, Frame;
    match m
    case Request(_, _, _) => SpelledFields(m, f);
    case Cancel(_, _, _) => SpelledFields(m, f);
    case Piece(index, begin, block) => SpelledPiece(f, index, begin, block);
    case Have(_) => SpelledNumber(m, f);
    case Port(_) => SpelledNumber(m, f);
    case Bitfield(_) => SpelledBytes(m, f);
    case Extended(msgId, payload) => SpelledExtended(msgId, payload, f);
    case Unknown(_, _) => SpelledBytes(m, f);
    case _ => SpelledBare(m, f);
  }

  lemma SpelledBare(m: Message, f: bytes)
    requires Spells(m, f) && (m.KeepAlive? || m.Choke? || m.Unchoke? || m.Interested? || m.NotInterested?)
    ensures WellFormed(m) && f == Frame(m)
  {
    hide Be32, BigEndian;
    SmallLengths();
  }

  lemma SpelledNumber(m: Message, f: bytes)
    requires Spells(m, f) && (m.Have? || m.Port?)
    ensures WellFormed(m) && f == Frame(m)
  {
    hide Be32, Be16, BigEndian;
    SmallLengths();
    StartsFrame(f);
    if m.Have? {
      FourIsSmall(m.index, f[5..9]);
      assert f[5..9] == f[5..];
    } else {
      TwoIsSmall(m.port, f[5..7]);
      assert f[5..7] == f[5..];
    }
  }

  lemma SpelledBytes(m: Message, f: bytes)
    requires Spells(m, f) && (m.Bitfield? || m.Unknown?)
    ensures WellFormed(m) && f == Frame(m)
  {
    hide Be32, BigEndian;
    StartsFrame(f);
    FourIsSmall(1 + if m.Bitfield? then |m.bits| else |m.data|, f[..4]);
  }

  lemma SpelledExtended(msgId: byte, payload: bytes, f: bytes)
    requires Spells(Extended(msgId, payload), f)
    ensures WellFormed(Extended(msgId, payload)) && f == Frame(Extended(msgId, payload))
  {
    hide Be32, BigEndian;
    StartsFrame(f);
    FourIsSmall(2 + |payload|, f[..4]);
    assert f[5..] == [f[5]] + f[6..];
  }

  lemma SpelledFields(m: Message, f: bytes)
    requires Spells(m, f) && (m.Request? || m.Cancel?)
    ensures WellFormed(m) && f == Frame(m)
  {
    hide Be32, BigEndian;
    SmallLengths();
    StartsFrame(f);
    SpelledTriple(f, m.index, m.begin, m.length);
  }

  lemma StartsFrame(f: bytes)
    requires |f| >= 5
    ensures f == f[..4] + [f[4]] + f[5..] && f == f[..5] + f[5..] && f[..5] == f[..4] + [f[4]]
  {
  }

  lemma SpelledPiece(f: bytes, index: nat, begin: nat, block: bytes)
    requires Spells(Piece(index, begin, block), f)
    ensures WellFormed(Piece(index, begin, block)) && f == Frame(Piece(index, begin, block))
  {
    hide BigEndian, Be32;
    StartsFrame(f);
    FourIsSmall(9 + |block|, f[..4]);
    FourIsSmall(index, f[5..9]);
    FourIsSmall(begin, f[9..13]);
    PieceParts(f);
  }

  lemma PieceParts(f: bytes)
    requires |f| >= 13
    ensures f[5..] == f[5..9] + f[9..13] + f[13..]
  {
  }

  lemma SpelledTriple(f: bytes, a: nat, b: nat, c: nat)
    requires |f| == 17 && BigEndian(a, f[5..9]) && BigEndian(b, f[9..13]) && BigEndian(c, f[13..17])
    ensures a < U32 && b < U32 && c < U32 && f[5..] == Be32(a) + Be32(b) + Be32(c)
    ensures |f[5..]| == 12
  {
    hide BigEndian, Be32;
    FourIsSmall(a, f[5..9]);
    FourIsSmall(b, f[9..13]);
    FourIsSmall(c, f[13..17]);
    PieceParts(f);
  }

  // A frame that is cut off anywhere is an unexpected end.
  lemma TruncatedIsEof(m: Message, f: bytes, k: nat)
    requires Spells(m, f) && k < |f|
    ensures Read(f[..k]) == Err(UnexpectedEof)
  {
    hide Spells, WellFormed, Be32, FromBe32, Payload, Id, ReadBody;
    SpelledIsFrame(m, f);
    var len := if m.KeepAlive? then 0 else 1 + |Payload(m)|;
    SizeFits(m);
    Be32Length(len);
    Be32Inverse(len);
    assert f[..4] == Be32(len);
    if k >= 5 {
      FrameParts(Be32(len), Id(m), Payload(m), k);
      BodyTruncated(m, k - 5);
    } else if k == 4 {
      assert f[..k][..4] == f[..4];
    }
  }

  lemma FrameParts(len: bytes, id: byte, payload: bytes, k: nat)
    requires |len| == 4 && 5 <= k < 5 + |payload|
    ensures var f := len + [id] + payload;
            f[..k][..4] == len && f[..k][4] == id && f[..k][5..] == payload[..k - 5]
  {
  }

  // The length field of a message of fixed size is not compared with it: any length but 0 will do.
  lemma LengthIsIgnored(m: Message, f: bytes, len: bytes, t: bytes)
    requires Spells(m, f) && (m.Choke? || m.Unchoke? || m.Interested? || m.NotInterested? || m.Have? || m.Request?
                              || m.Cancel? || m.Port?)
    requires |len| == 4 && len != [0, 0, 0, 0]
    ensures Read(len + f[4..] + t) == Ok((m, |f|))
  {
    hide ReadBody, FromBe32, BigEndian;
    SpelledIsRead(m, f, t);
    var s, u := f + t, len + f[4..] + t;
    assert u[..4] == len && u[4] == s[4] == f[4] && u[5..] == s[5..];
    OnlyZerosAreZero(len);
    OnlyZerosAreZero(s[..4]);
    SameBody(FromBe32(s[..4]), FromBe32(len), f[4], s[5..]);
  }

  lemma OnlyZerosAreZero(len: bytes)
    requires |len| == 4
    ensures FromBe32(len) == 0 <==> len == [0, 0, 0, 0]
  {
  }

  lemma SameBody(a: nat, b: nat, id: byte, s: bytes)
    requires a > 0 && b > 0 && (id <= 4 || id == 6 || id == 8 || id == 9)
    ensures ReadBody(a, id, s) == ReadBody(b, id, s)
  {
  }

  // A Piece message shorter than its two numbers makes the program panic, once those are there; an extended message
  // without an id is invalid.
  lemma ShortLengths(n: nat, len: bytes, t: bytes)
    requires |len| == 4 && BigEndian(n, len)
    ensures 1 <= n < 9 && |t| >= 8 ==> Read(len + [7] + t) == Err(LengthUnderflow)
    ensures n == 1 ==> Read(len + [20] + t) == Err(InvalidData)
  {
    hide FromBe32, Be32;
    FourIsSmall(n, len);
    Be32Inverse(n);
    var s, u := len + [7] + t, len + [20] + t;
    assert s[..4] == len && s[5..] == t && u[..4] == len && u[5..] == t;
  }

  // What does not start like a handshake is refused, and one that is cut off is an unexpected end.
  lemma BadShake(s: bytes)
    ensures |s| < 20 ==> ReadShake(s) == Err(UnexpectedEof)
    ensures |s| >= 20 && !(s[0] == 19 && s[1..20] == Ascii("BitTorrent protocol")) ==> ReadShake(s) == Err(InvalidData)
    ensures 20 <= |s| < 68 && s[0] == 19 && s[1..20] == Ascii("BitTorrent protocol") ==>
              ReadShake(s) == Err(UnexpectedEof)
  {
    hide Ascii;
    ProtocolName();
    if |s| >= 20 {
      assert s[..20] == [s[0]] + s[1..20];
      assert HANDSHAKE_PREFIX == [HANDSHAKE_PREFIX[0]] + HANDSHAKE_PREFIX[1..];
      assert s[..20][0] == s[0] && s[..20][1..] == s[1..20];
    }
  }

  lemma SizeFits(m: Message)
    requires WellFormed(m)
    ensures 1 + |Payload(m)| < U32
  {
  }

  lemma BodyTruncated(m: Message, k: nat)
    requires WellFormed(m) && !m.KeepAlive? && k < |Payload(m)|
    ensures ReadBody(1 + |Payload(m)|, Id(m), Payload(m)[..k]) == Err(UnexpectedEof)
  {
    hide Be32, Be16;
    match m
    case Have(index) => Be32Length(index);
    case Request(index, begin, length) => TripleLength(index, begin, length);
    case Cancel(index, begin, length) => TripleLength(index, begin, length);
    case Piece(index, begin, _) =>
      Be32Length(index);
      Be32Length(begin);
    case Port(port) => Be16Length(port);
    case _ =>
  }

  lemma TripleLength(a: nat, b: nat, c: nat)
    ensures |Be32(a) + Be32(b) + Be32(c)| == 12
  {
  }

  lemma ShakeSpells(h: Handshake)
    requires ShakeFields(h)
    ensures SpellsShake(h, ShakeFrame(h))
  {
    hide Ascii;
    var f := ShakeFrame(h);
    assert f[..20] == HANDSHAKE_PREFIX && f[1..20] == HANDSHAKE_PREFIX[1..];
    assert f[20..28] == h.extensions && f[28..48] == h.infoHash && f[48..68] == h.peerId;
    ProtocolName();
  }

  lemma ProtocolName()
    ensures HANDSHAKE_PREFIX[0] == 19 && HANDSHAKE_PREFIX[1..] == Ascii("BitTorrent protocol")
  {
  }

  lemma SpelledShakeIsRead(h: Handshake, f: bytes, t: bytes)
    requires SpellsShake(h, f)
    ensures ReadShake(f + t) == Ok((h, 68)) && (f + t)[68..] == t
  {
    var s := f + t;
    ProtocolName();
    assert f[..20] == [f[0]] + f[1..20] == HANDSHAKE_PREFIX;
    assert s[..20] == f[..20] && s[20..28] == f[20..28] && s[28..48] == f[28..48] && s[48..68] == f[48..68];
  }

  lemma BodyRoundTrip(m: Message, t: bytes)
    requires WellFormed(m) && !m.KeepAlive?
    ensures ReadBody(1 + |Payload(m)|, Id(m), Payload(m) + t) == Ok((m, |Payload(m)|))
  {
    hide Be32, FromBe32, Be16, FromBe16;
    var p, s := Payload(m), Payload(m) + t;
    assert s[..|p|] == p;
    match m
    case Have(index) =>
      Be32Length(index);
      Be32Inverse(index);
    case Request(index, begin, length) => TripleRoundTrip(index, begin, length, t);
    case Cancel(index, begin, length) => TripleRoundTrip(index, begin, length, t);
    case Piece(index, begin, block) =>
      Be32Length(index);
      Be32Length(begin);
      Be32Inverse(index);
      Be32Inverse(begin);
      assert s[0..4] == Be32(index) && s[4..8] == Be32(begin) && s[8..|p|] == block;
    case Extended(msgId, payload) =>
      assert s[1..|p|] == payload;
    case Port(port) =>
      Be16Length(port);
      Be16Inverse(port);
    case _ =>
  }

  lemma TripleRoundTrip(a: nat, b: nat, c: nat, t: bytes)
    requires a < U32 && b < U32 && c < U32
    ensures var s := Be32(a) + Be32(b) + Be32(c) + t;
            && |Be32(a) + Be32(b) + Be32(c)| == 12
            && FromBe32(s[0..4]) == a && FromBe32(s[4..8]) == b && FromBe32(s[8..12]) == c
  {
    hide Be32, FromBe32;
    Be32Length(a);
    Be32Length(b);
    Be32Length(c);
    Be32Inverse(a);
    Be32Inverse(b);
    Be32Inverse(c);
    var s := Be32(a) + Be32(b) + Be32(c) + t;
    assert s[0..4] == Be32(a) && s[4..8] == Be32(b) && s[8..12] == Be32(c);
  }

  // Reading a serialized message, whatever follows, gives it back and takes exactly its bytes.
  lemma RoundTrip(m: Message, t: bytes)
    requires WellFormed(m)
    ensures Read(Frame(m) + t) == Ok((m, |Frame(m)|))
  {
    hide Be32, FromBe32, ReadBody, Payload, Id, WellFormed;
    var len := if m.KeepAlive? then 0 else 1 + |Payload(m)|;
    var s := Frame(m) + t;
    SizeFits(m);
    Be32Length(len);
    Be32Inverse(len);
    if m.KeepAlive? {
      assert s[..4] == Be32(len);
    } else {
      ConcatAssoc(Be32(len) + [Id(m)], Payload(m), t);
      FrameStarts(Be32(len), Id(m), Payload(m) + t);
      BodyRoundTrip(m, t);
    }
  }

  // A stream of serialized messages reads back as the same messages, with nothing left over.
  lemma {:induction false} StreamRoundTrip(ms: seq<Message>)
    requires forall m :: m in ms ==> WellFormed(m)
    ensures ReadAll(Frames(ms)) == Ok(ms)
  {
    hide Frame, Read, ReadAll, WellFormed;
    if ms == [] {
      ReadAllEnd();
    } else {
      RoundTrip(ms[0], Frames(ms[1..]));
      StreamRoundTrip(ms[1..]);
      ReadAllStep(Frame(ms[0]), Frames(ms[1..]));
      assert ms == [ms[0]] + ms[1..];
    }
  }

  lemma ReadAllEnd()
    ensures ReadAll([]) == Ok([])
  {
  }

  lemma ReadAllStep(frame: bytes, t: bytes)
    requires Read(frame + t).Ok? && Read(frame + t).value.1 == |frame| && ReadAll(t).Ok?
    ensures ReadAll(frame + t) == Ok([Read(frame + t).value.0] + ReadAll(t).value)
  {
    hide Read;
    assert (frame + t)[|frame|..] == t;
    assert |frame + t| == |frame| + |t|;
  }

  // Also after a handshake.
  lemma SessionRoundTrip(h: Handshake, ms: seq<Message>)
    requires ShakeFields(h) && forall m :: m in ms ==> WellFormed(m)
    ensures var s := ShakeFrame(h) + Frames(ms);
            ReadShake(s) == Ok((h, 68)) && ReadAll(s[68..]) == Ok(ms)
  {
    var s := ShakeFrame(h) + Frames(ms);
    assert s[..20] == HANDSHAKE_PREFIX && s[20..28] == h.extensions;
    assert s[28..48] == h.infoHash && s[48..68] == h.peerId;
    assert s[68..] == Frames(ms);
    StreamRoundTrip(ms);
  }

  lemma Triple(s: bytes)
    requires |s| >= 12
    ensures Be32(FromBe32(s[0..4])) + Be32(FromBe32(s[4..8])) + Be32(FromBe32(s[8..12])) == s[..12]
  {
    hide Be32, FromBe32;
    FromBe32Inverse(s[0..4]);
    FromBe32Inverse(s[4..8]);
    FromBe32Inverse(s[8..12]);
  }

  // The payload of a message read is the bytes it was read from.
  lemma ReadPayload(len: nat, id: byte, s: bytes)
    requires len > 0 && ReadBody(len, id, s).Ok?
    ensures var (m, n) := ReadBody(len, id, s).value;
            !m.KeepAlive? && Id(m) == id && n <= |s| && Payload(m) == s[..n]
  {
    hide Be32, FromBe32, Be16, FromBe16;
    match id
    case 4 => FromBe32Inverse(s[..4]);
    case 6 => Triple(s);
    case 8 => Triple(s);
    case 7 =>
      FromBe32Inverse(s[0..4]);
      FromBe32Inverse(s[4..8]);
      assert s[0..4] + s[4..8] + s[8..len - 1] == s[..len - 1];
    case 9 => FromBe16Inverse(s[..2]);
    case _ =>
  }

  lemma FromBe16Inverse(b: bytes)
    requires |b| == 2
    ensures Be16(FromBe16(b)) == b
  {
  }

  // Conversely, serializing what was read gives back the bytes consumed exactly when the length field told
  // the truth about them, which the program does not check for fixed-size messages.
  lemma ReserializeExactly(s: bytes)
    requires Read(s).Ok?
    ensures var (m, n) := Read(s).value;
            Frame(m) == s[..n] <==> n == 4 + FromBe32(s[..4])
  {
    hide Be32, FromBe32, ReadBody, Payload, Id;
    var (m, n) := Read(s).value;
    var len := FromBe32(s[..4]);
    FromBe32Inverse(s[..4]);
    if len > 0 {
      ReadPayload(len, s[4], s[5..]);
      BodyFits(len, s[4], s[5..]);
      Be32Length((1 + |Payload(m)|) % U32);
      assert s[..n] == s[..4] + [s[4]] + s[5..][..n - 5];
      assert |Payload(m)| == n - 5;
      if Frame(m) == s[..n] {
        assert Be32((n - 4) % U32) == Frame(m)[..4] == s[..4];
        PayloadFits(len, s[4], s[5..]);
        Be32Inverse((n - 4) % U32);
      }
    } else {
      assert s[..4] == Be32(0);
    }
  }

  lemma PayloadFits(len: nat, id: byte, s: bytes)
    requires 0 < len < U32 && ReadBody(len, id, s).Ok?
    ensures 1 + ReadBody(len, id, s).value.1 < U32
  {
  }
}

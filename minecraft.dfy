/**
 * `protocol/minecraft.go`: the Minecraft Server List Ping over TCP. The
 * client sends a handshake packet and a status request, each framed by its
 * length as a VarInt, and reads back one framed packet holding the status
 * as JSON. VarInts carry seven bits per byte, low group first, with the top
 * bit set on every byte but the last.
 *
 * The TCP connection is a function from the bytes written to the bytes the
 * server sends back; JSON decoding is a parameter that yields the fields
 * `MinecraftStatus` declares, with the free-form description kept as a
 * JSON value.
 */
module Minecraft {
  import opened Wrappers
  import opened Bytes
  import opened Types
  import Text
  import NetAddr
  import GameDetector

  /** `Name`, `DefaultPort`, `DefaultQueryPort` and `Games`. */
  const Descriptor: Protocol := Protocol("minecraft", 25565, 25565, [GameConfig("minecraft", 25565, 25565)])

  /** The protocol version the handshake announces (1.20.4) and the "status" next state. */
  const ProtocolVersion: nat := 765
  const NextStateStatus: nat := 1

  // ---------------------------------------------------------------------
  // VarInts
  // ---------------------------------------------------------------------

  function Pow128(k: nat): (p: nat)
    ensures p >= 1
  {
    if k == 0 then 1 else 0x80 * Pow128(k - 1)
  }

  /** `x << 7k`, written with multiplications by the constant 128 only. */
  function Shifted(x: nat, k: nat): (r: nat)
    ensures k == 0 ==> r == x
  {
    if k == 0 then x else 0x80 * Shifted(x, k - 1)
  }

  /**
   * The bytes `writeVarInt` emits. Its stop test masks the value with
   * 0xFFFFFF80, which looks only at bits 7 to 31, so a value of 2^32 or more
   * whose bits 7 to 31 are clear stops early.
   */
  function VarInt(v: nat): (s: seq<byte>)
    ensures |s| >= 1
  {
    if (v / 0x80) % 0x200_0000 == 0 then [v % 0x100]
    else [v % 0x80 + 0x80] + VarInt(v / 0x80)
  }

  /** `writeVarInt`: the loop emits the encoding one byte at a time. */
  method WriteVarInt(buf: seq<byte>, value: nat) returns (out: seq<byte>)
    ensures out == buf + VarInt(value)
  {
    out := buf;
    var v := value;
    while (v / 0x80) % 0x200_0000 != 0
      invariant out + VarInt(v) == buf + VarInt(value)
      decreases v
    {
      var b := ContinuationByte(v);
      assert out + VarInt(v) == (out + [b]) + VarInt(v / 0x80);
      out := out + [b];
      v := v / 0x80;
    }
    assert VarInt(v) == [v % 0x100];
    out := out + [v % 0x100];
  }

  /** The byte written before moving on: the low seven bits with the top bit set. */
  function ContinuationByte(v: nat): (b: byte)
    requires (v / 0x80) % 0x200_0000 != 0
    ensures VarInt(v) == [b] + VarInt(v / 0x80)
  {
    v % 0x80 + 0x80
  }

  /**
   * The decoder of `readVarInt`, as its loop runs: `k` groups read so far,
   * worth `acc`; each byte adds its low seven bits at shift 7k (the loop ORs
   * them in; the groups never overlap, so adding is the same). A fifth byte
   * with its top bit set is refused; running out of bytes is io.EOF. The
   * result is the value and the number of bytes read in all.
   */
  function ReadVarIntFrom(s: seq<byte>, k: nat, acc: nat): (r: Result<(nat, nat)>)
    requires k < 5
    ensures r.Ok? ==> k < r.value.1 <= 5 && r.value.1 - k <= |s|
    decreases 5 - k
  {
    if s == [] then Err("EOF")
    else if s[0] < 0x80 then Ok((acc + Shifted(s[0], k), k + 1))
    else if k == 4 then Err("VarInt too long")
    else ReadVarIntFrom(s[1..], k + 1, acc + Shifted(s[0] - 0x80, k))
  }

  /** What `readVarInt` reads from the front of `s`: the value and the bytes consumed. */
  function DecodeVarInt(s: seq<byte>): (r: Result<(nat, nat)>)
    ensures r.Ok? ==> 1 <= r.value.1 <= 5 && r.value.1 <= |s|
  {
    ReadVarIntFrom(s, 0, 0)
  }

  /** `readVarInt` on the bytes from `pos` on; returns the value and the position after it. */
  method ReadVarInt(data: seq<byte>, pos: nat) returns (r: Result<(nat, nat)>)
    requires pos <= |data|
    ensures r.Ok? <==> DecodeVarInt(data[pos..]).Ok?
    ensures r.Err? ==> r.msg == DecodeVarInt(data[pos..]).msg
    ensures r.Ok? ==> r.value == (DecodeVarInt(data[pos..]).value.0, pos + DecodeVarInt(data[pos..]).value.1)
  {
    var result: nat := 0;
    var k := 0;
    var p := pos;
    while true
      invariant 0 <= k < 5 && p == pos + k && p <= |data|
      invariant DecodeVarInt(data[pos..]) == ReadVarIntFrom(data[p..], k, result)
      decreases 5 - k
    {
      if p >= |data| {
        return Err("EOF");
      }
      var b := data[p];
      if b < 0x80 {
        result := result + Shifted(b, k);
        p := p + 1;
        break;
      }
      if k == 4 {
        return Err("VarInt too long");
      }
      assert data[p..][1..] == data[p + 1..];
      result := result + Shifted(b - 0x80, k);
      k := k + 1;
      p := p + 1;
    }
    return Ok((result, p));
  }

  /** Encodings of 32-bit values take at most `k` bytes below 128^k, and one byte exactly below 128. */
  lemma {:induction false} VarIntLength(v: nat, k: nat)
    requires v < UINT32_LIMIT && 1 <= k && v < Pow128(k)
    ensures 1 <= |VarInt(v)| <= k
    ensures |VarInt(v)| == 1 <==> v < 0x80
  {
    if v >= 0x80 {
      assert Pow128(1) == 0x80;
      assert k >= 2;
      assert (v / 0x80) % 0x200_0000 == v / 0x80;
      VarIntLength(v / 0x80, k - 1);
    }
  }

  /** In the encoding of a 32-bit value every byte but the last has its top bit set. */
  lemma {:induction false} VarIntContinuation(v: nat)
    requires v < UINT32_LIMIT
    ensures forall i :: 0 <= i < |VarInt(v)| - 1 ==> VarInt(v)[i] >= 0x80
    ensures VarInt(v)[|VarInt(v)| - 1] < 0x80
  {
    if v >= 0x80 {
      assert (v / 0x80) % 0x200_0000 == v / 0x80;
      var t := VarInt(v / 0x80);
      assert VarInt(v) == [v % 0x80 + 0x80] + t;
      VarIntContinuation(v / 0x80);
      forall i | 0 <= i < |VarInt(v)| - 1
        ensures VarInt(v)[i] >= 0x80
      {
        if i > 0 {
          assert VarInt(v)[i] == t[i - 1];
        }
      }
    } else {
      assert VarInt(v) == [v];
    }
  }

  /** A 32-bit value of 128 or more: a continuation byte, then the rest. */
  lemma VarIntCons(v: nat)
    requires 0x80 <= v < UINT32_LIMIT
    ensures VarInt(v) == [v % 0x80 + 0x80] + VarInt(v / 0x80)
  {
    assert (v / 0x80) % 0x200_0000 == v / 0x80;
  }

  /** The value of the seven-bit groups of `e`, the first of them at group `k`. */
  function GroupsValue(e: seq<byte>, k: nat): nat
  {
    if e == [] then 0 else Shifted(e[0] % 0x80, k) + GroupsValue(e[1..], k + 1)
  }

  /**
   * Any bytes shaped like an encoding (top bit set on all but the last, at
   * most five groups in all) read back as the value of their groups,
   * whatever follows them.
   */
  lemma {:induction false} ReadGroups(e: seq<byte>, rest: seq<byte>, k: nat, acc: nat)
    requires 1 <= |e| && k + |e| <= 5
    requires forall i :: 0 <= i < |e| - 1 ==> e[i] >= 0x80
    requires e[|e| - 1] < 0x80
    ensures ReadVarIntFrom(e + rest, k, acc) == Ok((acc + GroupsValue(e, k), k + |e|))
  {
    var s := e + rest;
    assert s[0] == e[0];
    if |e| == 1 {
      assert e[0] % 0x80 == e[0];
      assert GroupsValue(e, k) == Shifted(e[0], k) + GroupsValue([], k + 1);
    } else {
      assert e[0] >= 0x80 && k < 4;
      assert e[0] % 0x80 == e[0] - 0x80;
      assert s[1..] == e[1..] + rest;
      var acc' := acc + Shifted(e[0] - 0x80, k);
      assert ReadVarIntFrom(s, k, acc) == ReadVarIntFrom(s[1..], k + 1, acc');
      ReadGroups(e[1..], rest, k + 1, acc');
      assert GroupsValue(e, k) == Shifted(e[0] - 0x80, k) + GroupsValue(e[1..], k + 1);
    }
  }

  /** The groups of an encoding add up to the value encoded. */
  lemma {:induction false} VarIntGroups(v: nat, k: nat)
    requires v < UINT32_LIMIT
    ensures GroupsValue(VarInt(v), k) == Shifted(v, k)
  {
    if v >= 0x80 {
      var lo, hi := v % 0x80, v / 0x80;
      VarIntCons(v);
      assert (lo + 0x80) % 0x80 == lo;
      GroupsOfCons(lo + 0x80, VarInt(hi), k);
      VarIntGroups(hi, k + 1);
      Regroup(k, v);
    } else {
      assert VarInt(v) == [v];
      GroupsOfCons(v, [], k);
    }
  }

  /** The first byte gives group `k`, the others the groups above it. */
  lemma GroupsOfCons(b: byte, t: seq<byte>, k: nat)
    ensures GroupsValue([b] + t, k) == Shifted(b % 0x80, k) + GroupsValue(t, k + 1)
  {
    assert ([b] + t)[1..] == t;
  }

  /** A value is its low seven bits plus the rest one group up. */
  lemma Regroup(k: nat, v: nat)
    ensures Shifted(v % 0x80, k) + Shifted(v / 0x80, k + 1) == Shifted(v, k)
  {
    ShiftedUp(v / 0x80, k);
    ShiftedAdd(v % 0x80, 0x80 * (v / 0x80), k);
  }

  lemma {:induction false} ShiftedUp(x: nat, k: nat)
    ensures Shifted(x, k + 1) == Shifted(0x80 * x, k)
  {
    if k > 0 {
      ShiftedUp(x, k - 1);
    }
  }

  lemma {:induction false} ShiftedAdd(a: nat, b: nat, k: nat)
    ensures Shifted(a, k) + Shifted(b, k) == Shifted(a + b, k)
  {
    if k > 0 {
      ShiftedAdd(a, b, k - 1);
    }
  }

  /** `readVarInt` inverts `writeVarInt` on every 32-bit value. */
  lemma DecodeVarIntOfVarInt(v: nat, rest: seq<byte>)
    requires v < UINT32_LIMIT
    ensures DecodeVarInt(VarInt(v) + rest) == Ok((v, |VarInt(v)|))
  {
    assert Pow128(5) == 0x8_0000_0000;
    VarIntLength(v, 5);
    VarIntContinuation(v);
    ReadGroups(VarInt(v), rest, 0, 0);
    VarIntGroups(v, 0);
  }

  /** The encoder's 32-bit mask: 2^32 is written as the single byte 0, which reads back as 0. */
  lemma VarIntWide()
    ensures VarInt(UINT32_LIMIT) == [0]
    ensures DecodeVarInt(VarInt(UINT32_LIMIT)) == Ok((0, 1))
  {
  }

  /** The constants the handshake writes. */
  lemma HandshakeVarInts()
    ensures VarInt(0) == [0x00] && VarInt(NextStateStatus) == [0x01]
    ensures VarInt(ProtocolVersion) == [0xFD, 0x05]
  {
  }

  // ---------------------------------------------------------------------
  // Length-prefixed frames
  // ---------------------------------------------------------------------

  /** `writeVarIntPrefixedData` and `writeString`: the length as a VarInt, then the bytes. */
  function Prefixed(data: seq<byte>): (s: seq<byte>)
    ensures |s| > |data|
  {
    VarInt(|data|) + data
  }

  /** `io.ReadFull` of `n` bytes: io.EOF when nothing is left, io.ErrUnexpectedEOF when too little is. */
  function ReadFull(s: seq<byte>, n: nat): (r: Result<seq<byte>>)
    ensures r.Ok? <==> n <= |s|
    ensures r.Ok? ==> r.value == s[..n]
  {
    if |s| < n then Err(if s == [] then "EOF" else "unexpected EOF") else Ok(s[..n])
  }

  /** `readVarIntPrefixedData`: the frame's bytes and the number of bytes it took. */
  function ReadPrefixed(s: seq<byte>): (r: Result<(seq<byte>, nat)>)
    ensures r.Ok? ==> |r.value.0| < r.value.1 <= |s| && s[r.value.1 - |r.value.0|..r.value.1] == r.value.0
  {
    match DecodeVarInt(s)
    case Err(m) => Err(m)
    case Ok(ln) =>
      match ReadFull(s[ln.1..], ln.0)
      case Err(m) => Err(m)
      case Ok(data) => Ok((data, ln.1 + ln.0))
  }

  /** `writeString` / `writeVarIntPrefixedData` appending to a buffer. */
  method WritePrefixed(buf: seq<byte>, data: seq<byte>) returns (out: seq<byte>)
    ensures out == buf + Prefixed(data)
  {
    out := WriteVarInt(buf, |data|);
    out := out + data;
  }

  /** `readVarIntPrefixedData` on the bytes from `pos` on; returns the data and the position after it. */
  method ReadVarIntPrefixedData(data: seq<byte>, pos: nat) returns (r: Result<(seq<byte>, nat)>)
    requires pos <= |data|
    ensures r.Ok? <==> ReadPrefixed(data[pos..]).Ok?
    ensures r.Err? ==> r.msg == ReadPrefixed(data[pos..]).msg
    ensures r.Ok? ==> r.value == (ReadPrefixed(data[pos..]).value.0, pos + ReadPrefixed(data[pos..]).value.1)
  {
    var len := ReadVarInt(data, pos);
    if len.Err? {
      return Err(len.msg);
    }
    var length := len.value.0;
    var p := len.value.1;
    assert data[pos..][p - pos..] == data[p..];
    if |data| - p < length {
      return Err(if p == |data| then "EOF" else "unexpected EOF");
    }
    assert data[p..][..length] == data[p..p + length];
    return Ok((data[p..p + length], p + length));
  }

  /** A frame reads back as its own data, whatever follows it. */
  lemma ReadPrefixedOfPrefixed(data: seq<byte>, rest: seq<byte>)
    requires |data| < UINT32_LIMIT
    ensures ReadPrefixed(Prefixed(data) + rest) == Ok((data, |Prefixed(data)|))
  {
    var s := Prefixed(data) + rest;
    assert s == VarInt(|data|) + (data + rest);
    DecodeVarIntOfVarInt(|data|, data + rest);
    var n := |VarInt(|data|)|;
    assert s[n..] == data + rest;
    assert (data + rest)[..|data|] == data;
  }

  /** A frame cut short anywhere is refused. */
  lemma TruncatedFrameRejected(data: seq<byte>, cut: nat)
    requires |data| < UINT32_LIMIT && 0 < cut <= |Prefixed(data)|
    ensures ReadPrefixed(Prefixed(data)[..|Prefixed(data)| - cut]).Err?
  {
    var f := Prefixed(data);
    var s := f[..|f| - cut];
    var n := |VarInt(|data|)|;
    if |s| >= n {
      assert s == VarInt(|data|) + s[n..];
      DecodeVarIntOfVarInt(|data|, s[n..]);
    } else {
      ShortVarIntRejected(|data|, s);
    }
  }

  /** Fewer bytes than an encoding takes never decode. */
  lemma ShortVarIntRejected(v: nat, s: seq<byte>)
    requires v < UINT32_LIMIT && |s| < |VarInt(v)| && s == VarInt(v)[..|s|]
    ensures DecodeVarInt(s).Err?
  {
    VarIntContinuation(v);
    ShortPrefixRejected(VarInt(v), s, 0, 0);
  }

  lemma {:induction false} ShortPrefixRejected(e: seq<byte>, s: seq<byte>, k: nat, acc: nat)
    requires k < 5 && |s| < |e| && s == e[..|s|]
    requires forall i :: 0 <= i < |e| - 1 ==> e[i] >= 0x80
    ensures ReadVarIntFrom(s, k, acc).Err?
  {
    if s != [] {
      assert s[0] == e[0] >= 0x80;
      if k < 4 {
        assert s[1..] == e[1..][..|s| - 1];
        ShortPrefixRejected(e[1..], s[1..], k + 1, acc + Shifted(s[0] - 0x80, k));
      }
    }
  }
  // ---------------------------------------------------------------------
  // The exchange
  // ---------------------------------------------------------------------

  /**
   * The handshake packet `sendHandshake` builds: packet ID 0x00, the
   * protocol version, the host as a string, the port's low 16 bits
   * big-endian (`byte(port >> 8)`, `byte(port)`), and the next state.
   */
  function HandshakePacket(host: seq<byte>, port: int): (p: seq<byte>)
    ensures |p| == |Prefixed(host)| + 6
  {
    VarInt(0) + HandshakeBody(host, port)
  }

  /** The handshake packet after its ID. */
  function HandshakeBody(host: seq<byte>, port: int): seq<byte>
  {
    VarInt(ProtocolVersion) + Prefixed(host) + [(port / 0x100) % 0x100, port % 0x100] + VarInt(NextStateStatus)
  }

  /** `sendStatusRequest`'s frame: a packet holding only the ID 0x00. */
  const StatusRequestFrame: seq<byte> := Prefixed([0x00])

  /** Everything `Query` writes to the connection, for a host given as text. */
  function Request(host: string, port: int): seq<byte>
  {
    Prefixed(HandshakePacket(Utf8(host), port)) + StatusRequestFrame
  }

  /** `sendHandshake`: the packet is assembled in buffers and written with its length. */
  method SendHandshake(conn: seq<byte>, host: string, port: int) returns (out: seq<byte>)
    ensures out == conn + Prefixed(HandshakePacket(Utf8(host), port))
  {
    var buf := WriteVarInt([], ProtocolVersion);
    assert buf == VarInt(ProtocolVersion);
    buf := WritePrefixed(buf, Utf8(host));
    buf := buf + [(port / 0x100) % 0x100, port % 0x100];
    buf := WriteVarInt(buf, NextStateStatus);
    assert buf == HandshakeBody(Utf8(host), port);
    var packet := WriteVarInt([], 0);
    assert packet == VarInt(0);
    packet := packet + buf;
    out := WritePrefixed(conn, packet);
  }

  /** `sendStatusRequest` */
  method SendStatusRequest(conn: seq<byte>) returns (out: seq<byte>)
    ensures out == conn + StatusRequestFrame
  {
    out := WritePrefixed(conn, [0x00]);
  }

  /** The status request is the two bytes 0x01 0x00. */
  lemma StatusRequestBytes()
    ensures StatusRequestFrame == [0x01, 0x00]
  {
  }

  lemma PortBytes(port: int)
    ensures ((port / 0x100) % 0x100) * 0x100 + port % 0x100 == port % 0x1_0000
  {
  }

  /**
   * What a server reading the request finds: the handshake packet in the
   * first frame, then the status request holding only the ID 0x00.
   */
  lemma RequestFrames(host: seq<byte>, port: int)
    requires |host| + 16 < UINT32_LIMIT
    ensures var pk := HandshakePacket(host, port);
      var req := Prefixed(pk) + StatusRequestFrame;
      ReadPrefixed(req) == Ok((pk, |Prefixed(pk)|))
      && ReadPrefixed(req[|Prefixed(pk)|..]) == Ok(([0x00], 2))
  {
    var pk := HandshakePacket(host, port);
    DecodeVarIntOfVarInt(|host|, host);
    ReadPrefixedOfPrefixed(pk, StatusRequestFrame);
    var req := Prefixed(pk) + StatusRequestFrame;
    assert req[|Prefixed(pk)|..] == StatusRequestFrame + [];
    ReadPrefixedOfPrefixed([0x00], []);
  }

  /**
   * The handshake packet's fields read back: ID 0x00, version 765, the host
   * bytes, the port modulo 2^16 in two bytes, next state 1.
   */
  lemma HandshakeFields(host: seq<byte>, port: int)
    requires |host| < UINT32_LIMIT
    ensures var pk := HandshakePacket(host, port); var n := |Prefixed(host)|;
      pk[0] == 0x00 && DecodeVarInt(pk[1..]) == Ok((ProtocolVersion, 2))
      && ReadPrefixed(pk[3..]) == Ok((host, n))
      && (pk[3 + n] as int) * 0x100 + pk[4 + n] == port % 0x1_0000
      && pk[5 + n..] == [NextStateStatus]
  {
    var pk := HandshakePacket(host, port);
    var n := |Prefixed(host)|;
    HandshakeVarInts();
    var tail := [(port / 0x100) % 0x100, port % 0x100] + VarInt(NextStateStatus);
    assert HandshakeBody(host, port) == VarInt(ProtocolVersion) + (Prefixed(host) + tail);
    assert pk == [0x00] + VarInt(ProtocolVersion) + (Prefixed(host) + tail);
    assert pk[1..] == VarInt(ProtocolVersion) + (Prefixed(host) + tail);
    DecodeVarIntOfVarInt(ProtocolVersion, Prefixed(host) + tail);
    assert pk[3..] == Prefixed(host) + tail;
    ReadPrefixedOfPrefixed(host, tail);
    assert pk[3 + n..] == tail;
    PortBytes(port);
  }

  /** The response the server sends back: packet ID 0x00 and the JSON as a string, framed. */
  function StatusResponse(json: seq<byte>): seq<byte>
  {
    Prefixed(VarInt(0) + Prefixed(json))
  }

  /**
   * What `Query` makes of the packet it read: it skips the packet ID without
   * looking at it, reads the JSON's length as a VarInt and then that many
   * bytes.
   */
  function JsonPayload(responseData: seq<byte>): (r: Result<seq<byte>>)
    ensures |responseData| < 1 ==> r == Err("response too short")
  {
    if |responseData| < 1 then Err("response too short")
    else
      var body := responseData[1..];
      match DecodeVarInt(body)
      case Err(m) => Err("read JSON length failed: " + m)
      case Ok(ln) =>
        match ReadFull(body[ln.1..], ln.0)
        case Err(m) => Err("read JSON data failed: " + m)
        case Ok(json) => Ok(json)
  }

  /** The framed packet read from the connection, then its JSON bytes. */
  function ReadResponse(reply: seq<byte>): (r: Result<seq<byte>>)
    ensures ReadPrefixed(reply).Err? ==> r == Err("read response failed: " + ReadPrefixed(reply).msg)
  {
    match ReadPrefixed(reply)
    case Err(m) => Err("read response failed: " + m)
    case Ok(dn) => JsonPayload(dn.0)
  }

  /** The packet ID is never checked: any first byte gives the same JSON. */
  lemma JsonPayloadIgnoresID(id: byte, body: seq<byte>)
    ensures JsonPayload([id] + body) == JsonPayload([0x00] + body)
  {
    assert ([id] + body)[1..] == body == ([0x00] + body)[1..];
  }

  /** The response reads back as the JSON it carries, whatever follows it. */
  lemma ReadResponseOfStatus(json: seq<byte>, rest: seq<byte>)
    requires |json| + 6 < UINT32_LIMIT
    ensures ReadResponse(StatusResponse(json) + rest) == Ok(json)
  {
    DecodeVarIntOfVarInt(|json|, json);
    var pk := VarInt(0) + Prefixed(json);
    assert VarInt(0) == [0x00];
    ReadPrefixedOfPrefixed(pk, rest);
    var body := pk[1..];
    assert body == VarInt(|json|) + json;
    assert body[|VarInt(|json|)|..] == json;
    assert body[|VarInt(|json|)|..][..|json|] == json;
  }

  // ---------------------------------------------------------------------
  // The status JSON and the MOTD
  // ---------------------------------------------------------------------

  /** A decoded JSON value, as far as `cleanMotd` looks into one. */
  datatype Json = JString(str: string) | JObject(fields: map<string, Json>) | JArray(items: seq<Json>) | JOther

  datatype Sample = Sample(name: string, id: string)

  /** `MinecraftStatus`: the fields `json.Unmarshal` fills in; `sample` is None when absent. */
  datatype Status = Status(
    versionName: string,
    versionProtocol: int,
    max: int,
    online: int,
    sample: Option<seq<Sample>>,
    description: Json,
    favicon: string)

  /** An object's "text" member when it is a string, else "". */
  function TextField(m: map<string, Json>): string
  {
    if "text" in m && m["text"].JString? then m["text"].str else ""
  }

  /** The text one element of "extra" adds: an object's "text", or the element itself when it is a string. */
  function FragmentText(item: Json): string
  {
    match item
    case JObject(m) => TextField(m)
    case JString(v) => v
    case _ => ""
  }

  /** The texts of the "extra" elements, in order. */
  function FragmentsText(items: seq<Json>): string
  {
    if items == [] then "" else FragmentsText(items[..|items| - 1]) + FragmentText(items[|items| - 1])
  }

  /** The text `cleanMotd` gathers: a string as it is, an object's "text" followed by its "extra" texts. */
  function MotdText(motd: Json): string
  {
    match motd
    case JString(v) => v
    case JObject(m) =>
      TextField(m) + (if "extra" in m && m["extra"].JArray? then FragmentsText(m["extra"].items) else "")
    case _ => ""
  }

  /** The characters the pattern `§[0-9a-fk-or]` accepts after the section sign. */
  predicate IsFormatCode(c: char) {
    '0' <= c <= '9' || 'a' <= c <= 'f' || 'k' <= c <= 'o' || c == 'r'
  }

  /**
   * `ReplaceAllString` of `§[0-9a-fk-or]` by "": one scan from the left
   * deleting every non-overlapping match; what the deletions bring together
   * is not looked at again.
   */
  function StripFormatting(s: string): (r: string)
    ensures |r| <= |s|
  {
    if s == [] then []
    else if |s| >= 2 && s[0] == '§' && IsFormatCode(s[1]) then StripFormatting(s[2..])
    else [s[0]] + StripFormatting(s[1..])
  }

  /** The name a Minecraft server reports: its MOTD, without format codes, trimmed. */
  function CleanMotdText(motd: Json): string
  {
    Text.TrimSpace(StripFormatting(MotdText(motd)))
  }

  /** `cleanMotd` */
  method CleanMotd(motd: Json) returns (clean: string)
    ensures clean == CleanMotdText(motd)
  {
    var text := "";
    match motd {
      case JString(v) =>
        text := v;
      case JObject(m) =>
        if "text" in m && m["text"].JString? {
          text := m["text"].str;
        }
        assert text == TextField(m);
        if "extra" in m && m["extra"].JArray? {
          text := AppendExtra(text, m["extra"].items);
        }
        assert text == MotdText(motd);
      case _ =>
    }
    clean := Text.TrimSpace(StripFormatting(text));
  }

  /** The loop of `cleanMotd` that appends the "extra" texts one after another. */
  method AppendExtra(text: string, extra: seq<Json>) returns (out: string)
    ensures out == text + FragmentsText(extra)
  {
    out := text;
    var i := 0;
    while i < |extra|
      invariant 0 <= i <= |extra|
      invariant out == text + FragmentsText(extra[..i])
    {
      match extra[i] {
        case JObject(im) =>
          if "text" in im && im["text"].JString? {
            out := out + im["text"].str;
          }
        case JString(v) =>
          out := out + v;
        case _ =>
      }
      assert extra[..i + 1][..i] == extra[..i];
      i := i + 1;
    }
    assert extra[..|extra|] == extra;
  }

  /** Text without a section sign is left as it is. */
  lemma {:induction false} StripFormattingPlain(s: string)
    requires '§' !in s
    ensures StripFormatting(s) == s
  {
    if s != [] {
      StripFormattingPlain(s[1..]);
    }
  }

  /** Text before the first section sign is kept; a code right after it is dropped with it. */
  lemma {:induction false} StripFormattingPrefix(p: string, s: string)
    requires '§' !in p
    ensures StripFormatting(p + s) == p + StripFormatting(s)
  {
    if p != [] {
      assert p[0] in p;
      assert (p + s)[0] == p[0];
      assert (p + s)[1..] == p[1..] + s;
      assert StripFormatting(p + s) == [p[0]] + StripFormatting(p[1..] + s);
      StripFormattingPrefix(p[1..], s);
      assert p + StripFormatting(s) == [p[0]] + (p[1..] + StripFormatting(s));
    } else {
      assert p + s == s;
    }
  }

  lemma StripFormattingCode(c: char, s: string)
    requires IsFormatCode(c)
    ensures StripFormatting(['§', c] + s) == StripFormatting(s)
  {
    assert (['§', c] + s)[2..] == s;
  }

  /** One pass only: a code formed by a deletion stays, so a second pass can change the result. */
  lemma StripFormattingSinglePass()
    ensures StripFormatting("§§cc") == "§c"
    ensures StripFormatting(StripFormatting("§§cc")) == ""
  {
  }

  /** A description object: a "text" and "extra" objects each holding a "text". */
  function Described(text: string, parts: seq<string>): Json
  {
    JObject(map["text" := JString(text), "extra" := JArray(Fragments(parts))])
  }

  function Fragments(parts: seq<string>): (items: seq<Json>)
    ensures |items| == |parts|
  {
    seq(|parts|, i requires 0 <= i < |parts| => JObject(map["text" := JString(parts[i])]))
  }

  function Concat(parts: seq<string>): string
  {
    if parts == [] then "" else Concat(parts[..|parts| - 1]) + parts[|parts| - 1]
  }

  lemma {:induction false} FragmentsTextOfFragments(parts: seq<string>)
    ensures FragmentsText(Fragments(parts)) == Concat(parts)
  {
    if parts != [] {
      var n := |parts| - 1;
      assert Fragments(parts)[..n] == Fragments(parts[..n]);
      FragmentsTextOfFragments(parts[..n]);
      assert TextField(map["text" := JString(parts[n])]) == parts[n];
    }
  }

  /** The "text" comes first, then the "extra" texts in order. */
  lemma DescribedText(text: string, parts: seq<string>)
    ensures MotdText(Described(text, parts)) == text + Concat(parts)
  {
    var m := Described(text, parts).fields;
    assert TextField(m) == text;
    assert m["extra"] == JArray(Fragments(parts));
    FragmentsTextOfFragments(parts);
  }

  /**
   * The description of the tests has this shape: a welcome text, then three
   * plain parts and a part that starts with a colour code. The parts are
   * joined, the code dropped, and line breaks inside kept.
   */
  lemma ComplexDescriptionText(welcome: string, a: string, b: string, c: string, code: char, last: string)
    requires '§' !in welcome && '§' !in a && '§' !in b && '§' !in c && '§' !in last
    requires IsFormatCode(code)
    ensures CleanMotdText(Described(welcome, [a, b, c, ['§', code] + last]))
         == Text.TrimSpace(welcome + a + b + c + last)
  {
    var parts := [a, b, c, ['§', code] + last];
    var stripped := StripFormatting(MotdText(Described(welcome, parts)));
    assert stripped == welcome + a + b + c + last by {
      StrippedFour(welcome, a, b, c, code, last);
    }
  }

  lemma StrippedFour(welcome: string, a: string, b: string, c: string, code: char, last: string)
    requires '§' !in welcome && '§' !in a && '§' !in b && '§' !in c && '§' !in last
    requires IsFormatCode(code)
    ensures StripFormatting(MotdText(Described(welcome, [a, b, c, ['§', code] + last])))
         == welcome + a + b + c + last
  {
    var parts := [a, b, c, ['§', code] + last];
    DescribedText(welcome, parts);
    ConcatFour(a, b, c, ['§', code] + last);
    var p := welcome + a + b + c;
    NoCodeInFour(welcome, a, b, c);
    AppendFour(welcome, a, b, c, ['§', code] + last);
    StripFormattingPrefix(p, ['§', code] + last);
    StripFormattingCode(code, last);
    StripFormattingPlain(last);
  }

  lemma ConcatFour(a: string, b: string, c: string, d: string)
    ensures Concat([a, b, c, d]) == a + b + c + d
  {
    var parts := [a, b, c, d];
    assert parts[..1][..0] == [];
    assert parts[..2][..1] == parts[..1];
    assert parts[..3][..2] == parts[..2];
    assert parts[..4][..3] == parts[..3];
    assert parts[..4] == parts;
    assert Concat(parts[..1]) == a;
    assert Concat(parts[..2]) == a + b;
    assert Concat(parts[..3]) == a + b + c;
  }

  lemma AppendFour(w: string, a: string, b: string, c: string, d: string)
    ensures w + (a + b + c + d) == w + a + b + c + d
  {
  }

  lemma NoCodeInFour(w: string, a: string, b: string, c: string)
    requires '§' !in w && '§' !in a && '§' !in b && '§' !in c
    ensures '§' !in w + a + b + c
  {
  }

  /** A plain string description is the name itself once trimmed; anything else but a string or object gives "". */
  lemma CleanMotdOfString(v: string)
    requires '§' !in v
    ensures CleanMotdText(JString(v)) == Text.TrimSpace(v)
    ensures CleanMotdText(JOther) == "" && CleanMotdText(JArray([JString(v)])) == ""
  {
    StripFormattingPlain(v);
  }

  // ---------------------------------------------------------------------
  // The result
  // ---------------------------------------------------------------------

  /** The sample's names, each as a player with no score and no duration. */
  function SampleList(sample: seq<Sample>): (l: seq<Player>)
  {
    seq(|sample|, i requires 0 <= i < |sample| => Player(sample[i].name, 0, 0))
  }

  /** The loop that copies the sample's names into the player list. */
  method SamplePlayers(sample: seq<Sample>) returns (list: seq<Player>)
    ensures |list| == |sample|
    ensures forall i :: 0 <= i < |sample| ==> list[i] == Player(sample[i].name, 0, 0)
  {
    list := [];
    var i := 0;
    while i < |sample|
      invariant 0 <= i <= |sample| && |list| == i
      invariant forall j :: 0 <= j < i ==> list[j] == Player(sample[j].name, 0, 0)
    {
      list := list + [Player(sample[i].name, 0, 0)];
      i := i + 1;
    }
  }

  /** The player list: nil unless asked for; the sample's names, or empty when there is no sample. */
  function PlayerList(st: Status, requested: bool): (l: Option<seq<Player>>)
  {
    if !requested then None
    else if st.sample.Some? then Some(SampleList(st.sample.value))
    else Some([])
  }

  /** The three cases of the tests: not asked for, no sample, a sample. */
  lemma PlayerListCases(st: Status, requested: bool)
    ensures PlayerList(st, requested).None? <==> !requested
    ensures requested && st.sample.None? ==> PlayerList(st, requested) == Some([])
    ensures requested && st.sample.Some? ==>
      var l := PlayerList(st, requested).value;
      |l| == |st.sample.value|
      && forall i :: 0 <= i < |l| ==> l[i].name == st.sample.value[i].name && l[i].score == 0
  {
  }

  /** The result of a successful query: the MOTD as the name, the version, the counts, Online, the ping. */
  function QueryResult(st: Status, ping: int, list: Option<seq<Player>>): ServerInfo
  {
    var r := ServerInfo(CleanMotdText(st.description), "", st.versionName, "", 0, 0,
                        PlayerInfo(st.online, st.max, None), "", ping, true, map[]);
    r.(game := GameDetector.DetectGame(Some(r), "minecraft"), players := r.players.(list := list))
  }

  /**
   * `Query` against a server that answers the bytes written with the bytes
   * it sends back, and a JSON decoder that gives None for text it refuses.
   * The connection is dialled before anything else: the dial splits a
   * non-empty address itself and fails with Go's "dial tcp: " error when it
   * cannot; otherwise `dial` is its outcome, the text of its failure (refused,
   * timed out, an unknown port name) or None once connected. Only then is
   * the address split again, which can fail only for the empty address, and
   * the port read as a number.
   */
  function QueryOutcome(server: seq<byte> -> seq<byte>, decode: seq<byte> -> Option<Status>, dial: Option<string>,
                        addr: string, ping: int, opts: Options): (r: Result<ServerInfo>)
    ensures addr != [] && NetAddr.SplitHostPort(addr).Err? ==>
      r == Err("connection failed: dial tcp: " + NetAddr.SplitHostPort(addr).msg)
    ensures (addr == [] || NetAddr.SplitHostPort(addr).Ok?) && dial.Some? ==> r == Err("connection failed: " + dial.value)
    ensures addr == [] && dial.None? ==> r == Err("invalid address: " + "missing port in address")
    ensures NetAddr.SplitHostPort(addr).Ok? && dial.None? && Text.Atoi(NetAddr.SplitHostPort(addr).value.1).None? ==>
      r == Err("invalid port: " + Text.AtoiError(NetAddr.SplitHostPort(addr).value.1))
  {
    if addr != [] && NetAddr.SplitHostPort(addr).Err? then Err("connection failed: dial tcp: " + NetAddr.SplitHostPort(addr).msg)
    else if dial.Some? then Err("connection failed: " + dial.value)
    else
      match NetAddr.SplitHostPort(addr)
      case Err(m) => Err("invalid address: " + m)
      case Ok(hp) =>
        match Text.Atoi(hp.1)
        case None => Err("invalid port: " + Text.AtoiError(hp.1))
        case Some(port) =>
          match ReadResponse(server(Request(hp.0, port)))
          case Err(m) => Err(m)
          case Ok(json) =>
            match decode(json)
            case None => Err("failed to parse JSON")
            case Some(st) => Ok(QueryResult(st, ping, PlayerList(st, opts.players)))
  }

  /** `Query`, step by step as the Go code goes. */
  method Query(server: seq<byte> -> seq<byte>, decode: seq<byte> -> Option<Status>, dial: Option<string>,
               addr: string, ping: int, opts: Options) returns (r: Result<ServerInfo>)
    ensures r == QueryOutcome(server, decode, dial, addr, ping, opts)
  {
    if addr != [] {
      var dialSplit := NetAddr.SplitHostPort(addr);
      if dialSplit.Err? {
        return Err("connection failed: dial tcp: " + dialSplit.msg);
      }
    }
    if dial.Some? {
      return Err("connection failed: " + dial.value);
    }
    var split := NetAddr.SplitHostPort(addr);
    if split.Err? {
      return Err("invalid address: " + split.msg);
    }
    var host := split.value.0;
    var portStr := split.value.1;
    var port := Text.Atoi(portStr);
    if port.None? {
      return Err("invalid port: " + Text.AtoiError(portStr));
    }
    var sent := SendRequest(host, port.value);
    var reply := server(sent);
    var json := ReadStatus(reply);
    if json.Err? {
      return Err(json.msg);
    }
    var status := decode(json.value);
    if status.None? {
      return Err("failed to parse JSON");
    }
    var info := Report(status.value, ping, opts);
    return Ok(info);
  }

  /** The end of `Query`: the result assembled from the decoded status. */
  method Report(st: Status, ping: int, opts: Options) returns (info: ServerInfo)
    ensures info == QueryResult(st, ping, PlayerList(st, opts.players))
  {
    var motd := CleanMotd(st.description);
    info := ServerInfo(motd, "", st.versionName, "", 0, 0, PlayerInfo(st.online, st.max, None), "", ping, true, map[]);
    info := info.(game := GameDetector.DetectGame(Some(info), "minecraft"));
    if opts.players {
      if st.sample.Some? {
        var list := SamplePlayers(st.sample.value);
        assert list == SampleList(st.sample.value);
        info := info.(players := info.players.(list := Some(list)));
      } else {
        info := info.(players := info.players.(list := Some([])));
      }
    }
  }

  /** The writing part of `Query`: the handshake, then the status request. */
  method SendRequest(host: string, port: int) returns (sent: seq<byte>)
    ensures sent == Request(host, port)
  {
    sent := SendHandshake([], host, port);
    sent := SendStatusRequest(sent);
  }

  /** The reading part of `Query`: the framed packet, then the JSON inside it. */
  method ReadStatus(reply: seq<byte>) returns (r: Result<seq<byte>>)
    ensures r == ReadResponse(reply)
  {
    var response := ReadVarIntPrefixedData(reply, 0);
    assert reply[0..] == reply;
    if response.Err? {
      return Err("read response failed: " + response.msg);
    }
    r := ReadJson(response.value.0);
  }

  /** The part of `Query` after the packet is read: skip the ID, read the length, read the JSON. */
  method ReadJson(responseData: seq<byte>) returns (r: Result<seq<byte>>)
    ensures r == JsonPayload(responseData)
  {
    if |responseData| < 1 {
      return Err("response too short");
    }
    var jsonLength := ReadVarInt(responseData, 1);
    if jsonLength.Err? {
      return Err("read JSON length failed: " + jsonLength.msg);
    }
    var length := jsonLength.value.0;
    var p := jsonLength.value.1;
    assert responseData[1..][p - 1..] == responseData[p..];
    if |responseData| - p < length {
      return Err("read JSON data failed: " + (if p == |responseData| then "EOF" else "unexpected EOF"));
    }
    assert responseData[p..][..length] == responseData[p..p + length];
    return Ok(responseData[p..p + length]);
  }

  /**
   * What a successful query reports: the cleaned MOTD as the name, the
   * version name, the online and maximum counts, Online, the ping, the game
   * "minecraft", no Extra, and a player list only when asked for.
   */
  lemma QueryReports(server: seq<byte> -> seq<byte>, decode: seq<byte> -> Option<Status>, dial: Option<string>,
                     addr: string, ping: int, opts: Options)
    requires QueryOutcome(server, decode, dial, addr, ping, opts).Ok?
    ensures var hp := NetAddr.SplitHostPort(addr).value;
      var json := ReadResponse(server(Request(hp.0, Text.Atoi(hp.1).value))).value;
      var st := decode(json).value;
      var r := QueryOutcome(server, decode, dial, addr, ping, opts).value;
      r.name == CleanMotdText(st.description) && r.version == st.versionName
      && r.players.current == st.online && r.players.max == st.max
      && r.online && r.ping == ping && r.game == "minecraft" && r.extra == map[]
      && r.players.list == PlayerList(st, opts.players)
  {
  }

  /**
   * The server of the tests: once connected, it answers the request for
   * host:port with the status as JSON; the query reports that status.
   */
  lemma QueryOfMock(server: seq<byte> -> seq<byte>, decode: seq<byte> -> Option<Status>,
                    host: string, port: int, json: seq<byte>, st: Status, rest: seq<byte>,
                    ping: int, opts: Options)
    requires NetAddr.PlainHost(host) && Text.INT64_MIN <= port <= Text.INT64_MAX
    requires |json| + 6 < UINT32_LIMIT
    requires server(Request(host, port)) == StatusResponse(json) + rest
    requires decode(json) == Some(st)
    ensures QueryOutcome(server, decode, None, NetAddr.JoinHostPort(host, Text.IntToString(port)), ping, opts)
         == Ok(QueryResult(st, ping, PlayerList(st, opts.players)))
  {
    NetAddr.IntToStringPlain(port);
    NetAddr.SplitJoin(host, Text.IntToString(port));
    Text.AtoiOfIntToString(port);
    ReadResponseOfStatus(json, rest);
  }

  /** A host without a port never reaches the handshake: the dial refuses it, whatever the server. */
  lemma QueryWithoutPort(server: seq<byte> -> seq<byte>, decode: seq<byte> -> Option<Status>, dial: Option<string>,
                         host: string, ping: int, opts: Options)
    requires host != [] && ':' !in host
    ensures QueryOutcome(server, decode, dial, host, ping, opts)
         == Err("connection failed: dial tcp: " + "address " + host + ": " + "missing port in address")
  {
    NetAddr.MissingPort(host);
  }
}

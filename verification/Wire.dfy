/**
 * The wire: bincode 1 with its default options (little-endian fixed-width integers, `u32` enum tags,
 * `u64` lengths, trailing bytes of a frame ignored), length-prefixed frames, and UDP packets.
 */
module Wire {
  import opened Types
  import opened Bytes

  const PROTO_VERSION: Byte := 4
  const MAX_FRAME: nat := 0x10_0000

  type Digest = s: seq<Byte> | |s| == 32 witness seq(32, _ => 0)
  type Octets4 = s: seq<Byte> | |s| == 4 witness [0, 0, 0, 0]
  type Octets16 = s: seq<Byte> | |s| == 16 witness seq(16, _ => 0)

  datatype Hello = ControlChannelHello(version: Byte, digest: Digest) | DataChannelHello(version: Byte, digest: Digest)
  datatype Ack = AckOk | UserNotExist | AuthFailed
  datatype RegisterAck = RegisterOk(domain: Option<string>) | RegisterErr(message: string)
  datatype ClientCmd = Disabled(ports: seq<Port>)
  datatype ControlChannelCmd = CreateDataChannel | HeartBeat | Directory(rows: seq<Mapping>)
  datatype DataChannelCmd = StartForwardTcp(port: Port) | StartForwardUdp(port: Port)
  datatype SocketAddr = V4(ip4: Octets4, port: Port) | V6(ip6: Octets16, port: Port)
  datatype UdpTraffic = UdpTraffic(from: SocketAddr, data: seq<Byte>)

  // ---------- codecs ----------

  type Parsed<T> = Option<(T, seq<Byte>)>

  /** How a type is written, and how it is read off the front of a byte string. */
  datatype Codec<!T> = Codec(enc: T -> seq<Byte>, dec: seq<Byte> -> Parsed<T>)

  /** `v` reads back from in front of any bytes, which are left over. */
  ghost predicate RoundTrips<T(!new)>(c: Codec<T>, v: T) {
    forall rest :: c.dec(c.enc(v) + rest) == Some((v, rest))
  }

  function EncPort(p: Port): seq<Byte> {
    LE(p, 2)
  }

  function DecPort(s: seq<Byte>): Parsed<Port> {
    var r := TakeLE(s, 2);
    if r.None? || r.value.0 > 65535 then None else Some((r.value.0, r.value.1))
  }

  function PortCodec(): Codec<Port> {
    Codec(EncPort, DecPort)
  }

  lemma PortReadsBack(p: Port, rest: seq<Byte>)
    ensures DecPort(EncPort(p) + rest) == Some((p, rest))
  {
    Widths();
    TakeOfLE(p, 2, rest);
  }

  lemma PortRoundTrips(p: Port)
    ensures RoundTrips(PortCodec(), p)
  {
    forall rest
      ensures DecPort(EncPort(p) + rest) == Some((p, rest))
    {
      PortReadsBack(p, rest);
    }
  }

  function EncString(x: string): seq<Byte> {
    LE(|Utf8(x)|, 8) + Utf8(x)
  }

  function DecString(s: seq<Byte>): Parsed<string> {
    var n := TakeLE(s, 8);
    if n.None? || |n.value.1| < n.value.0 then None
    else
      var x := FromUtf8(n.value.1[..n.value.0]);
      if x.None? then None else Some((x.value, n.value.1[n.value.0..]))
  }

  lemma StringReadsBack(x: string, rest: seq<Byte>)
    requires |Utf8(x)| < Pow256(8)
    ensures DecString(EncString(x) + rest) == Some((x, rest))
  {
    var u := Utf8(x);
    assert EncString(x) + rest == LE(|u|, 8) + (u + rest);
    TakeOfLE(|u|, 8, u + rest);
    FromUtf8OfUtf8(x);
    assert (u + rest)[..|u|] == u && (u + rest)[|u|..] == rest;
  }

  // ---------- vectors ----------

  function EncItems<T>(c: Codec<T>, v: seq<T>): seq<Byte> {
    if v == [] then [] else c.enc(v[0]) + EncItems(c, v[1..])
  }

  function EncVec<T>(c: Codec<T>, v: seq<T>): seq<Byte> {
    LE(|v|, 8) + EncItems(c, v)
  }

  function DecItems<T>(c: Codec<T>, n: nat, s: seq<Byte>): Parsed<seq<T>>
    decreases n
  {
    if n == 0 then Some(([], s))
    else
      var x := c.dec(s);
      if x.None? then None
      else
        var r := DecItems(c, n - 1, x.value.1);
        if r.None? then None else Some(([x.value.0] + r.value.0, r.value.1))
  }

  function DecVec<T>(c: Codec<T>, s: seq<Byte>): Parsed<seq<T>> {
    var n := TakeLE(s, 8);
    if n.None? then None else DecItems(c, n.value.0, n.value.1)
  }

  lemma {:induction false} ItemsRoundTrip<T(!new)>(c: Codec<T>, v: seq<T>, rest: seq<Byte>)
    requires forall i :: 0 <= i < |v| ==> RoundTrips(c, v[i])
    ensures DecItems(c, |v|, EncItems(c, v) + rest) == Some((v, rest))
  {
    if v == [] {
      assert EncItems(c, v) + rest == rest;
    } else {
      ItemsRoundTrip(c, v[1..], rest);
      assert EncItems(c, v) + rest == c.enc(v[0]) + (EncItems(c, v[1..]) + rest);
      assert RoundTrips(c, v[0]);
      assert c.dec(c.enc(v[0]) + (EncItems(c, v[1..]) + rest)) == Some((v[0], EncItems(c, v[1..]) + rest));
      assert v == [v[0]] + v[1..];
    }
  }

  lemma VecRoundTrips<T(!new)>(c: Codec<T>, v: seq<T>, rest: seq<Byte>)
    requires |v| < Pow256(8) && forall i :: 0 <= i < |v| ==> RoundTrips(c, v[i])
    ensures DecVec(c, EncVec(c, v) + rest) == Some((v, rest))
  {
    assert EncVec(c, v) + rest == LE(|v|, 8) + (EncItems(c, v) + rest);
    TakeOfLE(|v|, 8, EncItems(c, v) + rest);
    ItemsRoundTrip(c, v, rest);
  }

  /** A vector's bytes bound its length and each of its items. */
  lemma {:induction false} ItemsSize<T>(c: Codec<T>, v: seq<T>)
    requires forall i :: 0 <= i < |v| ==> |c.enc(v[i])| >= 1
    ensures |EncItems(c, v)| >= |v|
    ensures forall i :: 0 <= i < |v| ==> |c.enc(v[i])| <= |EncItems(c, v)|
  {
    if v != [] {
      assert forall i :: 0 <= i < |v[1..]| ==> v[1..][i] == v[i + 1];
      ItemsSize(c, v[1..]);
      forall i | 0 <= i < |v|
        ensures |c.enc(v[i])| <= |EncItems(c, v)|
      {
        assert i > 0 ==> v[i] == v[1..][i - 1];
      }
    }
  }

  // ---------- messages ----------

  function Tag(n: nat): seq<Byte> {
    LE(n, 4)
  }

  function EncHello(h: Hello): seq<Byte> {
    Tag(if h.ControlChannelHello? then 0 else 1) + [h.version] + h.digest
  }

  function DecHello(s: seq<Byte>): Parsed<Hello> {
    var t := TakeLE(s, 4);
    if t.None? || t.value.0 > 1 || |t.value.1| < 33 then None
    else
      var v: Byte, d: Digest := t.value.1[0], t.value.1[1..33];
      Some((if t.value.0 == 0 then ControlChannelHello(v, d) else DataChannelHello(v, d), t.value.1[33..]))
  }

  function EncAck(a: Ack): seq<Byte> {
    Tag(match a case AckOk => 0 case UserNotExist => 1 case AuthFailed => 2)
  }

  function DecAck(s: seq<Byte>): Parsed<Ack> {
    var t := TakeLE(s, 4);
    if t.None? || t.value.0 > 2 then None
    else Some((if t.value.0 == 0 then AckOk else if t.value.0 == 1 then UserNotExist else AuthFailed, t.value.1))
  }

  function EncKey(k: Key): seq<Byte> {
    Tag(if k.proto == Tcp then 0 else 1) + EncPort(k.local)
  }

  function DecKey(s: seq<Byte>): Parsed<Key> {
    var proto := TakeLE(s, 4);
    if proto.None? || proto.value.0 > 1 then None
    else
      var local := DecPort(proto.value.1);
      if local.None? then None
      else Some((Key(if proto.value.0 == 0 then Tcp else Udp, local.value.0), local.value.1))
  }

  function DecBool(s: seq<Byte>): Parsed<bool> {
    if s == [] || s[0] > 1 then None else Some((s[0] == 1, s[1..]))
  }

  function EncMapping(m: Mapping): seq<Byte> {
    EncString(m.user) + EncKey(m.key) + EncPort(m.remote) + [if m.online then 1 else 0]
  }

  function DecMapping(s: seq<Byte>): Parsed<Mapping> {
    var user := DecString(s);
    if user.None? then None
    else
      var key := DecKey(user.value.1);
      if key.None? then None
      else
        var remote := DecPort(key.value.1);
        if remote.None? then None
        else
          var online := DecBool(remote.value.1);
          if online.None? then None
          else Some((Mapping(user.value.0, key.value.0, remote.value.0, online.value.0), online.value.1))
  }

  function MappingCodec(): Codec<Mapping> {
    Codec(EncMapping, DecMapping)
  }

  lemma KeyReadsBack(k: Key, rest: seq<Byte>)
    ensures DecKey(EncKey(k) + rest) == Some((k, rest))
  {
    var t := if k.proto == Tcp then 0 else 1;
    assert EncKey(k) + rest == Tag(t) + (EncPort(k.local) + rest);
    TagOf(t, EncPort(k.local) + rest);
    PortReadsBack(k.local, rest);
  }

  lemma MappingRoundTrips(m: Mapping)
    requires |Utf8(m.user)| < Pow256(8)
    ensures RoundTrips(MappingCodec(), m)
  {
    forall rest
      ensures DecMapping(EncMapping(m) + rest) == Some((m, rest))
    {
      MappingReadsBack(m, rest);
    }
  }

  lemma MappingReadsBack(m: Mapping, rest: seq<Byte>)
    requires |Utf8(m.user)| < Pow256(8)
    ensures DecMapping(EncMapping(m) + rest) == Some((m, rest))
  {
    var c := [if m.online then 1 else 0] + rest;
    var b := EncPort(m.remote) + c;
    var a := EncKey(m.key) + b;
    FourThen(EncString(m.user), EncKey(m.key), EncPort(m.remote), [if m.online then 1 else 0], rest);
    StringReadsBack(m.user, a);
    KeyReadsBack(m.key, b);
    PortReadsBack(m.remote, c);
    MappingParts(m, EncString(m.user) + a, a, b, c, rest);
  }

  lemma FourThen(a: seq<Byte>, b: seq<Byte>, c: seq<Byte>, d: seq<Byte>, rest: seq<Byte>)
    ensures a + b + c + d + rest == a + (b + (c + (d + rest)))
  {
  }

  lemma MappingParts(m: Mapping, s: seq<Byte>, a: seq<Byte>, b: seq<Byte>, c: seq<Byte>, rest: seq<Byte>)
    requires DecString(s) == Some((m.user, a)) && DecKey(a) == Some((m.key, b)) && DecPort(b) == Some((m.remote, c))
    requires c == [if m.online then 1 else 0] + rest
    ensures DecMapping(s) == Some((m, rest))
  {
    assert c[1..] == rest;
  }

  function EncClientCmd(x: ClientCmd): seq<Byte> {
    Tag(0) + EncVec(PortCodec(), x.ports)
  }

  function DecClientCmd(s: seq<Byte>): Parsed<ClientCmd> {
    var t := TakeLE(s, 4);
    if t.None? || t.value.0 != 0 then None
    else
      var v := DecVec(PortCodec(), t.value.1);
      if v.None? then None else Some((Disabled(v.value.0), v.value.1))
  }

  function EncControlCmd(x: ControlChannelCmd): seq<Byte> {
    match x
    case CreateDataChannel => Tag(0)
    case HeartBeat => Tag(1)
    case Directory(rows) => Tag(2) + EncVec(MappingCodec(), rows)
  }

  function DecControlBody(tag: nat, s: seq<Byte>): Parsed<ControlChannelCmd> {
    if tag == 0 then Some((CreateDataChannel, s))
    else if tag == 1 then Some((HeartBeat, s))
    else if tag == 2 then
      var v := DecVec(MappingCodec(), s);
      if v.None? then None else Some((Directory(v.value.0), v.value.1))
    else None
  }

  function DecControlCmd(s: seq<Byte>): Parsed<ControlChannelCmd> {
    var t := TakeLE(s, 4);
    if t.None? then None else DecControlBody(t.value.0, t.value.1)
  }

  function EncRegisterAck(x: RegisterAck): seq<Byte> {
    match x
    case RegisterOk(None) => Tag(0) + [0]
    case RegisterOk(Some(d)) => Tag(0) + ([1] + EncString(d))
    case RegisterErr(e) => Tag(1) + EncString(e)
  }

  function DecDomain(s: seq<Byte>): Parsed<RegisterAck> {
    if s == [] || s[0] > 1 then None
    else if s[0] == 0 then Some((RegisterOk(None), s[1..]))
    else
      var d := DecString(s[1..]);
      if d.None? then None else Some((RegisterOk(Some(d.value.0)), d.value.1))
  }

  function DecRefusal(s: seq<Byte>): Parsed<RegisterAck> {
    var e := DecString(s);
    if e.None? then None else Some((RegisterErr(e.value.0), e.value.1))
  }

  function DecRegisterAck(s: seq<Byte>): Parsed<RegisterAck> {
    var t := TakeLE(s, 4);
    if t.None? || t.value.0 > 1 then None
    else if t.value.0 == 0 then DecDomain(t.value.1)
    else DecRefusal(t.value.1)
  }

  function EncDataCmd(x: DataChannelCmd): seq<Byte> {
    Tag(if x.StartForwardTcp? then 0 else 1) + EncPort(x.port)
  }

  function DecDataCmd(s: seq<Byte>): Parsed<DataChannelCmd> {
    var t := TakeLE(s, 4);
    if t.None? || t.value.0 > 1 then None
    else
      var p := DecPort(t.value.1);
      if p.None? then None
      else Some((if t.value.0 == 0 then StartForwardTcp(p.value.0) else StartForwardUdp(p.value.0), p.value.1))
  }

  function ClientCmdCodec(): Codec<ClientCmd> {
    Codec(EncClientCmd, DecClientCmd)
  }

  function ControlCmdCodec(): Codec<ControlChannelCmd> {
    Codec(EncControlCmd, DecControlCmd)
  }

  function RegisterAckCodec(): Codec<RegisterAck> {
    Codec(EncRegisterAck, DecRegisterAck)
  }

  function DataCmdCodec(): Codec<DataChannelCmd> {
    Codec(EncDataCmd, DecDataCmd)
  }

  // ---------- every message that fits a frame reads back ----------

  /** Values whose encoding fits a frame read back. */
  ghost predicate Faithful<T(!new)>(c: Codec<T>) {
    forall v :: |c.enc(v)| <= MAX_FRAME ==> RoundTrips(c, v)
  }

  lemma TagOf(n: nat, rest: seq<Byte>)
    requires n < 256
    ensures TakeLE(Tag(n) + rest, 4) == Some((n, rest))
  {
    Widths();
    TakeOfLE(n, 4, rest);
  }

  /** A tag followed by a body. */
  lemma TagThen(n: nat, body: seq<Byte>, rest: seq<Byte>)
    requires n < 256
    ensures TakeLE(Tag(n) + body + rest, 4) == Some((n, body + rest))
  {
    assert Tag(n) + body + rest == Tag(n) + (body + rest);
    TagOf(n, body + rest);
  }

  lemma PortsReadBack(ports: seq<Port>, rest: seq<Byte>)
    requires |EncVec(PortCodec(), ports)| <= MAX_FRAME
    ensures DecVec(PortCodec(), EncVec(PortCodec(), ports) + rest) == Some((ports, rest))
  {
    ItemsSize(PortCodec(), ports);
    Widths();
    forall i | 0 <= i < |ports|
      ensures RoundTrips(PortCodec(), ports[i])
    {
      PortRoundTrips(ports[i]);
    }
    VecRoundTrips(PortCodec(), ports, rest);
  }

  lemma DisabledReadsBack(ports: seq<Port>, vec: seq<Byte>, rest: seq<Byte>)
    requires DecVec(PortCodec(), vec + rest) == Some((ports, rest))
    ensures DecClientCmd(Tag(0) + vec + rest) == Some((Disabled(ports), rest))
  {
    TagThen(0, vec, rest);
  }

  lemma ClientCmdFaithful()
    ensures Faithful(ClientCmdCodec())
  {
    forall x: ClientCmd, rest | |EncClientCmd(x)| <= MAX_FRAME
      ensures DecClientCmd(EncClientCmd(x) + rest) == Some((x, rest))
    {
      PortsReadBack(x.ports, rest);
      DisabledReadsBack(x.ports, EncVec(PortCodec(), x.ports), rest);
    }
  }

  lemma DirectoryReadsBack(rows: seq<Mapping>, rest: seq<Byte>)
    requires |EncVec(MappingCodec(), rows)| <= MAX_FRAME
    ensures DecVec(MappingCodec(), EncVec(MappingCodec(), rows) + rest) == Some((rows, rest))
  {
    ItemsSize(MappingCodec(), rows);
    Widths();
    forall i | 0 <= i < |rows|
      ensures RoundTrips(MappingCodec(), rows[i])
    {
      assert |MappingCodec().enc(rows[i])| <= MAX_FRAME;
      assert |Utf8(rows[i].user)| <= |EncMapping(rows[i])|;
      MappingRoundTrips(rows[i]);
    }
    VecRoundTrips(MappingCodec(), rows, rest);
  }

  lemma DirectoryCmdReadsBack(rows: seq<Mapping>, vec: seq<Byte>, rest: seq<Byte>)
    requires DecVec(MappingCodec(), vec + rest) == Some((rows, rest))
    ensures DecControlCmd(Tag(2) + vec + rest) == Some((Directory(rows), rest))
  {
    TagThen(2, vec, rest);
  }

  lemma ControlCmdReadsBack(x: ControlChannelCmd, rest: seq<Byte>)
    requires |EncControlCmd(x)| <= MAX_FRAME
    ensures DecControlCmd(EncControlCmd(x) + rest) == Some((x, rest))
  {
    match x
    case CreateDataChannel => TagOf(0, rest);
    case HeartBeat => TagOf(1, rest);
    case Directory(rows) =>
      DirectoryReadsBack(rows, rest);
      DirectoryCmdReadsBack(rows, EncVec(MappingCodec(), rows), rest);
  }

  lemma ControlCmdFaithful()
    ensures Faithful(ControlCmdCodec())
  {
    forall x: ControlChannelCmd, rest | |EncControlCmd(x)| <= MAX_FRAME
      ensures DecControlCmd(EncControlCmd(x) + rest) == Some((x, rest))
    {
      ControlCmdReadsBack(x, rest);
    }
  }

  lemma DomainReadsBack(d: string, e: seq<Byte>, rest: seq<Byte>)
    requires DecString(e + rest) == Some((d, rest))
    ensures DecDomain([1] + e + rest) == Some((RegisterOk(Some(d)), rest))
  {
    assert ([1] + e + rest)[1..] == e + rest;
  }

  lemma RegisterAckReadsBack(x: RegisterAck, rest: seq<Byte>)
    requires |EncRegisterAck(x)| <= MAX_FRAME
    ensures DecRegisterAck(EncRegisterAck(x) + rest) == Some((x, rest))
  {
    Widths();
    match x
    case RegisterOk(None) =>
      TagThen(0, [0], rest);
      assert ([0] + rest)[1..] == rest;
    case RegisterOk(Some(d)) =>
      TagThen(0, [1] + EncString(d), rest);
      StringReadsBack(d, rest);
      DomainReadsBack(d, EncString(d), rest);
    case RegisterErr(e) =>
      TagThen(1, EncString(e), rest);
      StringReadsBack(e, rest);
  }

  lemma RegisterAckFaithful()
    ensures Faithful(RegisterAckCodec())
  {
    forall x: RegisterAck, rest | |EncRegisterAck(x)| <= MAX_FRAME
      ensures DecRegisterAck(EncRegisterAck(x) + rest) == Some((x, rest))
    {
      RegisterAckReadsBack(x, rest);
    }
  }

  lemma DataCmdFaithful()
    ensures Faithful(DataCmdCodec())
  {
    forall x: DataChannelCmd, rest
      ensures DecDataCmd(EncDataCmd(x) + rest) == Some((x, rest))
    {
      var body := EncPort(x.port) + rest;
      assert EncDataCmd(x) + rest == Tag(if x.StartForwardTcp? then 0 else 1) + body;
      TagOf(if x.StartForwardTcp? then 0 else 1, body);
      PortReadsBack(x.port, rest);
    }
  }

  // ---------- frames ----------

  /** `write_frame`: refused above the limit. */
  function Frame<T>(c: Codec<T>, v: T): Option<seq<Byte>> {
    if |c.enc(v)| > MAX_FRAME then None else Some(BE32(|c.enc(v)|) + c.enc(v))
  }

  /** `read_frame`: the body is cut out by its length, then decoded; what it leaves of the body is dropped. */
  function ReadFrame<T>(c: Codec<T>, s: seq<Byte>): Parsed<T> {
    if |s| < 4 then None
    else
      var n := FromBE32(s[..4]);
      if n > MAX_FRAME || |s| < 4 + n then None
      else
        var v := c.dec(s[4..4 + n]);
        if v.None? then None else Some((v.value.0, s[4 + n..]))
  }

  function Frames<T>(c: Codec<T>, vs: seq<T>): seq<Byte>
    requires forall i :: 0 <= i < |vs| ==> |c.enc(vs[i])| <= MAX_FRAME
  {
    if vs == [] then [] else Frame(c, vs[0]).value + Frames(c, vs[1..])
  }

  /** Read frames until nothing is left. */
  function ReadFrames<T>(c: Codec<T>, s: seq<Byte>): Option<seq<T>>
    decreases |s|
  {
    if s == [] then Some([])
    else
      var v := ReadFrame(c, s);
      if v.None? || |v.value.1| >= |s| then None
      else
        var r := ReadFrames(c, v.value.1);
        if r.None? then None else Some([v.value.0] + r.value)
  }

  lemma FrameRoundTrips<T(!new)>(c: Codec<T>, v: T, rest: seq<Byte>)
    requires Faithful(c) && |c.enc(v)| <= MAX_FRAME
    ensures ReadFrame(c, Frame(c, v).value + rest) == Some((v, rest))
  {
    var b := c.enc(v);
    var s := Frame(c, v).value + rest;
    FromBE32OfBE32(|b|);
    assert s[..4] == BE32(|b|) && s[4..4 + |b|] == b && s[4 + |b|..] == rest;
    assert RoundTrips(c, v);
    assert c.dec(b + []) == Some((v, [])) && b + [] == b;
  }

  /** Any sequence of frames, concatenated, reads back as the same sequence with nothing left over. */
  lemma {:induction false} FramesRoundTrip<T(!new)>(c: Codec<T>, vs: seq<T>)
    requires Faithful(c) && forall i :: 0 <= i < |vs| ==> |c.enc(vs[i])| <= MAX_FRAME
    ensures ReadFrames(c, Frames(c, vs)) == Some(vs)
  {
    if vs != [] {
      FrameRoundTrips(c, vs[0], Frames(c, vs[1..]));
      FramesRoundTrip(c, vs[1..]);
      assert vs == [vs[0]] + vs[1..];
    }
  }

  // ---------- handshakes ----------

  function ReadHello(s: seq<Byte>): Parsed<Hello> {
    if |s| < 37 then None
    else
      var h := DecHello(s[..37]);
      if h.None? || h.value.0.version != PROTO_VERSION then None else Some((h.value.0, s[37..]))
  }

  function ReadAuth(s: seq<Byte>): Parsed<Digest> {
    if |s| < 32 then None
    else
      var d: Digest := s[..32];
      Some((d, s[32..]))
  }

  function ReadAck(s: seq<Byte>): Parsed<Ack> {
    if |s| < 4 then None
    else
      var a := DecAck(s[..4]);
      if a.None? then None else Some((a.value.0, s[4..]))
  }

  /** Handshake messages all have one length, and a hello reads back exactly when its version is current. */
  lemma HelloRoundTrips(h: Hello, rest: seq<Byte>)
    ensures |EncHello(h)| == 37
    ensures ReadHello(EncHello(h) + rest) == if h.version == 4 then Some((h, rest)) else None
  {
    var s, e := EncHello(h) + rest, EncHello(h);
    var t := if h.ControlChannelHello? then 0 else 1;
    var tail := [h.version] + h.digest;
    assert s[..37] == e && s[37..] == rest && e == Tag(t) + tail;
    TagOf(t, tail);
    HelloParts(h, e, tail);
  }

  lemma HelloParts(h: Hello, e: seq<Byte>, tail: seq<Byte>)
    requires TakeLE(e, 4) == Some((if h.ControlChannelHello? then 0 else 1, tail)) && tail == [h.version] + h.digest
    ensures DecHello(e) == Some((h, []))
  {
    assert tail[1..33] == h.digest && tail[33..] == [];
  }

  lemma AckRoundTrips(a: Ack, rest: seq<Byte>)
    ensures |EncAck(a)| == 4
    ensures ReadAck(EncAck(a) + rest) == Some((a, rest))
  {
    var s := EncAck(a) + rest;
    assert s[..4] == EncAck(a) + [] && s[4..] == rest;
    TagOf(match a case AckOk => 0 case UserNotExist => 1 case AuthFailed => 2, []);
  }

  /** What the server reads on a control channel: hello, auth, then commands. */
  function ReadFromClient(s: seq<Byte>): Option<(Hello, Digest, seq<ClientCmd>)> {
    var h := ReadHello(s);
    if h.None? then None
    else
      var a := ReadAuth(h.value.1);
      if a.None? then None
      else
        var cmds := ReadFrames(ClientCmdCodec(), a.value.1);
        if cmds.None? then None else Some((h.value.0, a.value.0, cmds.value))
  }

  lemma ClientTranscript(h: Hello, auth: Digest, cmds: seq<ClientCmd>)
    requires h.version == PROTO_VERSION && forall i :: 0 <= i < |cmds| ==> |EncClientCmd(cmds[i])| <= MAX_FRAME
    ensures forall i :: 0 <= i < |cmds| ==> |ClientCmdCodec().enc(cmds[i])| <= MAX_FRAME
    ensures ReadFromClient(EncHello(h) + auth + Frames(ClientCmdCodec(), cmds)) == Some((h, auth, cmds))
  {
    var frames := Frames(ClientCmdCodec(), cmds);
    HelloRoundTrips(h, auth + frames);
    ClientCmdFaithful();
    FramesRoundTrip(ClientCmdCodec(), cmds);
    ClientParts(h, auth, cmds, EncHello(h), frames);
  }

  lemma ClientParts(h: Hello, auth: Digest, cmds: seq<ClientCmd>, hello: seq<Byte>, frames: seq<Byte>)
    requires ReadHello(hello + (auth + frames)) == Some((h, auth + frames))
    requires ReadFrames(ClientCmdCodec(), frames) == Some(cmds)
    ensures ReadFromClient(hello + auth + frames) == Some((h, auth, cmds))
  {
    assert hello + auth + frames == hello + (auth + frames);
    assert (auth + frames)[..32] == auth && (auth + frames)[32..] == frames;
  }

  /** What the client reads: hello, ack, the registration answer, then commands. */
  function ReadFromServer(s: seq<Byte>): Option<(Hello, Ack, RegisterAck, seq<ControlChannelCmd>)> {
    var h := ReadHello(s);
    if h.None? then None
    else
      var a := ReadAck(h.value.1);
      if a.None? || a.value.0 != AckOk then None
      else
        var r := ReadFrame(RegisterAckCodec(), a.value.1);
        if r.None? then None
        else
          var cmds := ReadFrames(ControlCmdCodec(), r.value.1);
          if cmds.None? then None else Some((h.value.0, a.value.0, r.value.0, cmds.value))
  }

  lemma ServerTranscript(h: Hello, r: RegisterAck, cmds: seq<ControlChannelCmd>)
    requires h.version == PROTO_VERSION && |EncRegisterAck(r)| <= MAX_FRAME
    requires forall i :: 0 <= i < |cmds| ==> |EncControlCmd(cmds[i])| <= MAX_FRAME
    ensures forall i :: 0 <= i < |cmds| ==> |ControlCmdCodec().enc(cmds[i])| <= MAX_FRAME
    ensures Frame(RegisterAckCodec(), r).Some?
    ensures var frame, frames := Frame(RegisterAckCodec(), r).value, Frames(ControlCmdCodec(), cmds);
            ReadFromServer(EncHello(h) + EncAck(AckOk) + frame + frames) == Some((h, AckOk, r, cmds))
  {
    var ack, reg, frames := EncAck(AckOk), Frame(RegisterAckCodec(), r).value, Frames(ControlCmdCodec(), cmds);
    HelloRoundTrips(h, ack + (reg + frames));
    AckRoundTrips(AckOk, reg + frames);
    RegisterAckFaithful();
    FrameRoundTrips(RegisterAckCodec(), r, frames);
    ControlCmdFaithful();
    FramesRoundTrip(ControlCmdCodec(), cmds);
    ServerParts(h, r, cmds, EncHello(h), ack, reg, frames);
  }

  lemma ServerParts(h: Hello, r: RegisterAck, cmds: seq<ControlChannelCmd>,
                    hello: seq<Byte>, ack: seq<Byte>, reg: seq<Byte>, frames: seq<Byte>)
    requires ReadHello(hello + (ack + (reg + frames))) == Some((h, ack + (reg + frames)))
    requires ReadAck(ack + (reg + frames)) == Some((AckOk, reg + frames))
    requires ReadFrame(RegisterAckCodec(), reg + frames) == Some((r, frames))
    requires ReadFrames(ControlCmdCodec(), frames) == Some(cmds)
    ensures ReadFromServer(hello + ack + reg + frames) == Some((h, AckOk, r, cmds))
  {
    assert hello + ack + reg + frames == hello + (ack + (reg + frames));
  }

  // ---------- UDP packets ----------

  function EncAddr(a: SocketAddr): seq<Byte> {
    match a
    case V4(ip, port) => Tag(0) + (ip + EncPort(port))
    case V6(ip, port) => Tag(1) + (ip + EncPort(port))
  }

  function DecAddr(s: seq<Byte>): Parsed<SocketAddr> {
    var t := TakeLE(s, 4);
    if t.None? || t.value.0 > 1 then None
    else
      var n := if t.value.0 == 0 then 4 else 16;
      if |t.value.1| < n then None
      else
        var p := DecPort(t.value.1[n..]);
        if p.None? then None
        else Some((if t.value.0 == 0 then V4(t.value.1[..4], p.value.0) else V6(t.value.1[..16], p.value.0), p.value.1))
  }

  /** The payload length is cast to `u16`. */
  function EncHeader(from: SocketAddr, len: nat): seq<Byte> {
    EncAddr(from) + EncPort(len % 65536)
  }

  /** `UdpTraffic::write` and `write_slice`. */
  function WriteUdp(t: UdpTraffic): seq<Byte> {
    Packet(EncHeader(t.from, |t.data|), t.data)
  }

  /** The header's length in one byte, the header, the payload. */
  function Packet(header: seq<Byte>, data: seq<Byte>): seq<Byte> {
    [|header| % 256] + header + data
  }

  /** The header length byte, then `UdpTraffic::read`. */
  function ReadUdp(s: seq<Byte>): Parsed<UdpTraffic> {
    if s == [] || |s| < 1 + s[0] as int then None
    else
      var n := s[0] as int;
      var from := DecAddr(s[1..1 + n]);
      if from.None? then None
      else
        var len := DecPort(from.value.1);
        var body := s[1 + n..];
        if len.None? || |body| < len.value.0 then None
        else Some((UdpTraffic(from.value.0, body[..len.value.0]), body[len.value.0..]))
  }

  lemma AddrRoundTrips(a: SocketAddr, rest: seq<Byte>)
    ensures DecAddr(EncAddr(a) + rest) == Some((a, rest))
  {
    var ip: seq<Byte> := if a.V4? then a.ip4 else a.ip6;
    var t := if a.V4? then 0 else 1;
    var tail := ip + (EncPort(a.port) + rest);
    assert EncAddr(a) + rest == Tag(t) + tail;
    TagOf(t, tail);
    assert tail[..|ip|] == ip && tail[|ip|..] == EncPort(a.port) + rest;
    PortReadsBack(a.port, rest);
  }

  lemma HeaderReadsBack(from: SocketAddr, n: Port)
    ensures |EncHeader(from, n)| == 12 || |EncHeader(from, n)| == 24
    ensures DecAddr(EncHeader(from, n)) == Some((from, EncPort(n))) && DecPort(EncPort(n)) == Some((n, []))
  {
    AddrRoundTrips(from, EncPort(n));
    PortAlone(n);
    assert n % 65536 == n;
  }

  lemma PortAlone(n: Port)
    ensures DecPort(EncPort(n)) == Some((n, []))
  {
    PortReadsBack(n, []);
    assert EncPort(n) + [] == EncPort(n);
  }

  lemma PacketReadsBack(from: SocketAddr, n: Port, h: seq<Byte>, p: seq<Byte>, data: seq<Byte>, rest: seq<Byte>)
    requires |h| < 256 && DecAddr(h) == Some((from, p)) && DecPort(p) == Some((n, [])) && n <= |data|
    ensures ReadUdp(Packet(h, data) + rest) == Some((UdpTraffic(from, data[..n]), data[n..] + rest))
  {
    var body := data + rest;
    assert Packet(h, data) + rest == [|h|] + h + body;
    PacketParts(|h|, h, body);
    assert body[..n] == data[..n] && body[n..] == data[n..] + rest;
  }

  lemma PacketParts(k: Byte, h: seq<Byte>, body: seq<Byte>)
    requires k == |h|
    ensures var s := [k] + h + body; |s| >= 1 + |h| && s[0] == k && s[1..1 + |h|] == h && s[1 + |h|..] == body
  {
  }

  lemma LengthIsCast(from: SocketAddr, len: nat)
    ensures EncHeader(from, len) == EncHeader(from, len % 65536)
  {
    assert len % 65536 % 65536 == len % 65536;
  }

  /** What is read back always: the sender, and the payload cut at its length modulo 65536. */
  lemma UdpReadsBack(t: UdpTraffic, rest: seq<Byte>)
    ensures var n := |t.data| % 65536;
            ReadUdp(WriteUdp(t) + rest) == Some((UdpTraffic(t.from, t.data[..n]), t.data[n..] + rest))
  {
    var n: Port := |t.data| % 65536;
    LengthIsCast(t.from, |t.data|);
    HeaderReadsBack(t.from, n);
    PacketReadsBack(t.from, n, EncHeader(t.from, n), EncPort(n), t.data, rest);
  }

  /** A packet survives exactly when its payload length is a `u16`. */
  lemma UdpRoundTripsIff(t: UdpTraffic, rest: seq<Byte>)
    ensures ReadUdp(WriteUdp(t) + rest) == Some((t, rest)) <==> |t.data| < 65536
  {
    UdpReadsBack(t, rest);
    CutIff(t, |t.data| % 65536, rest);
  }

  lemma CutIff(t: UdpTraffic, n: nat, rest: seq<Byte>)
    requires n == |t.data| % 65536
    ensures UdpTraffic(t.from, t.data[..n]) == t && t.data[n..] + rest == rest <==> |t.data| < 65536
  {
    if |t.data| < 65536 {
      assert t.data[..n] == t.data && t.data[n..] == [];
    }
  }

  function WriteUdpAll(ts: seq<UdpTraffic>): seq<Byte> {
    if ts == [] then [] else WriteUdp(ts[0]) + WriteUdpAll(ts[1..])
  }

  function ReadUdpAll(s: seq<Byte>): Option<seq<UdpTraffic>>
    decreases |s|
  {
    if s == [] then Some([])
    else
      var t := ReadUdp(s);
      if t.None? || |t.value.1| >= |s| then None
      else
        var r := ReadUdpAll(t.value.1);
        if r.None? then None else Some([t.value.0] + r.value)
  }

  lemma ReadUdpCons(t: UdpTraffic, p: seq<Byte>, tail: seq<Byte>, ts: seq<UdpTraffic>)
    requires p != [] && ReadUdp(p + tail) == Some((t, tail)) && ReadUdpAll(tail) == Some(ts)
    ensures ReadUdpAll(p + tail) == Some([t] + ts)
  {
  }

  /** Any sequence of UDP packets, concatenated, reads back as the same sequence with nothing left over. */
  lemma {:induction false} UdpStreamRoundTrip(ts: seq<UdpTraffic>)
    requires forall i :: 0 <= i < |ts| ==> |ts[i].data| < 65536
    ensures ReadUdpAll(WriteUdpAll(ts)) == Some(ts)
  {
    if ts != [] {
      UdpRoundTripsIff(ts[0], WriteUdpAll(ts[1..]));
      UdpStreamRoundTrip(ts[1..]);
      ReadUdpCons(ts[0], WriteUdp(ts[0]), WriteUdpAll(ts[1..]), ts[1..]);
      assert ts == [ts[0]] + ts[1..];
    }
  }

  /** A UDP data channel from the server: the start command, then packets. */
  lemma DataChannelTranscript(cmd: DataChannelCmd, ts: seq<UdpTraffic>)
    requires forall i :: 0 <= i < |ts| ==> |ts[i].data| < 65536
    ensures Frame(DataCmdCodec(), cmd).Some?
    ensures var r := ReadFrame(DataCmdCodec(), Frame(DataCmdCodec(), cmd).value + WriteUdpAll(ts));
            r.Some? && r.value.0 == cmd && ReadUdpAll(r.value.1) == Some(ts)
  {
    DataCmdFaithful();
    FrameRoundTrips(DataCmdCodec(), cmd, WriteUdpAll(ts));
    UdpStreamRoundTrip(ts);
  }

  // ---------- the layout, byte by byte ----------

  function Two(n: nat): seq<Byte> {
    [n % 256, n / 256 % 256]
  }

  function Four(n: nat): seq<Byte> {
    Two(n) + Two(n / 0x1_0000)
  }

  function Eight(n: nat): seq<Byte> {
    Four(n) + Four(n / 0x1_0000_0000)
  }

  lemma LEIsTwo(n: nat)
    ensures LE(n, 2) == Two(n)
  {
    assert LE(n / 256, 1) == [n / 256 % 256] + LE(n / 256 / 256, 0);
  }

  lemma LETwoMore(n: nat, w: nat)
    ensures LE(n, w + 2) == Two(n) + LE(n / 0x1_0000, w)
  {
    assert LE(n, w + 2) == [n % 256] + LE(n / 256, w + 1);
    assert LE(n / 256, w + 1) == [n / 256 % 256] + LE(n / 256 / 256, w);
    assert n / 256 / 256 == n / 0x1_0000;
  }

  lemma LEIsFour(n: nat)
    ensures LE(n, 4) == Four(n)
  {
    LETwoMore(n, 2);
    LEIsTwo(n / 0x1_0000);
  }

  lemma LEIsEight(n: nat)
    ensures LE(n, 8) == Eight(n)
  {
    LETwoMore(n, 6);
    LETwoMore(n / 0x1_0000, 4);
    assert n / 0x1_0000 / 0x1_0000 == n / 0x1_0000_0000;
    LEIsFour(n / 0x1_0000_0000);
    assert Two(n) + (Two(n / 0x1_0000) + Four(n / 0x1_0000_0000)) == Eight(n);
  }

  lemma TagBytes(n: nat)
    requires n < 256
    ensures Tag(n) == [n, 0, 0, 0]
  {
    LEIsFour(n);
  }

  /** Every handshake message: a `u32` little-endian tag, then the fields as they are. */
  lemma HandshakeLayout(v: Byte, d: Digest)
    ensures EncHello(ControlChannelHello(v, d)) == [0, 0, 0, 0, v] + d
    ensures EncHello(DataChannelHello(v, d)) == [1, 0, 0, 0, v] + d
    ensures EncAck(AckOk) == [0, 0, 0, 0] && EncAck(UserNotExist) == [1, 0, 0, 0] && EncAck(AuthFailed) == [2, 0, 0, 0]
  {
    TagBytes(0);
    TagBytes(1);
    TagBytes(2);
  }

  /** Every string: eight bytes of length, then UTF-8. */
  lemma StringLayout(x: string)
    ensures EncString(x) == Eight(|Utf8(x)|) + Utf8(x)
  {
    LEIsEight(|Utf8(x)|);
  }

  /** Every port list: two bytes a port, low byte first. */
  lemma {:induction false} PortsLayout(ps: seq<Port>)
    ensures |EncItems(PortCodec(), ps)| == 2 * |ps|
    ensures forall i :: 0 <= i < |ps| ==> EncItems(PortCodec(), ps)[2 * i..2 * i + 2] == Two(ps[i])
  {
    if ps != [] {
      var rest := EncItems(PortCodec(), ps[1..]);
      PortsLayout(ps[1..]);
      LEIsTwo(ps[0]);
      var all := EncItems(PortCodec(), ps);
      assert all == Two(ps[0]) + rest;
      forall i | 0 <= i < |ps|
        ensures all[2 * i..2 * i + 2] == Two(ps[i])
      {
        if i > 0 {
          assert all[2 * i..2 * i + 2] == rest[2 * (i - 1)..2 * (i - 1) + 2] && ps[i] == ps[1..][i - 1];
        }
      }
    }
  }

  /** Every command: its tag, an eight-byte count before a list, its fields in order. */
  lemma CommandLayout(ps: seq<Port>, rows: seq<Mapping>, x: string, p: Port)
    ensures EncClientCmd(Disabled(ps)) == [0, 0, 0, 0] + (Eight(|ps|) + EncItems(PortCodec(), ps))
    ensures EncControlCmd(CreateDataChannel) == [0, 0, 0, 0] && EncControlCmd(HeartBeat) == [1, 0, 0, 0]
    ensures EncControlCmd(Directory(rows)) == [2, 0, 0, 0] + (Eight(|rows|) + EncItems(MappingCodec(), rows))
    ensures EncRegisterAck(RegisterOk(None)) == [0, 0, 0, 0] + [0]
    ensures EncRegisterAck(RegisterOk(Some(x))) == [0, 0, 0, 0] + ([1] + EncString(x))
    ensures EncRegisterAck(RegisterErr(x)) == [1, 0, 0, 0] + EncString(x)
    ensures EncDataCmd(StartForwardTcp(p)) == [0, 0, 0, 0] + Two(p)
    ensures EncDataCmd(StartForwardUdp(p)) == [1, 0, 0, 0] + Two(p)
  {
    TagBytes(0);
    TagBytes(1);
    TagBytes(2);
    LEIsEight(|ps|);
    LEIsEight(|rows|);
    LEIsTwo(p);
  }

  lemma LengthBytes(n: nat)
    requires n <= MAX_FRAME
    ensures BE32(n) == [0, n / 0x1_0000, n / 256 % 256, n % 256]
  {
  }

  /** Every frame: the body's length big-endian, then the body. */
  lemma FrameLayout<T>(c: Codec<T>, v: T)
    ensures Frame(c, v).Some? <==> |c.enc(v)| <= 1048576
    ensures Frame(c, v).Some? ==>
              var n := |c.enc(v)|; Frame(c, v).value == [0, n / 0x1_0000, n / 256 % 256, n % 256] + c.enc(v)
  {
    if |c.enc(v)| <= MAX_FRAME {
      LengthBytes(|c.enc(v)|);
    }
  }

  /** Every directory row: user, protocol tag, local port, remote port, online flag. */
  lemma RowLayout(m: Mapping)
    ensures EncMapping(m) ==
            EncString(m.user) + ([if m.key.proto == Tcp then 0 else 1, 0, 0, 0] + Two(m.key.local)) + Two(m.remote)
            + [if m.online then 1 else 0]
  {
    TagBytes(0);
    TagBytes(1);
    LEIsTwo(m.key.local);
    LEIsTwo(m.remote);
  }

  /** Every packet header: address family tag, address, port, payload length modulo 65536. */
  lemma HeaderLayout(ip4: Octets4, ip6: Octets16, port: Port, len: nat)
    ensures EncHeader(V4(ip4, port), len) == [0, 0, 0, 0] + (ip4 + Two(port)) + Two(len % 65536)
    ensures EncHeader(V6(ip6, port), len) == [1, 0, 0, 0] + (ip6 + Two(port)) + Two(len % 65536)
  {
    TagBytes(0);
    TagBytes(1);
    LEIsTwo(port);
    LEIsTwo(len % 65536);
  }
}

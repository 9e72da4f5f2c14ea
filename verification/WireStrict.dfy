/** The readers are strict: what they accept is what the writers write; frames and packets are cut by their lengths. */
module WireStrict {
  import opened Types
  import opened Bytes
  import opened Wire

  // ---------- integers ----------

  lemma {:induction false} FromLEBound(s: seq<Byte>)
    ensures FromLE(s) < Pow256(|s|)
  {
    if s != [] {
      FromLEBound(s[1..]);
      Next256(s[0], FromLE(s[1..]), Pow256(|s| - 1));
    }
  }

  lemma Next256(b: Byte, n: nat, p: nat)
    requires n < p
    ensures b as int + 256 * n < 256 * p
  {
  }

  lemma {:induction false} LEOfFromLE(s: seq<Byte>)
    ensures LE(FromLE(s), |s|) == s
  {
    if s != [] {
      LEOfFromLE(s[1..]);
      FirstByte(s[0], FromLE(s[1..]));
      assert s == [s[0]] + s[1..];
    }
  }

  lemma FirstByte(b: Byte, n: nat)
    ensures (b as int + 256 * n) % 256 == b && (b as int + 256 * n) / 256 == n
  {
  }

  lemma TakeIsStrict(s: seq<Byte>, w: nat)
    ensures TakeLE(s, w).Some? <==> |s| >= w
    ensures TakeLE(s, w).Some? ==> s == LE(TakeLE(s, w).value.0, w) + TakeLE(s, w).value.1
  {
    if |s| >= w {
      LEOfFromLE(s[..w]);
      assert s == s[..w] + s[w..];
    }
  }

  lemma BE32OfFromBE32(s: seq<Byte>)
    requires |s| == 4
    ensures BE32(FromBE32(s)) == s
  {
    var a: int, b: int, c: int, d: int := s[0], s[1], s[2], s[3];
    var n := FromBE32(s);
    assert n == 256 * (256 * (256 * a + b) + c) + d;
    assert n % 256 == d && n / 256 == 256 * (256 * a + b) + c;
    assert n / 0x1_0000 == n / 256 / 256 && n / 0x100_0000 == n / 256 / 256 / 256;
    assert n / 256 % 256 == c && n / 256 / 256 == 256 * a + b;
    assert n / 256 / 256 % 256 == b && n / 256 / 256 / 256 == a;
  }

  // ---------- values ----------

  /** What is read, written again, is what was read. */
  ghost predicate Strict<T(!new)>(c: Codec<T>) {
    forall s :: c.dec(s).Some? ==> s == c.enc(c.dec(s).value.0) + c.dec(s).value.1
  }

  lemma PortIsStrict(s: seq<Byte>)
    ensures DecPort(s).Some? <==> |s| >= 2
    ensures DecPort(s).Some? ==> s == EncPort(DecPort(s).value.0) + DecPort(s).value.1
  {
    TakeIsStrict(s, 2);
    Widths();
    if |s| >= 2 {
      FromLEBound(s[..2]);
    }
  }

  lemma StringIsStrict(s: seq<Byte>)
    ensures DecString(s).Some? ==> s == EncString(DecString(s).value.0) + DecString(s).value.1
  {
    TakeIsStrict(s, 8);
    if DecString(s).Some? {
      var (n, r) := TakeLE(s, 8).value;
      Utf8OfFromUtf8(r[..n]);
      assert r == r[..n] + r[n..];
      assert LE(n, 8) + (r[..n] + r[n..]) == LE(n, 8) + r[..n] + r[n..];
    }
  }

  lemma TagIsStrict(s: seq<Byte>)
    ensures TakeLE(s, 4).Some? ==> s == Tag(TakeLE(s, 4).value.0) + TakeLE(s, 4).value.1
  {
    TakeIsStrict(s, 4);
  }

  lemma KeyIsStrict(s: seq<Byte>)
    ensures DecKey(s).Some? ==> s == EncKey(DecKey(s).value.0) + DecKey(s).value.1
  {
    TagIsStrict(s);
    if DecKey(s).Some? {
      var (t, r) := TakeLE(s, 4).value;
      PortIsStrict(r);
      Regroup(Tag(t), EncPort(DecPort(r).value.0), DecPort(r).value.1);
    }
  }

  lemma Regroup(a: seq<Byte>, b: seq<Byte>, c: seq<Byte>)
    ensures a + (b + c) == a + b + c
  {
  }

  lemma MappingIsStrict(s: seq<Byte>)
    ensures DecMapping(s).Some? ==> s == EncMapping(DecMapping(s).value.0) + DecMapping(s).value.1
  {
    if DecMapping(s).Some? {
      var (user, a) := DecString(s).value;
      var (key, b) := DecKey(a).value;
      var (remote, c) := DecPort(b).value;
      var (online, rest) := DecBool(c).value;
      StringIsStrict(s);
      KeyIsStrict(a);
      PortIsStrict(b);
      BoolIsStrict(c);
      MappingParts(Mapping(user, key, remote, online), s, a, b, c, rest);
    }
  }

  lemma BoolIsStrict(s: seq<Byte>)
    ensures DecBool(s).Some? ==> s == [if DecBool(s).value.0 then 1 else 0] + DecBool(s).value.1
  {
  }

  lemma MappingParts(m: Mapping, s: seq<Byte>, a: seq<Byte>, b: seq<Byte>, c: seq<Byte>, rest: seq<Byte>)
    requires s == EncString(m.user) + a && a == EncKey(m.key) + b && b == EncPort(m.remote) + c
    requires c == [if m.online then 1 else 0] + rest
    ensures s == EncMapping(m) + rest
  {
    FourThen(EncString(m.user), EncKey(m.key), EncPort(m.remote), [if m.online then 1 else 0], rest);
  }

  lemma {:induction false} ItemsAreStrict<T(!new)>(c: Codec<T>, n: nat, s: seq<Byte>)
    requires Strict(c)
    ensures DecItems(c, n, s).Some? ==>
              var (v, r) := DecItems(c, n, s).value; |v| == n && s == EncItems(c, v) + r
    decreases n
  {
    if DecItems(c, n, s).Some? {
      if n == 0 {
        assert s == [] + s;
      } else {
        var (x, s1) := c.dec(s).value;
        ItemsAreStrict(c, n - 1, s1);
        var (v, r) := DecItems(c, n - 1, s1).value;
        assert ([x] + v)[1..] == v;
        Regroup(c.enc(x), EncItems(c, v), r);
      }
    }
  }

  lemma VecIsStrict<T(!new)>(c: Codec<T>, s: seq<Byte>)
    requires Strict(c)
    ensures DecVec(c, s).Some? ==> s == EncVec(c, DecVec(c, s).value.0) + DecVec(c, s).value.1
  {
    TakeIsStrict(s, 8);
    if DecVec(c, s).Some? {
      var (n, r) := TakeLE(s, 8).value;
      ItemsAreStrict(c, n, r);
      Regroup(LE(n, 8), EncItems(c, DecVec(c, s).value.0), DecVec(c, s).value.1);
    }
  }

  lemma PortCodecIsStrict()
    ensures Strict(PortCodec())
  {
    forall s | DecPort(s).Some?
      ensures s == EncPort(DecPort(s).value.0) + DecPort(s).value.1
    {
      PortIsStrict(s);
    }
  }

  lemma MappingCodecIsStrict()
    ensures Strict(MappingCodec())
  {
    forall s | DecMapping(s).Some?
      ensures s == EncMapping(DecMapping(s).value.0) + DecMapping(s).value.1
    {
      MappingIsStrict(s);
    }
  }

  // ---------- messages ----------

  lemma ClientCmdIsStrict()
    ensures Strict(ClientCmdCodec())
  {
    forall s | DecClientCmd(s).Some?
      ensures s == EncClientCmd(DecClientCmd(s).value.0) + DecClientCmd(s).value.1
    {
      var (t, r) := TakeLE(s, 4).value;
      TagIsStrict(s);
      PortCodecIsStrict();
      VecIsStrict(PortCodec(), r);
      Regroup(Tag(0), EncVec(PortCodec(), DecVec(PortCodec(), r).value.0), DecVec(PortCodec(), r).value.1);
    }
  }

  lemma ControlBodyIsStrict(tag: nat, r: seq<Byte>)
    ensures DecControlBody(tag, r).Some? ==>
              Tag(tag) + r == EncControlCmd(DecControlBody(tag, r).value.0) + DecControlBody(tag, r).value.1
  {
    if tag == 2 && DecControlBody(tag, r).Some? {
      MappingCodecIsStrict();
      VecIsStrict(MappingCodec(), r);
      Regroup(Tag(2), EncVec(MappingCodec(), DecVec(MappingCodec(), r).value.0), DecVec(MappingCodec(), r).value.1);
    }
  }

  lemma ControlCmdIsStrict()
    ensures Strict(ControlCmdCodec())
  {
    forall s | DecControlCmd(s).Some?
      ensures s == EncControlCmd(DecControlCmd(s).value.0) + DecControlCmd(s).value.1
    {
      TagIsStrict(s);
      ControlBodyIsStrict(TakeLE(s, 4).value.0, TakeLE(s, 4).value.1);
    }
  }

  lemma DomainIsStrict(r: seq<Byte>)
    ensures DecDomain(r).Some? ==> Tag(0) + r == EncRegisterAck(DecDomain(r).value.0) + DecDomain(r).value.1
  {
    if DecDomain(r).Some? {
      assert r == [r[0]] + r[1..];
      if r[0] == 0 {
        Regroup(Tag(0), [0], r[1..]);
      } else {
        NamedDomain(r[1..]);
      }
    }
  }

  lemma NamedDomain(r: seq<Byte>)
    ensures DecString(r).Some? ==>
              Tag(0) + ([1] + r) == EncRegisterAck(RegisterOk(Some(DecString(r).value.0))) + DecString(r).value.1
  {
    if DecString(r).Some? {
      StringIsStrict(r);
      DomainBytes(Tag(0), r, EncString(DecString(r).value.0), DecString(r).value.1);
    }
  }

  lemma DomainBytes(tag: seq<Byte>, r: seq<Byte>, e: seq<Byte>, rest: seq<Byte>)
    requires r == e + rest
    ensures tag + ([1] + r) == tag + ([1] + e) + rest
  {
  }

  lemma RefusalIsStrict(r: seq<Byte>)
    ensures DecRefusal(r).Some? ==> Tag(1) + r == EncRegisterAck(DecRefusal(r).value.0) + DecRefusal(r).value.1
  {
    if DecRefusal(r).Some? {
      StringIsStrict(r);
      Regroup(Tag(1), EncString(DecString(r).value.0), DecString(r).value.1);
    }
  }

  lemma AcceptedAck(s: seq<Byte>, t: nat, r: seq<Byte>)
    requires TakeLE(s, 4) == Some((t, r)) && DecDomain(r).Some? && t == 0
    ensures s == EncRegisterAck(DecDomain(r).value.0) + DecDomain(r).value.1
  {
    TagIsStrict(s);
    DomainIsStrict(r);
  }

  lemma RefusedAck(s: seq<Byte>, t: nat, r: seq<Byte>)
    requires TakeLE(s, 4) == Some((t, r)) && DecRefusal(r).Some? && t == 1
    ensures s == EncRegisterAck(DecRefusal(r).value.0) + DecRefusal(r).value.1
  {
    TagIsStrict(s);
    RefusalIsStrict(r);
  }

  lemma RegisterAckIsStrict()
    ensures Strict(RegisterAckCodec())
  {
    forall s | DecRegisterAck(s).Some?
      ensures s == EncRegisterAck(DecRegisterAck(s).value.0) + DecRegisterAck(s).value.1
    {
      var (t, r) := TakeLE(s, 4).value;
      if t == 0 {
        AcceptedAck(s, t, r);
      } else {
        RefusedAck(s, t, r);
      }
    }
  }

  lemma DataCmdIsStrict()
    ensures Strict(DataCmdCodec())
  {
    forall s | DecDataCmd(s).Some?
      ensures s == EncDataCmd(DecDataCmd(s).value.0) + DecDataCmd(s).value.1
    {
      var (t, r) := TakeLE(s, 4).value;
      TagIsStrict(s);
      PortIsStrict(r);
      Regroup(Tag(t), EncPort(DecPort(r).value.0), DecPort(r).value.1);
    }
  }

  // ---------- handshakes ----------

  lemma HelloBodyIsStrict(s: seq<Byte>)
    ensures DecHello(s).Some? ==> s == EncHello(DecHello(s).value.0) + DecHello(s).value.1
  {
    if DecHello(s).Some? {
      var (t, r) := TakeLE(s, 4).value;
      TagIsStrict(s);
      assert r == [r[0]] + r[1..33] + r[33..];
      assert Tag(t) + ([r[0]] + r[1..33] + r[33..]) == Tag(t) + [r[0]] + r[1..33] + r[33..];
    }
  }

  /** What is read as a hello is 37 bytes that some hello of version 4 writes. */
  lemma HelloIsStrict(s: seq<Byte>)
    ensures ReadHello(s).Some? ==>
              var (h, r) := ReadHello(s).value; h.version == 4 && s == EncHello(h) + r
  {
    if ReadHello(s).Some? {
      HelloBodyIsStrict(s[..37]);
      HelloSize(DecHello(s[..37]).value.0, DecHello(s[..37]).value.1, s[..37]);
      assert s == s[..37] + s[37..];
    }
  }

  lemma HelloSize(h: Hello, r: seq<Byte>, s: seq<Byte>)
    requires s == EncHello(h) + r && |s| == 37
    ensures r == [] && s == EncHello(h)
  {
    assert |EncHello(h)| == 37;
  }

  /** What is read as an ack is four bytes that some ack writes. */
  lemma AckIsStrict(s: seq<Byte>)
    ensures ReadAck(s).Some? ==> s == EncAck(ReadAck(s).value.0) + ReadAck(s).value.1
  {
    if ReadAck(s).Some? {
      TagIsStrict(s[..4]);
      assert s == s[..4] + s[4..];
      assert TakeLE(s[..4], 4).value.1 == [];
    }
  }

  // ---------- frames and packets ----------

  /**
   * A frame is read exactly when four bytes give a length of at most 2^20, as many bytes follow and a value
   * can be read off them; bytes of the frame after the value are dropped, those after the frame are left.
   */
  lemma FrameIsStrict<T(!new)>(c: Codec<T>, s: seq<Byte>) returns (junk: seq<Byte>)
    requires Strict(c)
    ensures ReadFrame(c, s).Some? <==>
            && |s| >= 4 && FromBE32(s[..4]) <= 1048576 && |s| >= 4 + FromBE32(s[..4])
            && c.dec(s[4..4 + FromBE32(s[..4])]).Some?
    ensures ReadFrame(c, s).Some? ==>
              var (v, rest) := ReadFrame(c, s).value;
              s == BE32(|c.enc(v)| + |junk|) + (c.enc(v) + junk) + rest
  {
    junk := [];
    if ReadFrame(c, s).Some? {
      var n := FromBE32(s[..4]);
      var body := s[4..4 + n];
      junk := c.dec(body).value.1;
      assert body == c.enc(c.dec(body).value.0) + junk;
      BE32OfFromBE32(s[..4]);
      assert s == s[..4] + body + s[4 + n..];
    }
  }

  lemma AddrIsStrict(s: seq<Byte>)
    ensures DecAddr(s).Some? ==> s == EncAddr(DecAddr(s).value.0) + DecAddr(s).value.1
  {
    if DecAddr(s).Some? {
      var (t, r) := TakeLE(s, 4).value;
      var n := if t == 0 then 4 else 16;
      TagIsStrict(s);
      PortIsStrict(r[n..]);
      var (p, rest) := DecPort(r[n..]).value;
      assert r == r[..n] + r[n..];
      Regroup(r[..n], EncPort(p), rest);
      Regroup(Tag(t), r[..n] + EncPort(p), rest);
    }
  }

  /** A packet is the header's length, the header, which may hold more bytes than it needs, and the payload. */
  lemma PacketIsStrict(s: seq<Byte>) returns (junk: seq<Byte>)
    ensures ReadUdp(s).Some? ==>
              var (t, rest) := ReadUdp(s).value;
              |t.data| < 65536 && s == Packet(EncHeader(t.from, |t.data|) + junk, t.data) + rest
  {
    junk := [];
    if ReadUdp(s).Some? {
      var n: nat := s[0];
      var header, body := s[1..1 + n], s[1 + n..];
      var (from, r) := DecAddr(header).value;
      var len := DecPort(r).value.0;
      junk := DecPort(r).value.1;
      HeaderIsStrict(header);
      PacketCut(s, header, body, body[..len], body[len..]);
    }
  }

  lemma HeaderIsStrict(header: seq<Byte>)
    ensures DecAddr(header).Some? && DecPort(DecAddr(header).value.1).Some? ==>
              var (from, r) := DecAddr(header).value;
              var (len, junk) := DecPort(r).value;
              header == EncHeader(from, len) + junk
  {
    if DecAddr(header).Some? && DecPort(DecAddr(header).value.1).Some? {
      var (from, r) := DecAddr(header).value;
      var (len, junk) := DecPort(r).value;
      AddrIsStrict(header);
      PortIsStrict(r);
      assert len % 65536 == len;
      Regroup(EncAddr(from), EncPort(len), junk);
    }
  }

  lemma PacketCut(s: seq<Byte>, header: seq<Byte>, body: seq<Byte>, data: seq<Byte>, rest: seq<Byte>)
    requires s != [] && |s| >= 1 + s[0] as int && header == s[1..1 + s[0] as int] && body == s[1 + s[0] as int..]
    requires body == data + rest
    ensures s == Packet(header, data) + rest
  {
    assert s == [s[0]] + header + body;
    Regroup([s[0]] + header, data, rest);
  }

  /** Every packet, byte by byte: 12 or 24, the header, the payload. */
  lemma PacketLayout(t: UdpTraffic)
    ensures WriteUdp(t) == [if t.from.V4? then 12 else 24] + EncHeader(t.from, |t.data|) + t.data
  {
    assert |EncHeader(t.from, |t.data|)| == if t.from.V4? then 12 else 24;
  }
}

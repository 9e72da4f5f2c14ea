/** The readers and writers of the protocol, step by step on a byte stream. */
module Streams {
  import opened Types
  import opened Bytes
  import opened Wire

  /**
   * The bytes written and not yet read, and how many more the connection will take before it breaks. After a
   * failed read nothing more is promised about the bytes.
   */
  class Stream {
    var data: seq<Byte>
    var room: nat

    constructor (room: nat)
      ensures data == [] && this.room == room
    {
      data, this.room := [], room;
    }

    /** On a connection that breaks, a prefix gets through. */
    method WriteAll(bytes: seq<Byte>) returns (ok: bool)
      modifies this
      ensures ok <==> |bytes| <= old(room)
      ensures ok ==> data == old(data) + bytes && room == old(room) - |bytes|
      ensures !ok ==> data == old(data) + bytes[..old(room)] && room == 0
    {
      if |bytes| <= room {
        data, room := data + bytes, room - |bytes|;
        return true;
      }
      data, room := data + bytes[..room], 0;
      return false;
    }

    method ReadExact(n: nat) returns (r: Option<seq<Byte>>)
      modifies this`data
      ensures r.Some? <==> |old(data)| >= n
      ensures r.Some? ==> r.value == old(data)[..n] && data == old(data)[n..]
    {
      if |data| < n {
        data := [];
        return None;
      }
      r := Some(data[..n]);
      data := data[n..];
    }
  }

  datatype Written = Done | TooLarge | Broken

  /** Exactly the frame, or nothing if the body is too large, or what the connection still took of it. */
  method WriteFrame<T>(w: Stream, c: Codec<T>, v: T) returns (r: Written)
    modifies w
    ensures r == TooLarge <==> Frame(c, v).None?
    ensures Frame(c, v).None? ==> w.data == old(w.data)
    ensures Frame(c, v).Some? ==>
              var f := Frame(c, v).value;
              && (r == Done <==> |f| <= old(w.room))
              && w.data == old(w.data) + if r == Done then f else f[..old(w.room)]
  {
    var body := c.enc(v);
    if |body| > MAX_FRAME {
      return TooLarge;
    }
    r := WriteTwo(w, BE32(|body|), body);
  }

  /** A head and a body, the body only if the head got through. */
  method WriteTwo(w: Stream, head: seq<Byte>, body: seq<Byte>) returns (r: Written)
    modifies w
    ensures r == if |head + body| <= old(w.room) then Done else Broken
    ensures w.data == old(w.data) + if r == Done then head + body else (head + body)[..old(w.room)]
    ensures r == Done ==> w.room == old(w.room) - |head + body|
    ensures r == Broken ==> w.room == 0
  {
    var ok := w.WriteAll(head);
    if !ok {
      assert (head + body)[..old(w.room)] == head[..old(w.room)];
      return Broken;
    }
    ok := w.WriteAll(body);
    if !ok {
      assert (head + body)[..old(w.room)] == head + body[..old(w.room) - |head|];
      return Broken;
    }
    return Done;
  }

  method ReadFrameFrom<T>(r: Stream, c: Codec<T>) returns (v: Option<T>)
    modifies r
    ensures v.Some? <==> ReadFrame(c, old(r.data)).Some?
    ensures v.Some? ==> ReadFrame(c, old(r.data)).value == (v.value, r.data)
  {
    var head := r.ReadExact(4);
    if head.None? {
      return None;
    }
    var len := FromBE32(head.value);
    if len > MAX_FRAME {
      return None;
    }
    var body := r.ReadExact(len);
    if body.None? {
      return None;
    }
    var x := c.dec(body.value);
    assert body.value == old(r.data)[4..4 + len];
    if x.None? {
      return None;
    }
    return Some(x.value.0);
  }

  /** Exactly the packet, or what the connection still took of it. */
  method WriteUdpTo(w: Stream, t: UdpTraffic) returns (r: Written)
    modifies w
    ensures r == if |WriteUdp(t)| <= old(w.room) then Done else Broken
    ensures w.data == old(w.data) + if r == Done then WriteUdp(t) else WriteUdp(t)[..old(w.room)]
  {
    var hdr := EncHeader(t.from, |t.data|);
    r := WritePacket(w, hdr, t.data);
  }

  method WritePacket(w: Stream, hdr: seq<Byte>, data: seq<Byte>) returns (r: Written)
    modifies w
    ensures r == if |Packet(hdr, data)| <= old(w.room) then Done else Broken
    ensures w.data == old(w.data) + if r == Done then Packet(hdr, data) else Packet(hdr, data)[..old(w.room)]
  {
    ghost var room := w.room;
    var head := [|hdr| % 256];
    r := WriteTwo(w, head, hdr);
    if r == Broken {
      assert Packet(hdr, data)[..room] == (head + hdr)[..room];
      return;
    }
    var ok := w.WriteAll(data);
    r := if ok then Done else Broken;
    assert !ok ==> Packet(hdr, data)[..room] == head + hdr + data[..room - |head + hdr|];
  }

  method ReadUdpFrom(r: Stream) returns (t: Option<UdpTraffic>)
    modifies r
    ensures t.Some? <==> ReadUdp(old(r.data)).Some?
    ensures t.Some? ==> ReadUdp(old(r.data)).value == (t.value, r.data)
  {
    var hdrLen := r.ReadExact(1);
    if hdrLen.None? {
      return None;
    }
    var n: nat := hdrLen.value[0];
    var hdr := r.ReadExact(n);
    if hdr.None? {
      return None;
    }
    assert hdr.value == old(r.data)[1..1 + n];
    var from := DecAddr(hdr.value);
    if from.None? {
      return None;
    }
    var len := DecPort(from.value.1);
    if len.None? {
      return None;
    }
    var body := r.ReadExact(len.value.0);
    if body.None? {
      return None;
    }
    return Some(UdpTraffic(from.value.0, body.value));
  }

  method ReadHelloFrom(r: Stream) returns (h: Option<Hello>)
    modifies r
    ensures h.Some? <==> ReadHello(old(r.data)).Some?
    ensures h.Some? ==> ReadHello(old(r.data)).value == (h.value, r.data)
  {
    var buf := r.ReadExact(37);
    if buf.None? {
      return None;
    }
    var x := DecHello(buf.value);
    if x.None? || x.value.0.version != PROTO_VERSION {
      return None;
    }
    return Some(x.value.0);
  }

  method ReadAckFrom(r: Stream) returns (a: Option<Ack>)
    modifies r
    ensures a.Some? <==> ReadAck(old(r.data)).Some?
    ensures a.Some? ==> ReadAck(old(r.data)).value == (a.value, r.data)
  {
    var buf := r.ReadExact(4);
    if buf.None? {
      return None;
    }
    var x := DecAck(buf.value);
    if x.None? {
      return None;
    }
    return Some(x.value.0);
  }
}

/** The values shared by the server, the client and the configuration. */
module Types {

  datatype Option<+T> = None | Some(value: T)

  /** A `u16`. */
  type Port = p: nat | p < 65536

  datatype Proto = Tcp | Udp

  /** A local port of a user's client, per protocol. */
  datatype Key = Key(proto: Proto, local: Port)

  /** One row of the persisted allocation table. */
  datatype Alloc = Alloc(user: string, key: Key, remote: Port)

  /** One row of the directory pushed to every client. */
  datatype Mapping = Mapping(user: string, key: Key, remote: Port, online: bool)

  /** A user of the server, as `validate_users` leaves it. */
  datatype UserConfig = UserConfig(name: string, lo: Port, hi: Port, tcpPorts: seq<Port>, udpPorts: seq<Port>)

  predicate InBlock(p: Port, lo: Port, hi: Port) {
    lo <= p <= hi
  }

  /** Number of ports of the inclusive range `lo..=hi`; an empty range when `lo > hi`. */
  function BlockSize(lo: Port, hi: Port): nat {
    if lo <= hi then hi - lo + 1 else 0
  }

  /** What validation establishes: every user under its own name with a non-empty block, blocks pairwise disjoint. */
  ghost predicate Validated(users: map<string, UserConfig>) {
    && (forall u :: u in users ==> users[u].name == u && 1 <= users[u].lo <= users[u].hi)
    && (forall u, v :: u in users && v in users && u != v ==> users[u].hi < users[v].lo || users[v].hi < users[u].lo)
  }

  ghost predicate Distinct<T(!new)>(s: seq<T>) {
    forall i, j :: 0 <= i < j < |s| ==> s[i] != s[j]
  }

  ghost predicate StrictlyIncreasing(v: seq<Port>) {
    forall i, j :: 0 <= i < j < |v| ==> v[i] < v[j]
  }

  ghost function Elements<T(!new)>(s: seq<T>): set<T> {
    set x | x in s
  }

  /** The source's derived `Ord` on `(ServiceType, u16)`. */
  predicate KeyLeq(a: Key, b: Key) {
    (a.proto == Tcp && b.proto == Udp) || (a.proto == b.proto && a.local <= b.local)
  }

  predicate PortLeq(a: Port, b: Port) {
    a <= b
  }

  /** Lexicographic order of strings by code point; `Bytes.StringOrderIsByteOrder` relates it to their UTF-8 bytes. */
  predicate StringLeq(a: string, b: string) {
    a == [] || (b != [] && (a[0] < b[0] || (a[0] == b[0] && StringLeq(a[1..], b[1..]))))
  }

  lemma {:induction false} StringLeqTotal(a: string, b: string)
    ensures StringLeq(a, b) || StringLeq(b, a)
    ensures StringLeq(a, b) && StringLeq(b, a) ==> a == b
  {
    if a != [] && b != [] {
      StringLeqTotal(a[1..], b[1..]);
      if a[0] == b[0] && a[1..] == b[1..] {
        assert a == [a[0]] + a[1..] && b == [b[0]] + b[1..];
      }
    }
  }

  lemma {:induction false} StringLeqTransitive(a: string, b: string, c: string)
    requires StringLeq(a, b) && StringLeq(b, c)
    ensures StringLeq(a, c)
  {
    if a != [] {
      if a[0] == b[0] && b[0] == c[0] {
        StringLeqTransitive(a[1..], b[1..], c[1..]);
      }
    }
  }

  lemma {:induction false} SubsetSize<T>(a: set<T>, b: set<T>)
    requires a <= b
    ensures |a| <= |b| && (|a| == |b| ==> a == b)
  {
    if a != {} {
      var x :| x in a;
      SubsetSize(a - {x}, b - {x});
    }
  }
}

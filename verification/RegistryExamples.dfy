/** Registrations worked through, number by number. */
module RegistryExamples {
  import opened Types
  import opened Sorting
  import opened Allocator
  import opened Registry

  /** Two distinct keys in the order of their configuration's list. */
  lemma TwoWanted(cfg: UserConfig, a: Key, b: Key)
    requires a != b && Before(cfg.lo, cfg.hi, a, b) && forall k :: Wants(cfg, k) <==> k == a || k == b
    ensures Wanted(cfg) == [a, b]
  {
    var w := Wanted(cfg);
    WantedOrder(cfg);
    assert a in w && b in w;
    assert Elements(w) == {a, b};
    DistinctSize(w);
    assert |w| == 2;
    assert w[0] in w && w[1] in w && Before(cfg.lo, cfg.hi, w[0], w[1]);
  }

  lemma PlaceTwo(user: string, lo: Port, hi: Port, a: Key, b: Key, p: Port, q: Port)
    requires a != b && Choose(a, lo, hi, {}) == Some(p) && Choose(b, lo, hi, {p}) == Some(q)
    ensures PlaceAll([], false, user, lo, hi, [a, b]) == Placing([Alloc(user, a, p), Alloc(user, b, q)], true)
  {
    var t := [Alloc(user, a, p)];
    assert UsedPorts([], user) == {};
    assert Place([], false, user, lo, hi, a) == Placing([] + t, true) && [] + t == t;
    assert UsedPorts(t, user) == {p};
    assert t[1..] == [];
    assert Place(t, true, user, lo, hi, b) == Placing(t + [Alloc(user, b, q)], true);
    assert [a, b][1..] == [b] && [b][1..] == [];
    assert PlaceAll(t + [Alloc(user, b, q)], true, user, lo, hi, []) == Placing(t + [Alloc(user, b, q)], true);
  }

  /** On an empty table, two TCP ports outside the block take its first two ports, the smaller one first. */
  lemma SmallerPortFirst(n: Nonce)
    ensures var cfg := UserConfig("alice", 20000, 20002, [8000, 3000], []);
            var (s, r) := DoRegister(LoadState([]), cfg, n, true);
            r.Registered? && s.allocs == [Alloc("alice", Key(Tcp, 3000), 20000), Alloc("alice", Key(Tcp, 8000), 20001)]
  {
    var cfg := UserConfig("alice", 20000, 20002, [8000, 3000], []);
    TwoWanted(cfg, Key(Tcp, 3000), Key(Tcp, 8000));
    PlaceTwo("alice", 20000, 20002, Key(Tcp, 3000), Key(Tcp, 8000), 20000, 20001);
  }

  /** An in-block port keeps its number even if it is listed later, and the other takes the lowest one left. */
  lemma OwnNumberFirst(n: Nonce)
    ensures var cfg := UserConfig("dev", 5000, 5002, [3000, 5001], []);
            var (s, r) := DoRegister(LoadState([]), cfg, n, true);
            r.Registered? && s.allocs == [Alloc("dev", Key(Tcp, 5001), 5001), Alloc("dev", Key(Tcp, 3000), 5000)]
  {
    var cfg := UserConfig("dev", 5000, 5002, [3000, 5001], []);
    TwoWanted(cfg, Key(Tcp, 5001), Key(Tcp, 3000));
    PlaceTwo("dev", 5000, 5002, Key(Tcp, 5001), Key(Tcp, 3000), 5001, 5000);
  }

  /** A UDP port shares the block and comes after TCP, whatever the numbers. */
  lemma UdpAfterTcp(n: Nonce)
    ensures var cfg := UserConfig("alice", 20000, 20002, [9000], [3000]);
            var (s, r) := DoRegister(LoadState([]), cfg, n, true);
            r.Registered? && s.allocs == [Alloc("alice", Key(Tcp, 9000), 20000), Alloc("alice", Key(Udp, 3000), 20001)]
  {
    var cfg := UserConfig("alice", 20000, 20002, [9000], [3000]);
    TwoWanted(cfg, Key(Tcp, 9000), Key(Udp, 3000));
    PlaceTwo("alice", 20000, 20002, Key(Tcp, 9000), Key(Udp, 3000), 20000, 20001);
  }
}

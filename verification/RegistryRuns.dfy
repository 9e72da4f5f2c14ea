/** Whole runs of the registry: any sequence of registrations, exits, reports and restarts. */
module RegistryRuns {
  import opened Types
  import opened Sorting
  import opened Allocator
  import opened Registry

  datatype Op =
    | Register(cfg: UserConfig, nonce: Nonce, diskOk: bool)
    | Unregister(user: string, nonce: Nonce)
    | SetDisabled(user: string, nonce: Nonce, disabled: seq<Port>)
    | Reload

  function Apply(s: State, op: Op): State {
    match op
    case Register(cfg, n, diskOk) => DoRegister(s, cfg, n, diskOk).0
    case Unregister(u, n) => DoUnregister(s, u, n)
    case SetDisabled(u, n, ports) => DoSetDisabled(s, u, n, ports)
    case Reload => LoadState(s.disk)
  }

  function Run(s: State, ops: seq<Op>): State
    decreases |ops|
  {
    if ops == [] then s else Run(Apply(s, ops[0]), ops[1..])
  }

  /** What holds from `load` onward: a well-formed table, the file equal to it, and the watch equal to the directory. */
  ghost predicate Consistent(s: State) {
    && WellFormed(s.allocs)
    && s.disk == s.allocs
    && s.log != [] && Current(s) == Directory(s.allocs, s.online)
  }

  lemma LoadConsistent(disk: seq<Alloc>)
    requires WellFormed(disk)
    ensures Consistent(LoadState(disk)) && LoadState(disk).allocs == disk
    ensures forall m :: m in Current(LoadState(disk)) <==> Alloc(m.user, m.key, m.remote) in disk && !m.online
  {
    DirectoryRows(disk, map[]);
  }

  lemma ApplyConsistent(s: State, op: Op)
    requires Consistent(s)
    ensures Consistent(Apply(s, op))
  {
    if op.Register? {
      RegisterEffect(s, op.cfg, op.nonce, op.diskOk);
    }
  }

  lemma {:induction false} RunConsistent(s: State, ops: seq<Op>)
    requires Consistent(s)
    ensures Consistent(Run(s, ops))
    decreases |ops|
  {
    if ops != [] {
      ApplyConsistent(s, ops[0]);
      RunConsistent(Apply(s, ops[0]), ops[1..]);
    }
  }

  lemma {:induction false} RunSplit(s: State, a: seq<Op>, b: seq<Op>)
    ensures Run(s, a + b) == Run(Run(s, a), b)
    decreases |a|
  {
    if a == [] {
      assert a + b == b;
    } else {
      assert (a + b)[1..] == a[1..] + b;
      RunSplit(Apply(s, a[0]), a[1..], b);
    }
  }

  /** After any run, a restart shows the same rows, all offline, and needs no write to do so. */
  lemma RestartKeepsRows(s: State, ops: seq<Op>)
    requires Consistent(s)
    ensures Consistent(Run(s, ops + [Reload]))
    ensures var e := Run(s, ops);
            var e' := Run(s, ops + [Reload]);
            && e'.allocs == e.allocs == e'.disk
            && |Current(e')| == |Directory(e.allocs, e.online)|
            && (forall m :: m in Current(e') <==>
                  && !m.online
                  && (m in Directory(e.allocs, e.online) || m.(online := true) in Directory(e.allocs, e.online)))
  {
    var e := Run(s, ops);
    RunSplit(s, ops, [Reload]);
    assert Run(e, [Reload]) == Run(Apply(e, Reload), []);
    RunConsistent(s, ops);
    LoadConsistent(e.disk);
    DirectoryRows(e.allocs, e.online);
    DirectoryRows(e.disk, map[]);
  }

  // ---------- stability ----------

  ghost predicate BlockKeeps(op: Op, user: string, p: Port) {
    op.Register? && op.cfg.name == user ==> InBlock(p, op.cfg.lo, op.cfg.hi)
  }

  /** A row disappears in one step exactly when its own user registers it with a block that excludes its port. */
  lemma RowKeptIff(s: State, op: Op, a: Alloc)
    requires Consistent(s) && a in s.allocs
    ensures a in Apply(s, op).allocs <==>
            !(op.Register? && op.cfg.name == a.user && DoRegister(s, op.cfg, op.nonce, op.diskOk).1.Registered?
              && Wants(op.cfg, a.key) && !InBlock(a.remote, op.cfg.lo, op.cfg.hi))
  {
    if op.Register? {
      var s' := Apply(s, op);
      RegisterEffect(s, op.cfg, op.nonce, op.diskOk);
      WantedOrder(op.cfg);
      PortsRows(s.allocs, a.user);
      PortsRows(s'.allocs, a.user);
      assert a == Alloc(a.user, a.key, a.remote);
      assert a.key in Ports(s.allocs, a.user) && Ports(s.allocs, a.user)[a.key] == a.remote;
      assert a in s'.allocs <==> a.key in Ports(s'.allocs, a.user) && Ports(s'.allocs, a.user)[a.key] == a.remote;
    }
  }

  /** Once allocated, a port stays with its key through any run whose blocks for that user contain it. */
  lemma {:induction false} Stable(s: State, ops: seq<Op>, a: Alloc)
    requires Consistent(s) && a in s.allocs
    requires forall i :: 0 <= i < |ops| ==> BlockKeeps(ops[i], a.user, a.remote)
    ensures a in Run(s, ops).allocs
    decreases |ops|
  {
    if ops != [] {
      assert BlockKeeps(ops[0], a.user, a.remote);
      RowKeptIff(s, ops[0], a);
      ApplyConsistent(s, ops[0]);
      Stable(Apply(s, ops[0]), ops[1..], a);
    }
  }

  /**
   * Re-registering is free: after a successful registration and any later run that keeps the user's
   * block, registering any part of the same ports again succeeds without writing the file (so even when
   * it cannot be written), changes no row, and gives each key the port it had.
   */
  lemma ReRegisterIsFree(s: State, cfg: UserConfig, n: Nonce, diskOk: bool, ops: seq<Op>, cfg2: UserConfig, n2: Nonce)
    requires Consistent(s) && DoRegister(s, cfg, n, diskOk).1.Registered?
    requires forall i :: 0 <= i < |ops| && ops[i].Register? && ops[i].cfg.name == cfg.name ==>
                           ops[i].cfg.lo == cfg.lo && ops[i].cfg.hi == cfg.hi
    requires cfg2.name == cfg.name && cfg2.lo == cfg.lo && cfg2.hi == cfg.hi
    requires forall k :: Wants(cfg2, k) ==> Wants(cfg, k)
    ensures var e := Run(DoRegister(s, cfg, n, diskOk).0, ops);
            var (e', r) := DoRegister(e, cfg2, n2, false);
            && r.Registered? && e'.allocs == e.allocs && e'.disk == e.disk
            && forall m :: m in r.mappings ==> m in DoRegister(s, cfg, n, diskOk).1.mappings
  {
    var (s1, r1) := DoRegister(s, cfg, n, diskOk);
    var e := Run(s1, ops);
    RegisterEffect(s, cfg, n, diskOk);
    ApplyConsistent(s, Register(cfg, n, diskOk));
    RunConsistent(s1, ops);
    WantedOrder(cfg);
    WantedOrder(cfg2);
    PortsRows(s1.allocs, cfg.name);
    PortsRows(e.allocs, cfg.name);
    var m1, m2 := Ports(s1.allocs, cfg.name), Ports(e.allocs, cfg.name);
    forall k | Wants(cfg, k)
      ensures k in m2 && m2[k] == m1[k] && Settled(m2, cfg.lo, cfg.hi, k)
    {
      assert k in Wanted(cfg) && k in m1 && InBlock(m1[k], cfg.lo, cfg.hi);
      var a := Alloc(cfg.name, k, m1[k]);
      assert a in s1.allocs;
      Stable(s1, ops, a);
    }
    PlaceAllRefines(e.allocs, false, cfg.name, cfg.lo, cfg.hi, Wanted(cfg2));
    AssignAllSettled(m2, cfg.lo, cfg.hi, Wanted(cfg2));
    RegisterEffect(e, cfg2, n2, false);
  }

  lemma {:induction false} AssignAllSettled(m: map<Key, Port>, lo: Port, hi: Port, w: seq<Key>)
    requires forall k :: k in w ==> Settled(m, lo, hi, k)
    ensures AssignAll(m, lo, hi, w) == Some(m)
  {
    if w != [] {
      assert w[0] in w;
      AssignAllSettled(m, lo, hi, w[1..]);
    }
  }

  // ---------- where the documentation promises more than the code does ----------

  /** README.md:106 says an in-block local port keeps its number; wanted for both protocols it cannot. */
  lemma InBlockPortCanLoseNumber()
    ensures var cfg := UserConfig("dev", 5000, 5001, [5000], [5000]);
            var (s', r) := DoRegister(LoadState([]), cfg, 1, true);
            && r.Registered? && WellFormed(s'.allocs)
            && !AllKeepNumbers(cfg.lo, cfg.hi, Wanted(cfg), Ports(s'.allocs, cfg.name))
  {
    var cfg := UserConfig("dev", 5000, 5001, [5000], [5000]);
    var s := LoadState([]);
    WantedOrder(cfg);
    var w := Wanted(cfg);
    assert Wants(cfg, Key(Tcp, 5000)) && Wants(cfg, Key(Udp, 5000));
    assert Elements(w) == {Key(Tcp, 5000), Key(Udp, 5000)};
    DistinctSize(w);
    assert HeldUnwanted(Ports(s.allocs, "dev"), 5000, 5001, w) == {};
    RegisterOutcome(s, cfg, 1, true);
    FreshUserKeepsNumbers(s, cfg, 1, true);
    assert 5000 in cfg.tcpPorts && 5000 in cfg.udpPorts && InBlock(5000, cfg.lo, cfg.hi);
  }

  /** A configuration that fits its block can still be refused: an older row keeps a port of the block. */
  lemma FittingConfigCanBeRefused()
    ensures var cfg := UserConfig("dev", 5000, 5000, [8000], []);
            var s := LoadState([Alloc("dev", Key(Tcp, 3000), 5000)]);
            && WellFormed(s.allocs)
            && |cfg.tcpPorts| + |cfg.udpPorts| <= BlockSize(cfg.lo, cfg.hi)
            && DoRegister(s, cfg, 1, true).1.Exhausted?
  {
    var cfg := UserConfig("dev", 5000, 5000, [8000], []);
    var s := LoadState([Alloc("dev", Key(Tcp, 3000), 5000)]);
    WantedOrder(cfg);
    var m, w := Ports(s.allocs, "dev"), Wanted(cfg);
    assert Wants(cfg, Key(Tcp, 8000));
    assert Elements(w) == {Key(Tcp, 8000)};
    DistinctSize(w);
    PortsRows(s.allocs, "dev");
    assert Alloc("dev", Key(Tcp, 3000), 5000) == s.allocs[0];
    assert Key(Tcp, 3000) in m && m[Key(Tcp, 3000)] == 5000 && !Wants(cfg, Key(Tcp, 3000));
    assert 5000 in HeldUnwanted(m, 5000, 5000, w);
    RegisterOutcome(s, cfg, 1, true);
  }

  /** For a configuration that fits: refused exactly when leftover in-block ports leave too little room. */
  lemma FittingConfigRefusedIff(s: State, cfg: UserConfig, n: Nonce, diskOk: bool)
    requires WellFormed(s.allocs) && Distinct(cfg.tcpPorts) && Distinct(cfg.udpPorts)
    requires |cfg.tcpPorts| + |cfg.udpPorts| <= BlockSize(cfg.lo, cfg.hi)
    ensures DoRegister(s, cfg, n, diskOk).1.Exhausted? <==>
            |HeldUnwanted(Ports(s.allocs, cfg.name), cfg.lo, cfg.hi, Wanted(cfg))|
            > BlockSize(cfg.lo, cfg.hi) - (|cfg.tcpPorts| + |cfg.udpPorts|)
  {
    WantedOrder(cfg);
    RegisterOutcome(s, cfg, n, diskOk);
    var tcp, udp := Keys(Tcp, cfg.tcpPorts), Keys(Udp, cfg.udpPorts);
    DistinctSize(tcp);
    DistinctSize(udp);
    DistinctSize(Wanted(cfg));
    forall k
      ensures k in Wanted(cfg) <==> k in tcp || k in udp
    {
      KeysHas(Tcp, cfg.tcpPorts, k);
      KeysHas(Udp, cfg.udpPorts, k);
    }
    assert Elements(Wanted(cfg)) == Elements(tcp) + Elements(udp);
    assert Elements(tcp) !! Elements(udp);
  }
}

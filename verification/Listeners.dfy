/** What the installed handles listen on, and where their visitors go. */
module Listeners {
  import opened Types
  import opened Allocator
  import Registry
  import RegistryRuns
  import MultiMaps
  import opened Server
  import DataChannels
  import Wire

  ghost predicate RowsDistinct(ms: seq<Mapping>) {
    forall a, b :: a in ms && b in ms && (a.key == b.key || a.remote == b.remote) ==> a == b
  }

  /** A task's mappings are rows of the table, in its user's block: one for each configured key, no number twice. */
  ghost predicate Served(s: State, t: Task) {
    && t.user in s.users
    && (forall m :: m in t.mappings ==>
          && m.user == t.user && Alloc(t.user, m.key, m.remote) in s.reg.allocs
          && InBlock(m.remote, s.users[t.user].lo, s.users[t.user].hi))
    && RowsDistinct(t.mappings)
    && (forall k :: Wants(s.users[t.user], k) <==> exists m :: m in t.mappings && m.key == k)
  }

  ghost predicate AllServed(s: State) {
    forall n :: n in s.tasks && Unfinished(s.tasks[n]) ==> Served(s, s.tasks[n])
  }

  /** What a registration answers. */
  lemma AnswerServes(reg: Registry.State, cfg: UserConfig, n: Nonce, diskOk: bool)
    requires RegistryRuns.Consistent(reg) && Registry.DoRegister(reg, cfg, n, diskOk).1.Registered?
    ensures var (reg', r) := Registry.DoRegister(reg, cfg, n, diskOk);
            && (forall m :: m in r.mappings ==>
                  && m.user == cfg.name && Alloc(cfg.name, m.key, m.remote) in reg'.allocs
                  && InBlock(m.remote, cfg.lo, cfg.hi))
            && RowsDistinct(r.mappings)
            && (forall k :: Wants(cfg, k) <==> exists m :: m in r.mappings && m.key == k)
  {
    var (reg', r) := Registry.DoRegister(reg, cfg, n, diskOk);
    Registry.RegisterEffect(reg, cfg, n, diskOk);
    WantedOrder(cfg);
    PortsRows(reg'.allocs, cfg.name);
    AnswersAreRows(cfg, Ports(reg'.allocs, cfg.name), r.mappings);
    assert forall m :: m in r.mappings ==> m.key in Wanted(cfg);
  }

  lemma AnswersAreRows(cfg: UserConfig, ports: map<Key, Port>, ms: seq<Mapping>)
    requires Registry.Answers(cfg, ports, ms) && Injective(ports)
    ensures forall m :: m in ms ==>
              m.user == cfg.name && m.key in ports && ports[m.key] == m.remote && Wants(cfg, m.key)
    ensures RowsDistinct(ms)
    ensures forall k :: Wants(cfg, k) <==> exists m :: m in ms && m.key == k
  {
    forall k | Wants(cfg, k)
      ensures exists m :: m in ms && m.key == k
    {
      assert Mapping(cfg.name, k, ports[k], true) in ms;
    }
  }

  /** Rows in their user's block stay while the server runs. */
  lemma RowsStay(s: State, step: Step, t: Task)
    requires Inv(s) && Enabled(s, step) && !step.Restart? && Served(s, t) && Next(s, step).users == s.users
    ensures Served(Next(s, step), t)
  {
    StepIsRegistryRun(s, step);
    forall m | m in t.mappings
      ensures Alloc(t.user, m.key, m.remote) in Next(s, step).reg.allocs
    {
      StepKeeps(s, step, t.user, m.remote);
      RegistryRuns.Stable(s.reg, RegistryOps(s, step), Alloc(t.user, m.key, m.remote));
    }
  }

  lemma StepKeeps(s: State, step: Step, u: string, p: Port)
    requires Inv(s) && Enabled(s, step) && u in s.users && InBlock(p, s.users[u].lo, s.users[u].hi)
    ensures forall i :: 0 <= i < |RegistryOps(s, step)| ==> RegistryRuns.BlockKeeps(RegistryOps(s, step)[i], u, p)
  {
  }

  lemma RegisterServes(s: State, u: string, n: Nonce, diskOk: bool)
    requires Inv(s) && AllServed(s) && Enabled(s, Register(u, n, diskOk))
    ensures AllServed(Next(s, Register(u, n, diskOk)))
  {
    var s' := Next(s, Register(u, n, diskOk));
    RegisterOnline(s, u, n, diskOk);
    forall m | m in s'.tasks && Unfinished(s'.tasks[m])
      ensures Served(s', s'.tasks[m])
    {
      if m == n {
        AnswerServes(s.reg, s.users[u], n, diskOk);
      } else {
        RowsStay(s, Register(u, n, diskOk), s.tasks[m]);
      }
    }
  }

  lemma ServedTasks(s: State, s': State)
    requires s'.tasks.Keys == s.tasks.Keys && AllServed(s)
    requires forall n :: n in s.tasks && Unfinished(s'.tasks[n]) ==>
               && Unfinished(s.tasks[n])
               && s'.tasks[n].user == s.tasks[n].user && s'.tasks[n].mappings == s.tasks[n].mappings
               && Served(s', s.tasks[n])
    ensures AllServed(s')
  {
  }

  lemma NextServes(s: State, step: Step)
    requires Inv(s) && AllServed(s) && Enabled(s, step)
    ensures AllServed(Next(s, step))
  {
    if step.Register? {
      RegisterServes(s, step.user, step.nonce, step.diskOk);
    } else if !step.Restart? {
      var s' := Next(s, step);
      StepMoves(s, step);
      forall n | n in s.tasks && Unfinished(s'.tasks[n])
        ensures Unfinished(s.tasks[n]) && Served(s', s.tasks[n])
        ensures s'.tasks[n].user == s.tasks[n].user && s'.tasks[n].mappings == s.tasks[n].mappings
      {
        RowsStay(s, step, s.tasks[n]);
      }
      ServedTasks(s, s');
    }
  }

  lemma {:induction false} RunServes(s: State, steps: seq<Step>)
    requires Inv(s) && AllServed(s) && CanRun(s, steps)
    ensures AllServed(Run(s, steps))
    decreases |steps|
  {
    if steps != [] {
      NextServes(s, steps[0]);
      NextInv(s, steps[0]);
      RunServes(Next(s, steps[0]), steps[1..]);
    }
  }

  /** The mappings on which an installed handle listens. */
  ghost function Listening(s: State, h: Handle): seq<Mapping>
    requires h.k2 in s.tasks
  {
    s.tasks[h.k2].mappings
  }

  /** Two installed handles listen on one remote port. */
  ghost predicate SamePort(s: State, g: Handle, h: Handle, a: Mapping, b: Mapping) {
    && g in s.chans && h in s.chans && g.k2 in s.tasks && h.k2 in s.tasks
    && a in Listening(s, g) && b in Listening(s, h) && a.remote == b.remote
  }

  /** The rows of two handles on one remote port are the same row of the same handle. */
  lemma HandlesExclusive(s: State, g: Handle, h: Handle, a: Mapping, b: Mapping)
    requires Inv(s) && AllServed(s) && SamePort(s, g, h, a, b)
    ensures g == h && a == b
  {
    assert Served(s, s.tasks[g.k2]) && Served(s, s.tasks[h.k2]);
  }

  /**
   * In every reachable state the installed handles listen on pairwise distinct remote ports. Each is a row
   * of the current table in its user's block, and every configured key of the user has one.
   */
  lemma ListenersExclusive(users: map<string, UserConfig>, disk: seq<Alloc>, steps: seq<Step>)
    requires Validated(users) && WellFormed(disk) && CanRun(Init(users, disk), steps)
    ensures var s := Run(Init(users, disk), steps);
            && (forall h :: h in s.chans ==> h.k2 in s.tasks && s.tasks[h.k2].user == h.k1 && Served(s, s.tasks[h.k2]))
            && (forall g, h, a, b :: SamePort(s, g, h, a, b) ==> g == h && a == b)
  {
    var s := Run(Init(users, disk), steps);
    InitInv(users, disk);
    RunInv(Init(users, disk), steps);
    RunServes(Init(users, disk), steps);
    forall g, h, a, b | SamePort(s, g, h, a, b)
      ensures g == h && a == b
    {
      HandlesExclusive(s, g, h, a, b);
    }
  }

  /** The command a pool writes to the data channel it takes. */
  ghost function Command(d: DataChannels.State, c: nat): Wire.DataChannelCmd
    requires c in d.paired || (c in d.forwarding && d.forwarding[c] < |DataChannels.UdpRows(d.mappings)|)
  {
    if c in d.paired then Wire.StartForwardTcp(d.paired[c].port)
    else Wire.StartForwardUdp(DataChannels.UdpRows(d.mappings)[d.forwarding[c]].key.local)
  }

  /** Channel `c` was taken for traffic on `m.remote`: a visitor that its listener accepted, or its UDP pool. */
  ghost predicate TakenFor(d: DataChannels.State, c: nat, m: Mapping) {
    if c in d.paired then d.paired[c].id < |d.visitors| && d.visitors[d.paired[c].id] == m && m.key.proto == Tcp
    else
      && c in d.forwarding && d.forwarding[c] < |DataChannels.UdpRows(d.mappings)|
      && DataChannels.UdpRows(d.mappings)[d.forwarding[c]] == m && m.key.proto == Udp
  }

  function ForwardTo(k: Key): Wire.DataChannelCmd {
    if k.proto == Tcp then Wire.StartForwardTcp(k.local) else Wire.StartForwardUdp(k.local)
  }

  lemma ChannelTaken(ms: seq<Mapping>, inner: seq<DataChannels.Step>, c: nat) returns (m: Mapping)
    requires DataChannels.CanRun(DataChannels.Start(ms), inner)
    requires var d := DataChannels.Run(DataChannels.Start(ms), inner); c in d.paired || c in d.forwarding
    ensures var d := DataChannels.Run(DataChannels.Start(ms), inner);
            && m in ms && TakenFor(d, c, m)
            && (c !in d.paired ==> d.forwarding[c] < |DataChannels.UdpRows(d.mappings)|)
            && Command(d, c) == ForwardTo(m.key)
  {
    var d := DataChannels.Run(DataChannels.Start(ms), inner);
    DataChannels.StartInv(ms);
    DataChannels.ChannelConservation(DataChannels.Start(ms), inner);
    DataChannels.UdpRowsExact(ms);
    m := if c in d.paired then d.visitors[d.paired[c].id] else DataChannels.UdpRows(ms)[d.forwarding[c]];
  }

  /**
   * End to end: for a handle of a reachable server, whatever its listeners and pools do, every data channel
   * they take was taken for traffic on one remote port, which a row of the current table gives to this user,
   * and carries the command for that row's protocol and local port.
   */
  lemma VisitorsForwarded(users: map<string, UserConfig>, disk: seq<Alloc>, steps: seq<Step>, h: Handle,
                          inner: seq<DataChannels.Step>, d: DataChannels.State, c: nat) returns (m: Mapping)
    requires Validated(users) && WellFormed(disk) && CanRun(Init(users, disk), steps)
    requires h in Run(Init(users, disk), steps).chans && h.k2 in Run(Init(users, disk), steps).tasks
    requires var start := DataChannels.Start(Listening(Run(Init(users, disk), steps), h));
             DataChannels.CanRun(start, inner) && d == DataChannels.Run(start, inner)
    requires c in d.paired || c in d.forwarding
    ensures TakenFor(d, c, m)
    ensures c !in d.paired ==> d.forwarding[c] < |DataChannels.UdpRows(d.mappings)|
    ensures Command(d, c) == ForwardTo(m.key)
    ensures var s := Run(Init(users, disk), steps);
            && Alloc(h.k1, m.key, m.remote) in s.reg.allocs
            && h.k1 in s.users && Wants(s.users[h.k1], m.key)
  {
    ListenersExclusive(users, disk, steps);
    m := ChannelTaken(Listening(Run(Init(users, disk), steps), h), inner, c);
  }
}

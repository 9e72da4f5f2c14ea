/** What every run of the server keeps. */
module ServerProperties {
  import opened Types
  import opened Allocator
  import Registry
  import RegistryRuns
  import MultiMaps
  import opened Server
  import opened DirectorySize
  import Wire

  // ---------- ports ----------

  /** Online rows lie in their user's block and never share a remote port, across users and protocols. */
  ghost predicate Exclusive(users: map<string, UserConfig>, dir: seq<Mapping>) {
    && (forall m :: m in dir && m.online ==> m.user in users && InBlock(m.remote, users[m.user].lo, users[m.user].hi))
    && (forall a, b :: a in dir && b in dir && a.online && b.online && a.remote == b.remote ==> a == b)
  }

  lemma OnlineRowsExclusive(s: State)
    requires Inv(s)
    ensures Exclusive(s.users, Registry.Current(s.reg))
  {
    var t, online := s.reg.allocs, s.reg.online;
    var dir := Registry.Directory(t, online);
    Registry.DirectoryRows(t, online);
    Registry.DirectoryDistinct(t, online);
    forall m | m in dir && m.online
      ensures m.user in s.users && InBlock(m.remote, s.users[m.user].lo, s.users[m.user].hi)
    {
      PortsRows(t, m.user);
      assert Alloc(m.user, m.key, m.remote) in t;
      assert Registry.IsOnline(online, m.user, m.key);
      assert Settled(Ports(t, m.user), s.users[m.user].lo, s.users[m.user].hi, m.key);
    }
  }

  /** In every reachable state, whatever stale rows the table holds. */
  lemma ReachableExclusive(users: map<string, UserConfig>, disk: seq<Alloc>, steps: seq<Step>)
    requires Validated(users) && WellFormed(disk) && CanRun(Init(users, disk), steps)
    ensures var s := Run(Init(users, disk), steps);
            && s.reg.log != []
            && Exclusive(s.users, Registry.Current(s.reg))
            && Registry.Current(s.reg) == Registry.Directory(s.reg.allocs, s.reg.online)
            && s.reg.disk == s.reg.allocs && WellFormed(s.reg.allocs)
  {
    InitInv(users, disk);
    RunInv(Init(users, disk), steps);
    OnlineRowsExclusive(Run(Init(users, disk), steps));
  }

  ghost predicate BlockOf(users: map<string, UserConfig>, a: Alloc) {
    a.user in users ==> InBlock(a.remote, users[a.user].lo, users[a.user].hi)
  }

  /** A port stays with its key over any run, restarts included, as long as every configuration's block holds it. */
  lemma {:induction false} PortStable(s: State, steps: seq<Step>, a: Alloc)
    requires Inv(s) && CanRun(s, steps) && a in s.reg.allocs && BlockOf(s.users, a)
    requires forall i :: 0 <= i < |steps| && steps[i].Restart? ==> BlockOf(steps[i].users, a)
    ensures a in Run(s, steps).reg.allocs
    decreases |steps|
  {
    if steps != [] {
      var step, s' := steps[0], Next(s, steps[0]);
      NextInv(s, step);
      StepIsRegistryRun(s, step);
      assert a in s'.reg.allocs by {
        var ops := RegistryOps(s, step);
        forall i | 0 <= i < |ops|
          ensures RegistryRuns.BlockKeeps(ops[i], a.user, a.remote)
        {
        }
        RegistryRuns.Stable(s.reg, ops, a);
      }
      PortStable(s', steps[1..], a);
    }
  }

  // ---------- registration and restart ----------

  /** In every reachable state a session's keys are exactly those its user's configuration asks for. */
  lemma SessionsWanted(users: map<string, UserConfig>, disk: seq<Alloc>, steps: seq<Step>, u: string, k: Key)
    requires Validated(users) && WellFormed(disk) && CanRun(Init(users, disk), steps)
    requires u in Run(Init(users, disk), steps).reg.online
    ensures var s := Run(Init(users, disk), steps);
            && u in s.users
            && (k in s.reg.online[u].ports <==>
                  if k.proto == Tcp then k.local in s.users[u].tcpPorts else k.local in s.users[u].udpPorts)
  {
    InitInv(users, disk);
    RunInv(Init(users, disk), steps);
  }

  /**
   * A handshake registers exactly when its user's block has room for the configured keys beside the in-block
   * ports of dropped ones, and the file can be written if some key has no port of the block yet.
   */
  lemma RegistrationOutcome(s: State, u: string, n: Nonce, diskOk: bool)
    requires Inv(s) && Enabled(s, Register(u, n, diskOk))
    ensures var cfg, m := s.users[u], Ports(s.reg.allocs, u);
            At(Next(s, Register(u, n, diskOk)), n, Registered) <==>
              && |Wanted(cfg)| + |HeldUnwanted(m, cfg.lo, cfg.hi, Wanted(cfg))| <= cfg.hi - cfg.lo + 1
              && (diskOk || forall k :: Wants(cfg, k) ==> k in m && cfg.lo <= m[k] <= cfg.hi)
  {
    var cfg, m := s.users[u], Ports(s.reg.allocs, u);
    Registry.RegisterOutcome(s.reg, cfg, n, diskOk);
    WantedOrder(cfg);
    var missing := Missing(m, cfg.lo, cfg.hi, Wanted(cfg));
    if |missing| == 0 {
      forall k | Wants(cfg, k)
        ensures k in m && cfg.lo <= m[k] <= cfg.hi
      {
        assert k !in missing;
      }
    } else {
      var k :| k in missing;
      assert Wants(cfg, k) && !(k in m && cfg.lo <= m[k] <= cfg.hi);
    }
  }

  /** A restart with new users keeps the table, takes everyone offline, drops all handles and ends all tasks. */
  lemma RestartEffect(s: State, users: map<string, UserConfig>)
    requires Inv(s) && Enabled(s, Restart(users))
    ensures var s' := Next(s, Restart(users));
            && s'.users == users && s'.reg.allocs == s.reg.allocs && s'.reg.disk == s.reg.disk
            && s'.reg.online == map[] && s'.chans == {}
            && s'.tasks.Keys == s.tasks.Keys && (forall n :: n in s'.tasks ==> s'.tasks[n].phase == Gone)
  {
  }

  // ---------- sessions ----------

  ghost predicate SameSessionsExcept(s: State, s': State, n: Nonce) {
    forall u :: u in s.reg.online && s.reg.online[u].nonce != n ==>
                  u in s'.reg.online && s'.reg.online[u] == s.reg.online[u]
  }

  ghost predicate SameHandlesExcept(s: State, s': State, n: Nonce) {
    forall h: Handle :: h.k2 != n ==> (h in s.chans <==> h in s'.chans)
  }

  /** A report, a push, an exit or an early return of one session touches no other session, handle or task. */
  lemma SessionIsolated(s: State, step: Step)
    requires Inv(s) && Enabled(s, step) && !step.Register? && !step.Install? && !step.InstallLost? && !step.Restart?
    ensures var s' := Next(s, step);
            && SameSessionsExcept(s, s', step.nonce)
            && SameHandlesExcept(s, s', step.nonce)
            && (forall m :: m in s.tasks && m != step.nonce ==> m in s'.tasks && s'.tasks[m] == s.tasks[m])
            && (forall u :: u in s'.reg.online ==> u in s.reg.online && s'.reg.online[u].nonce == s.reg.online[u].nonce)
  {
    StepMoves(s, step);
    MovesIsolated(s, step, Next(s, step));
  }

  lemma MovesIsolated(s: State, step: Step, s': State)
    requires Moves(s, step, s') && !step.Install? && !step.InstallLost?
    ensures SameSessionsExcept(s, s', step.nonce) && SameHandlesExcept(s, s', step.nonce)
  {
  }

  /** Registering and installing reach only the same user. */
  lemma UserIsolated(s: State, step: Step, v: string)
    requires Inv(s) && Enabled(s, step)
    requires if step.Register? then v != step.user
             else (step.Install? || step.InstallLost?) && v != s.tasks[step.nonce].user
    ensures var s' := Next(s, step);
            && (v in s.reg.online <==> v in s'.reg.online)
            && (v in s.reg.online ==> s'.reg.online[v] == s.reg.online[v])
            && (forall h: Handle :: h.k1 == v ==> (h in s.chans <==> h in s'.chans))
            && WellFormed(s'.reg.allocs) && Ports(s'.reg.allocs, v) == Ports(s.reg.allocs, v)
  {
    if step.Register? {
      RegisterIsolated(s, step.user, step.nonce, step.diskOk, v);
    } else {
      InstallIsolated(s, step, v);
    }
  }

  lemma RegisterIsolated(s: State, u: string, n: Nonce, diskOk: bool, v: string)
    requires WellFormed(s.reg.allocs) && Enabled(s, Register(u, n, diskOk)) && s.users[u].name == u && v != u
    ensures var s' := Next(s, Register(u, n, diskOk));
            && (v in s.reg.online <==> v in s'.reg.online)
            && (v in s.reg.online ==> s'.reg.online[v] == s.reg.online[v])
            && s'.chans == s.chans && WellFormed(s'.reg.allocs) && Ports(s'.reg.allocs, v) == Ports(s.reg.allocs, v)
  {
    RegisterOnline(s, u, n, diskOk);
    Registry.RegisterEffect(s.reg, s.users[u], n, diskOk);
  }

  lemma InstallIsolated(s: State, step: Step, v: string)
    requires Enabled(s, step) && (step.Install? || step.InstallLost?) && v != s.tasks[step.nonce].user
    ensures Next(s, step).reg == s.reg
    ensures forall h: Handle :: h.k1 == v ==> (h in s.chans <==> h in Next(s, step).chans)
  {
  }

  ghost predicate Absent(s: State, n: Nonce) {
    && (forall h :: h in s.chans ==> h.k2 != n)
    && (forall u :: u in s.reg.online ==> s.reg.online[u].nonce != n)
  }

  lemma FinishedAbsent(s: State, n: Nonce)
    requires Inv(s) && n in s.tasks && s.tasks[n].phase in {Done, Gone}
    ensures Absent(s, n)
  {
  }

  lemma FinishedStays(s: State, step: Step, n: Nonce)
    requires SessionsOwned(s) && Enabled(s, step) && n in s.tasks && s.tasks[n].phase in {Done, Gone}
    ensures n in Next(s, step).tasks && Next(s, step).tasks[n].phase in {Done, Gone}
  {
    if !step.Register? && !step.Restart? {
      StepMoves(s, step);
    }
  }

  /** A session that ran its exit steps never reappears in the map or the registry. */
  lemma {:induction false} FinishedForever(s: State, steps: seq<Step>, n: Nonce)
    requires Inv(s) && CanRun(s, steps) && n in s.tasks && s.tasks[n].phase in {Done, Gone}
    ensures n in Run(s, steps).tasks && Run(s, steps).tasks[n].phase in {Done, Gone}
    ensures Absent(Run(s, steps), n)
    decreases |steps|
  {
    if steps == [] {
      FinishedAbsent(s, n);
    } else {
      NextInv(s, steps[0]);
      FinishedStays(s, steps[0], n);
      FinishedForever(Next(s, steps[0]), steps[1..], n);
    }
  }

  /** The reply of `insert`, which the handshake discards, is always success. */
  lemma InsertAlwaysSucceeds(s: State, n: Nonce)
    requires Inv(s) && Enabled(s, Install(n))
    ensures var u := s.tasks[n].user;
            && MultiMaps.Step(MultiMaps.Without1(s.chans, u), MultiMaps.Insert(u, n, ())).1 == MultiMaps.Inserted
            && Next(s, Install(n)).chans == MultiMaps.Without1(s.chans, u) + {MultiMaps.Item(u, n, ())}
  {
  }

  // ---------- agreement of the two tables ----------

  ghost predicate Installed(s: State, n: Nonce) {
    n in s.tasks && s.tasks[n].phase in {Starting, Live}
  }

  /** If a user's current session is installed and not exiting, the map holds exactly its handle for the user. */
  ghost predicate Agree(s: State) {
    forall u :: u in s.reg.online && Installed(s, s.reg.online[u].nonce) ==>
                  MultiMaps.Item(u, s.reg.online[u].nonce, ()) in s.chans
  }

  /** An install that runs after a later registration of the same user has already been installed. */
  ghost predicate Overtaken(s: State, step: Step) {
    && (step.Install? || step.InstallLost?) && step.nonce in s.tasks
    && var u := s.tasks[step.nonce].user;
       u in s.reg.online && s.reg.online[u].nonce != step.nonce && Installed(s, s.reg.online[u].nonce)
  }

  lemma AgreeStep(s: State, step: Step)
    requires Inv(s) && Agree(s) && Enabled(s, step)
    ensures Agree(Next(s, step)) <==> !Overtaken(s, step)
  {
    if step.Register? {
      RegisterOnline(s, step.user, step.nonce, step.diskOk);
    } else if step.Install? || step.InstallLost? {
      AgreeInstall(s, step);
    } else if !step.Restart? {
      StepMoves(s, step);
      AgreeMoves(s, step, Next(s, step));
    }
  }

  lemma AgreeInstall(s: State, step: Step)
    requires Inv(s) && Agree(s) && Enabled(s, step) && (step.Install? || step.InstallLost?)
    ensures Agree(Next(s, step)) <==> !Overtaken(s, step)
  {
    TaskMoves(s, step);
    HandleReplaced(s, step);
    AgreeReplaced(s, step, Next(s, step));
  }

  /** The user's handle becomes the new one, or none. */
  lemma HandleReplaced(s: State, step: Step)
    requires Inv(s) && Enabled(s, step) && (step.Install? || step.InstallLost?)
    ensures var u := s.tasks[step.nonce].user;
            var own := if step.Install? then {MultiMaps.Item(u, step.nonce, ())} else {};
            Next(s, step).chans == MultiMaps.Without1(s.chans, u) + own
  {
    if step.Install? {
      InsertAlwaysSucceeds(s, step.nonce);
    }
  }

  lemma AgreeReplaced(s: State, step: Step, s': State)
    requires Agree(s) && Moves(s, step, s') && (step.Install? || step.InstallLost?)
    requires forall v :: v in s.reg.online ==>
                           s.reg.online[v].nonce in s.tasks && s.tasks[s.reg.online[v].nonce].user == v
    requires var u := s.tasks[step.nonce].user;
             var own := if step.Install? then {MultiMaps.Item(u, step.nonce, ())} else {};
             s'.chans == MultiMaps.Without1(s.chans, u) + own
    ensures Agree(s') <==> !Overtaken(s, step)
  {
    var u := s.tasks[step.nonce].user;
    if Overtaken(s, step) {
      assert Installed(s', s'.reg.online[u].nonce);
      assert MultiMaps.Item(u, s.reg.online[u].nonce, ()) !in s'.chans;
    } else {
      forall v | v in s'.reg.online && Installed(s', s'.reg.online[v].nonce)
        ensures MultiMaps.Item(v, s'.reg.online[v].nonce, ()) in s'.chans
      {
        assert v != u ==> Installed(s, s.reg.online[v].nonce);
      }
    }
  }

  /** A task that moves on without installing was installed already, and only leaving takes its handle out. */
  lemma AgreeMoves(s: State, step: Step, s': State)
    requires Agree(s) && Moves(s, step, s') && !step.Install? && !step.InstallLost?
    ensures Agree(s')
  {
    forall u | u in s'.reg.online && Installed(s', s'.reg.online[u].nonce)
      ensures MultiMaps.Item(u, s'.reg.online[u].nonce, ()) in s'.chans
    {
      assert Installed(s, s.reg.online[u].nonce);
    }
  }

  ghost predicate AlwaysAgree(s: State, steps: seq<Step>)
    requires CanRun(s, steps)
    decreases |steps|
  {
    Agree(s) && (steps != [] ==> AlwaysAgree(Next(s, steps[0]), steps[1..]))
  }

  ghost predicate NeverOvertaken(s: State, steps: seq<Step>)
    requires CanRun(s, steps)
    decreases |steps|
  {
    steps != [] ==> !Overtaken(s, steps[0]) && NeverOvertaken(Next(s, steps[0]), steps[1..])
  }

  /** Exactly the runs without an overtaken install keep the two tables in agreement throughout. */
  lemma {:induction false} AgreementIff(s: State, steps: seq<Step>)
    requires Inv(s) && Agree(s) && CanRun(s, steps)
    ensures AlwaysAgree(s, steps) <==> NeverOvertaken(s, steps)
    decreases |steps|
  {
    if steps != [] {
      AgreeStep(s, steps[0]);
      NextInv(s, steps[0]);
      if Agree(Next(s, steps[0])) {
        AgreementIff(Next(s, steps[0]), steps[1..]);
      }
    }
  }

  ghost predicate LaterOfUser(a: Task, b: Task) {
    b.user == a.user && b.order > a.order
  }

  /** One user's handshakes install in the order they registered. */
  ghost predicate InRegistrationOrder(s: State, steps: seq<Step>)
    requires CanRun(s, steps)
    decreases |steps|
  {
    steps != [] ==>
      && (steps[0].Install? || steps[0].InstallLost? ==>
            forall m :: m in s.tasks && LaterOfUser(s.tasks[steps[0].nonce], s.tasks[m]) ==> !Installed(s, m))
      && InRegistrationOrder(Next(s, steps[0]), steps[1..])
  }

  lemma {:induction false} InOrderNeverOvertaken(s: State, steps: seq<Step>)
    requires Inv(s) && CanRun(s, steps) && InRegistrationOrder(s, steps)
    ensures NeverOvertaken(s, steps)
    decreases |steps|
  {
    if steps != [] {
      NextInv(s, steps[0]);
      InOrderNeverOvertaken(Next(s, steps[0]), steps[1..]);
    }
  }

  /** Session agreement: from the start, whenever installs keep registration order. */
  lemma SessionAgreement(users: map<string, UserConfig>, disk: seq<Alloc>, steps: seq<Step>)
    requires Validated(users) && WellFormed(disk) && CanRun(Init(users, disk), steps)
    requires InRegistrationOrder(Init(users, disk), steps)
    ensures AlwaysAgree(Init(users, disk), steps)
  {
    InitInv(users, disk);
    InOrderNeverOvertaken(Init(users, disk), steps);
    AgreementIff(Init(users, disk), steps);
  }

  // ---------- sessions that nobody will end ----------

  /** A session whose task returned early stays online with no task left to end it. */
  ghost predicate Stranded(s: State, u: string) {
    u in s.reg.online && At(s, s.reg.online[u].nonce, Abandoned)
  }

  ghost predicate StrandsNow(s: State, step: Step, u: string) {
    && (step.AckLost? || step.InstallLost? || step.FirstPushLost?) && step.nonce in s.tasks
    && s.tasks[step.nonce].user == u && Registry.IsCurrent(s.reg, u, step.nonce)
  }

  /** A step that moves a task strands exactly the user whose current session it abandons, and rescues nobody. */
  lemma MovesStrand(s: State, step: Step, s': State, u: string)
    requires Moves(s, step, s')
    requires u in s.reg.online ==> s.reg.online[u].nonce in s.tasks && s.tasks[s.reg.online[u].nonce].user == u
    ensures Stranded(s', u) <==> Stranded(s, u) || StrandsNow(s, step, u)
  {
  }

  /** A registration strands nobody, and rescues its user if it succeeds. */
  lemma RegisterStrands(s: State, v: string, n: Nonce, diskOk: bool, u: string)
    requires Enabled(s, Register(v, n, diskOk)) && s.users[v].name == v
    requires u in s.reg.online ==> s.reg.online[u].nonce in s.tasks
    ensures var s' := Next(s, Register(v, n, diskOk));
            Stranded(s', u) <==> Stranded(s, u) && !(u == v && At(s', n, Registered))
  {
    RegisterOnline(s, v, n, diskOk);
  }

  /** A registration of `u` that succeeds, or a restart. */
  ghost predicate Frees(s: State, step: Step, u: string)
    requires Enabled(s, step)
  {
    step.Restart? || (step.Register? && step.user == u && At(Next(s, step), step.nonce, Registered))
  }

  lemma RestartStrands(s: State, step: Step, u: string)
    requires Enabled(s, step) && step.Restart?
    ensures !Stranded(Next(s, step), u) && !StrandsNow(s, step, u)
  {
    assert Next(s, step).reg.online == map[];
  }

  /** A user becomes stranded exactly by an early return of its current session, and stays so until freed. */
  lemma StrandedNext(s: State, step: Step, u: string)
    requires Inv(s) && Enabled(s, step)
    ensures Stranded(Next(s, step), u) <==> StrandsNow(s, step, u) || (Stranded(s, u) && !Frees(s, step, u))
  {
    if step.Register? {
      RegisterStrands(s, step.user, step.nonce, step.diskOk, u);
    } else if !step.Restart? {
      StepMoves(s, step);
      MovesStrand(s, step, Next(s, step), u);
    } else {
      RestartStrands(s, step, u);
    }
  }

  // ---------- directory pushes ----------

  /** Pushes are a subsequence of publications; a channel that saw the current version pushed the current directory. */
  lemma PushedIsCurrent(users: map<string, UserConfig>, disk: seq<Alloc>, steps: seq<Step>, n: Nonce)
    requires Validated(users) && WellFormed(disk) && CanRun(Init(users, disk), steps)
    requires At(Run(Init(users, disk), steps), n, Live)
    ensures var s := Run(Init(users, disk), steps);
            var t := s.tasks[n];
            && Subsequence(t.sent, s.reg.log)
            && t.sent != []
            && (t.seen == |s.reg.log| - 1 ==> t.sent[|t.sent| - 1] == Registry.Directory(s.reg.allocs, s.reg.online))
            && (t.seen < |s.reg.log| - 1 ==> (Enabled(s, Push(n)) <==> 12 + TableSize(s.reg.allocs) <= Wire.MAX_FRAME))
  {
    InitInv(users, disk);
    RunInv(Init(users, disk), steps);
    var s := Run(Init(users, disk), steps);
    var t := s.tasks[n];
    assert PushesFaithful(s.reg.log, t);
    SubsequenceGrows(t.sent, s.reg.log[..t.seen + 1], s.reg.log[t.seen + 1..]);
    assert s.reg.log[..t.seen + 1] + s.reg.log[t.seen + 1..] == s.reg.log;
    PushEnabledIff(s, n);
  }

  lemma PushEnabledIff(s: State, n: Nonce)
    requires RegistryRuns.Consistent(s.reg) && At(s, n, Live)
    ensures Enabled(s, Push(n)) <==>
            s.tasks[n].seen < |s.reg.log| - 1 && 12 + TableSize(s.reg.allocs) <= Wire.MAX_FRAME
  {
    CurrentFitsIff(s.reg);
  }

  // ---------- runs that show the conditions are needed ----------

  ghost function OneUser(): map<string, UserConfig> {
    map["ann" := UserConfig("ann", 1, 1, [], [])]
  }

  lemma EmptyDirectory(reg: Registry.State)
    requires reg.allocs == [] && reg.log != [] && Registry.Current(reg) == Registry.Directory(reg.allocs, reg.online)
    ensures Registry.Current(reg) == []
  {
  }

  /** A user without ports always registers. */
  lemma NoPortsRegister(s: State, n: Nonce) returns (s': State)
    requires s.users == OneUser() && s.reg.log != [] && s.reg.allocs == [] && n !in s.tasks
    ensures Enabled(s, Register("ann", n, true)) && s' == Next(s, Register("ann", n, true))
    ensures s'.users == s.users && s'.reg.log != [] && s'.reg.allocs == [] && Registry.Current(s'.reg) == []
    ensures s'.tasks == s.tasks[n := s'.tasks[n]] && At(s', n, Registered) && s'.tasks[n].user == "ann"
    ensures Registry.IsCurrent(s'.reg, "ann", n) && s'.chans == s.chans
  {
    var cfg := s.users["ann"];
    assert Wanted(cfg) == [];
    s' := Next(s, Register("ann", n, true));
    RegisterOnline(s, "ann", n, true);
    EmptyDirectory(s'.reg);
  }

  lemma TwoRegistered() returns (s1: State, s2: State)
    ensures var s0 := Init(OneUser(), []);
            && Enabled(s0, Register("ann", 1, true)) && s1 == Next(s0, Register("ann", 1, true))
            && Enabled(s1, Register("ann", 2, true)) && s2 == Next(s1, Register("ann", 2, true))
    ensures At(s2, 1, Registered) && At(s2, 2, Registered) && s2.tasks[1].user == "ann" && s2.tasks[2].user == "ann"
    ensures s2.reg.log != [] && Registry.IsCurrent(s2.reg, "ann", 2) && s2.chans == {} && s2.tasks.Keys == {1, 2}
    ensures Registry.Current(s2.reg) == []
  {
    s1 := NoPortsRegister(Init(OneUser(), []), 1);
    s2 := NoPortsRegister(s1, 2);
  }

  /** Two handshakes of one user installing in the other order: the current session is live but its handle is gone. */
  lemma OvertakenRun()
    ensures var steps := [Register("ann", 1, true), Register("ann", 2, true), Install(2), Install(1)];
            && CanRun(Init(OneUser(), []), steps)
            && !Agree(Run(Init(OneUser(), []), steps))
  {
    var s1, s2 := TwoRegistered();
    OvertakenTail(s2);
    RunCons(s1, Register("ann", 2, true), [Install(2), Install(1)]);
    RunCons(Init(OneUser(), []), Register("ann", 1, true), [Register("ann", 2, true), Install(2), Install(1)]);
  }

  lemma OvertakenTail(s: State)
    requires s.reg.log != [] && At(s, 1, Registered) && At(s, 2, Registered)
    requires s.tasks[1].user == s.tasks[2].user == "ann" && Registry.IsCurrent(s.reg, "ann", 2) && s.chans == {}
    ensures CanRun(s, [Install(2), Install(1)]) && !Agree(Run(s, [Install(2), Install(1)]))
  {
    var a := Next(s, Install(2));
    var b := Next(a, Install(1));
    assert Installed(b, 2) && MultiMaps.Item("ann", 2, ()) !in b.chans;
    RunCons(a, Install(1), []);
    RunCons(s, Install(2), [Install(1)]);
  }

  lemma RunCons(s: State, step: Step, rest: seq<Step>)
    requires Enabled(s, step) && CanRun(Next(s, step), rest)
    ensures CanRun(s, [step] + rest) && Run(s, [step] + rest) == Run(Next(s, step), rest)
  {
    assert ([step] + rest)[1..] == rest;
  }

  /** A lost acknowledgement leaves the user online with no channel in the map. */
  lemma StrandedRun()
    ensures var steps := [Register("ann", 1, true), AckLost(1)];
            && CanRun(Init(OneUser(), []), steps)
            && Stranded(Run(Init(OneUser(), []), steps), "ann")
            && Run(Init(OneUser(), []), steps).chans == {}
  {
    var s0 := Init(OneUser(), []);
    var s1 := NoPortsRegister(s0, 1);
    var s2 := Next(s1, AckLost(1));
    RunCons(s1, AckLost(1), []);
    RunCons(s0, Register("ann", 1, true), [AckLost(1)]);
  }
}

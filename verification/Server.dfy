/**
 * The server's session protocol: control-channel handshakes and tasks interleaving over two locks, the
 * registry's and the channel map's.
 *
 * Each step is one critical section (or one early return) of `do_control_channel_handshake` or
 * `ControlChannel::run`; a run is any sequence of enabled steps.
 */
module Server {
  import opened Types
  import opened Allocator
  import Registry
  import RegistryRuns
  import MultiMaps
  import opened DirectorySize

  type Nonce = Registry.Nonce
  type Handle = MultiMaps.Item<string, Nonce, ()>

  datatype Phase =
    | Refused    // registration failed
    | Registered // session in the registry, no handle yet
    | Starting   // handle installed, first directory push pending
    | Live       // in the select loop
    | Removed    // handle removed on exit, session still in the registry
    | Done       // session removed too
    | Abandoned  // an early return skipped the clean-up
    | Gone       // belonged to a server process that was restarted

  /**
   * `order` counts registrations; `seen` is the watch version last pushed; `sent` the directories pushed;
   * `mappings` the registration's answer, on which the handle listens once it is installed.
   */
  datatype Task = Task(
    user: string, phase: Phase, order: nat, seen: nat, sent: seq<seq<Mapping>>, mappings: seq<Mapping>)

  datatype State = State(
    users: map<string, UserConfig>,
    reg: Registry.State,
    chans: set<Handle>,
    tasks: map<Nonce, Task>,
    clock: nat)

  datatype Step =
    | Register(user: string, nonce: Nonce, diskOk: bool)
    | AckLost(nonce: Nonce)       // writing RegisterAck fails
    | Install(nonce: Nonce)
    | InstallLost(nonce: Nonce)   // the bind address does not parse, after the old handle was dropped
    | FirstPush(nonce: Nonce)
    | FirstPushLost(nonce: Nonce) // the first directory push fails: too large a frame, or a broken connection
    | Push(nonce: Nonce)          // a later push that fails is a `Leave`
    | Report(nonce: Nonce, ports: seq<Port>)
    | Leave(nonce: Nonce)         // the select loop ends: remove2
    | Exit(nonce: Nonce)          // unregister
    | Restart(users: map<string, UserConfig>)

  ghost predicate At(s: State, n: Nonce, ph: Phase) {
    n in s.tasks && s.tasks[n].phase == ph
  }

  ghost predicate Enabled(s: State, step: Step) {
    s.reg.log != [] &&
    match step
    case Register(u, n, _) => u in s.users && n !in s.tasks // session keys are fresh
    case AckLost(n) => At(s, n, Registered)
    case Install(n) => At(s, n, Registered)
    case InstallLost(n) => At(s, n, Registered)
    case FirstPush(n) => At(s, n, Starting) && Fits(Registry.Current(s.reg))
    case FirstPushLost(n) => At(s, n, Starting)
    case Push(n) => At(s, n, Live) && s.tasks[n].seen < |s.reg.log| - 1 && Fits(Registry.Current(s.reg))
    case Report(n, _) => At(s, n, Live)
    case Leave(n) => At(s, n, Live)
    case Exit(n) => At(s, n, Removed)
    case Restart(users) => Validated(users)
  }

  ghost function Move(s: State, n: Nonce, ph: Phase): State
    requires n in s.tasks
  {
    s.(tasks := s.tasks[n := s.tasks[n].(phase := ph)])
  }

  ghost function Pushed(s: State, n: Nonce): State
    requires n in s.tasks && s.reg.log != []
  {
    var t := s.tasks[n];
    s.(tasks := s.tasks[n := t.(phase := Live, seen := |s.reg.log| - 1, sent := t.sent + [Registry.Current(s.reg)])])
  }

  ghost function Next(s: State, step: Step): State
    requires Enabled(s, step)
  {
    match step
    case Register(u, n, diskOk) =>
      var (reg, r) := Registry.DoRegister(s.reg, s.users[u], n, diskOk);
      var t := Task(u, if r.Registered? then Registered else Refused, s.clock, |reg.log| - 1, [],
                    if r.Registered? then r.mappings else []);
      s.(reg := reg, tasks := s.tasks[n := t], clock := s.clock + 1)
    case AckLost(n) => Move(s, n, Abandoned)
    case Install(n) =>
      var u := s.tasks[n].user;
      // the reply of `insert` is discarded
      Move(s, n, Starting).(chans := MultiMaps.Step(MultiMaps.Without1(s.chans, u), MultiMaps.Insert(u, n, ())).0)
    case InstallLost(n) => Move(s, n, Abandoned).(chans := MultiMaps.Without1(s.chans, s.tasks[n].user))
    case FirstPush(n) => Pushed(s, n)
    case FirstPushLost(n) => Move(s, n, Abandoned)
    case Push(n) => Pushed(s, n)
    case Report(n, ports) => s.(reg := Registry.DoSetDisabled(s.reg, s.tasks[n].user, n, ports))
    case Leave(n) => Move(s, n, Removed).(chans := MultiMaps.Without2(s.chans, n))
    case Exit(n) => Move(s, n, Done).(reg := Registry.DoUnregister(s.reg, s.tasks[n].user, n))
    case Restart(users) =>
      State(users, Registry.LoadState(s.reg.disk), {}, map n | n in s.tasks :: s.tasks[n].(phase := Gone), s.clock)
  }

  ghost function Init(users: map<string, UserConfig>, disk: seq<Alloc>): State {
    State(users, Registry.LoadState(disk), {}, map[], 0)
  }

  ghost predicate CanRun(s: State, steps: seq<Step>)
    decreases |steps|
  {
    steps != [] ==> Enabled(s, steps[0]) && CanRun(Next(s, steps[0]), steps[1..])
  }

  ghost function Run(s: State, steps: seq<Step>): State
    requires CanRun(s, steps)
    decreases |steps|
  {
    if steps == [] then s else Run(Next(s, steps[0]), steps[1..])
  }

  // ---------- the invariant ----------

  ghost predicate OnlineSettled(users: map<string, UserConfig>, reg: Registry.State)
    requires WellFormed(reg.allocs)
  {
    forall u :: u in reg.online ==>
      && u in users
      && forall k :: k in reg.online[u].ports ==> Settled(Ports(reg.allocs, u), users[u].lo, users[u].hi, k)
  }

  /** A session's keys are those its user's configuration asks for. */
  ghost predicate OnlineWanted(users: map<string, UserConfig>, reg: Registry.State) {
    forall u :: u in reg.online ==> u in users && forall k :: k in reg.online[u].ports <==> Wants(users[u], k)
  }

  ghost predicate Unfinished(t: Task) {
    t.phase in {Registered, Starting, Live, Removed, Abandoned}
  }

  /** The registry's sessions belong to tasks that have not unregistered, and are their users' latest. */
  ghost predicate SessionsOwned(s: State) {
    forall u :: u in s.reg.online ==>
      var n := s.reg.online[u].nonce;
      && n in s.tasks && s.tasks[n].user == u
      && Unfinished(s.tasks[n])
      && forall m :: m in s.tasks && s.tasks[m].user == u && s.tasks[m].phase !in {Refused, Gone} ==>
                       s.tasks[m].order <= s.tasks[n].order
  }

  ghost predicate ChannelsOwned(s: State) {
    && MultiMaps.DoublyKeyed(s.chans)
    && forall h :: h in s.chans ==>
         && h.k2 in s.tasks && s.tasks[h.k2].user == h.k1
         && s.tasks[h.k2].phase in {Starting, Live, Abandoned}
  }

  ghost predicate OrdersDistinct(s: State) {
    && (forall n :: n in s.tasks ==> s.tasks[n].order < s.clock)
    && (forall m, n :: m in s.tasks && n in s.tasks && s.tasks[m].order == s.tasks[n].order ==> m == n)
  }

  /** `a` is obtained from `b` by leaving elements out. */
  ghost predicate Subsequence<T(!new)>(a: seq<T>, b: seq<T>)
    decreases |b|
  {
    if a == [] then true
    else if b == [] then false
    else (a[|a| - 1] == b[|b| - 1] && Subsequence(a[..|a| - 1], b[..|b| - 1])) || Subsequence(a, b[..|b| - 1])
  }

  ghost predicate PushesFaithful(log: seq<seq<Mapping>>, t: Task) {
    && t.seen < |log|
    && t.sent != [] && t.sent[|t.sent| - 1] == log[t.seen]
    && Subsequence(t.sent, log[..t.seen + 1])
  }

  ghost predicate Watching(s: State) {
    forall n :: n in s.tasks ==>
      && (s.tasks[n].phase in {Live, Removed} ==> PushesFaithful(s.reg.log, s.tasks[n]))
      && (s.tasks[n].phase in {Registered, Starting} ==> s.tasks[n].sent == [])
  }

  ghost predicate Inv(s: State) {
    && RegistryRuns.Consistent(s.reg)
    && Validated(s.users)
    && OnlineSettled(s.users, s.reg)
    && OnlineWanted(s.users, s.reg)
    && SessionsOwned(s)
    && ChannelsOwned(s)
    && OrdersDistinct(s)
    && Watching(s)
  }

  lemma InitInv(users: map<string, UserConfig>, disk: seq<Alloc>)
    requires Validated(users) && WellFormed(disk)
    ensures Inv(Init(users, disk))
  {
    RegistryRuns.LoadConsistent(disk);
  }

  // ---------- what one step changes ----------

  /** The phase in which a step finds its task. */
  ghost function PhaseBefore(step: Step): Phase
    requires !step.Register? && !step.Restart?
  {
    match step
    case AckLost(_) => Registered
    case Install(_) => Registered
    case InstallLost(_) => Registered
    case FirstPush(_) => Starting
    case FirstPushLost(_) => Starting
    case Exit(_) => Removed
    case _ => Live
  }

  /** The phase in which it leaves it. */
  ghost function PhaseAfter(step: Step): Phase
    requires !step.Register? && !step.Restart?
  {
    match step
    case Install(_) => Starting
    case FirstPush(_) => Live
    case Push(_) => Live
    case Report(_, _) => Live
    case Leave(_) => Removed
    case Exit(_) => Done
    case _ => Abandoned
  }

  ghost predicate OneTask(s: State, step: Step, s': State)
    requires !step.Register? && !step.Restart?
  {
    var n := step.nonce;
    && At(s, n, PhaseBefore(step)) && At(s', n, PhaseAfter(step)) && s'.tasks.Keys == s.tasks.Keys
    && s'.tasks[n].user == s.tasks[n].user && s'.tasks[n].order == s.tasks[n].order
    && s'.tasks[n].mappings == s.tasks[n].mappings
    && (!step.FirstPush? && !step.Push? ==> s'.tasks[n] == s.tasks[n].(phase := PhaseAfter(step)))
    && (forall m :: m in s.tasks && m != n ==> s'.tasks[m] == s.tasks[m])
  }

  /** Only an exit ends a session, its own; only a report edits one, its own. */
  ghost predicate SessionsFollow(s: State, step: Step, s': State)
    requires !step.Register? && !step.Restart?
  {
    && (forall u :: u in s'.reg.online <==> u in s.reg.online && !(step.Exit? && s.reg.online[u].nonce == step.nonce))
    && (forall u :: u in s'.reg.online ==>
          s'.reg.online[u] == if step.Report? && s.reg.online[u].nonce == step.nonce
                              then s.reg.online[u].(disabled := step.ports) else s.reg.online[u])
  }

  /** Only a session's removal takes a handle out, its own; installing is stated by `InsertAlwaysSucceeds`. */
  ghost predicate HandlesFollow(s: State, step: Step, s': State)
    requires !step.Register? && !step.Restart?
  {
    step.Install? || step.InstallLost? ||
    forall h: Handle :: h in s'.chans <==> h in s.chans && !(step.Leave? && h.k2 == step.nonce)
  }

  /** Steps other than registration and restart move one task on. */
  ghost predicate Moves(s: State, step: Step, s': State) {
    && !step.Register? && !step.Restart?
    && OneTask(s, step, s') && SessionsFollow(s, step, s') && HandlesFollow(s, step, s')
    && s'.clock == s.clock && s'.users == s.users && s.reg.log <= s'.reg.log
  }

  lemma ExitMoves(s: State, n: Nonce)
    requires SessionsOwned(s) && Enabled(s, Exit(n))
    ensures Moves(s, Exit(n), Next(s, Exit(n)))
  {
  }

  lemma ReportMoves(s: State, n: Nonce, ports: seq<Port>)
    requires SessionsOwned(s) && Enabled(s, Report(n, ports))
    ensures Moves(s, Report(n, ports), Next(s, Report(n, ports)))
  {
  }

  lemma LeaveMoves(s: State, n: Nonce)
    requires Enabled(s, Leave(n))
    ensures Moves(s, Leave(n), Next(s, Leave(n)))
  {
  }

  /** The remaining steps leave the registry alone. */
  lemma TaskMoves(s: State, step: Step)
    requires Enabled(s, step) && !step.Register? && !step.Restart? && !step.Exit? && !step.Report? && !step.Leave?
    ensures Moves(s, step, Next(s, step))
  {
    var s' := Next(s, step);
    var n := step.nonce;
    assert s'.reg == s.reg && s'.tasks == s.tasks[n := s'.tasks[n]];
    assert step.Install? || step.InstallLost? || s'.chans == s.chans;
  }

  lemma StepMoves(s: State, step: Step)
    requires SessionsOwned(s) && Enabled(s, step) && !step.Register? && !step.Restart?
    ensures Moves(s, step, Next(s, step))
  {
    match step
    case Exit(n) => ExitMoves(s, n);
    case Report(n, ports) => ReportMoves(s, n, ports);
    case Leave(n) => LeaveMoves(s, n);
    case _ => TaskMoves(s, step);
  }

  // ---------- each step keeps the invariant ----------

  /** What a step does to the registry, as registry operations. */
  ghost function RegistryOps(s: State, step: Step): seq<RegistryRuns.Op>
    requires Enabled(s, step)
  {
    match step
    case Register(u, n, diskOk) => [RegistryRuns.Register(s.users[u], n, diskOk)]
    case Report(n, ports) => [RegistryRuns.SetDisabled(s.tasks[n].user, n, ports)]
    case Exit(n) => [RegistryRuns.Unregister(s.tasks[n].user, n)]
    case Restart(users) => [RegistryRuns.Reload]
    case _ => []
  }

  lemma StepIsRegistryRun(s: State, step: Step)
    requires Enabled(s, step)
    ensures Next(s, step).reg == RegistryRuns.Run(s.reg, RegistryOps(s, step))
  {
    var ops := RegistryOps(s, step);
    if ops != [] {
      assert RegistryRuns.Run(s.reg, ops) == RegistryRuns.Run(RegistryRuns.Apply(s.reg, ops[0]), ops[1..]);
    }
  }

  lemma RegisterSettles(users: map<string, UserConfig>, reg: Registry.State, u: string, n: Nonce, diskOk: bool)
    requires RegistryRuns.Consistent(reg) && Validated(users) && u in users && OnlineSettled(users, reg)
    ensures var reg' := Registry.DoRegister(reg, users[u], n, diskOk).0;
            RegistryRuns.Consistent(reg') && OnlineSettled(users, reg')
  {
    var cfg := users[u];
    var (reg', r) := Registry.DoRegister(reg, cfg, n, diskOk);
    RegistryRuns.ApplyConsistent(reg, RegistryRuns.Register(cfg, n, diskOk));
    Registry.RegisterEffect(reg, cfg, n, diskOk);
    if r.Registered? {
      forall v, k | v in reg'.online && k in reg'.online[v].ports
        ensures v in users && Settled(Ports(reg'.allocs, v), users[v].lo, users[v].hi, k)
      {
        if v != u {
          assert v in reg.online && reg'.online[v] == reg.online[v];
        }
      }
    }
  }

  lemma SameTableSettled(users: map<string, UserConfig>, reg: Registry.State, reg': Registry.State)
    requires WellFormed(reg.allocs) && OnlineSettled(users, reg) && reg'.allocs == reg.allocs
    requires forall u :: u in reg'.online ==> u in reg.online && reg'.online[u].ports == reg.online[u].ports
    ensures OnlineSettled(users, reg')
  {
  }

  lemma ReportSettles(users: map<string, UserConfig>, reg: Registry.State, u: string, n: Nonce, ports: seq<Port>)
    requires RegistryRuns.Consistent(reg) && OnlineSettled(users, reg)
    ensures var reg' := Registry.DoSetDisabled(reg, u, n, ports);
            RegistryRuns.Consistent(reg') && OnlineSettled(users, reg')
  {
    RegistryRuns.ApplyConsistent(reg, RegistryRuns.SetDisabled(u, n, ports));
    SameTableSettled(users, reg, Registry.DoSetDisabled(reg, u, n, ports));
  }

  lemma ExitSettles(users: map<string, UserConfig>, reg: Registry.State, u: string, n: Nonce)
    requires RegistryRuns.Consistent(reg) && OnlineSettled(users, reg)
    ensures var reg' := Registry.DoUnregister(reg, u, n); RegistryRuns.Consistent(reg') && OnlineSettled(users, reg')
  {
    RegistryRuns.ApplyConsistent(reg, RegistryRuns.Unregister(u, n));
    SameTableSettled(users, reg, Registry.DoUnregister(reg, u, n));
  }

  lemma ReloadSettles(users: map<string, UserConfig>, reg: Registry.State)
    requires RegistryRuns.Consistent(reg)
    ensures var reg' := Registry.LoadState(reg.disk); RegistryRuns.Consistent(reg') && OnlineSettled(users, reg')
  {
    RegistryRuns.LoadConsistent(reg.disk);
  }

  lemma NextKeepsRegistry(s: State, step: Step)
    requires RegistryRuns.Consistent(s.reg) && Validated(s.users) && OnlineSettled(s.users, s.reg) && Enabled(s, step)
    ensures var s' := Next(s, step);
            RegistryRuns.Consistent(s'.reg) && Validated(s'.users) && OnlineSettled(s'.users, s'.reg)
  {
    if step.Register? {
      RegisterSettles(s.users, s.reg, step.user, step.nonce, step.diskOk);
    } else if step.Report? {
      ReportSettles(s.users, s.reg, s.tasks[step.nonce].user, step.nonce, step.ports);
    } else if step.Exit? {
      ExitSettles(s.users, s.reg, s.tasks[step.nonce].user, step.nonce);
    } else if step.Restart? {
      ReloadSettles(step.users, s.reg);
    }
  }

  /** A registration either installs its session as the user's current one or changes nothing. */
  lemma RegisterOnline(s: State, u: string, n: Nonce, diskOk: bool)
    requires Enabled(s, Register(u, n, diskOk)) && s.users[u].name == u
    ensures var s' := Next(s, Register(u, n, diskOk));
            && s.reg.log <= s'.reg.log
            && s'.tasks == s.tasks[n := s'.tasks[n]]
            && s'.tasks[n].user == u && s'.tasks[n].order == s.clock && s'.tasks[n].sent == []
            && s'.clock == s.clock + 1 && s'.chans == s.chans && s'.users == s.users
            && if At(s', n, Refused) then s'.reg == s.reg
               else
                 && At(s', n, Registered)
                 && s'.reg.online == s.reg.online[u := Registry.Session(n, Wanted(s.users[u]), [])]
  {
  }

  lemma RegisterKeepsSessions(s: State, u: string, n: Nonce, diskOk: bool)
    requires SessionsOwned(s) && OrdersDistinct(s) && Enabled(s, Register(u, n, diskOk)) && s.users[u].name == u
    ensures SessionsOwned(Next(s, Register(u, n, diskOk))) && OrdersDistinct(Next(s, Register(u, n, diskOk)))
  {
    RegisterOnline(s, u, n, diskOk);
    var s' := Next(s, Register(u, n, diskOk));
    forall v | v in s'.reg.online && (v != u || At(s', n, Refused))
      ensures v in s.reg.online && s'.reg.online[v] == s.reg.online[v]
    {
    }
  }

  /** Steps other than registration only move tasks on and end or edit sessions. */
  ghost predicate Winds(s: State, s': State) {
    && s'.clock == s.clock && s'.tasks.Keys == s.tasks.Keys
    && (forall n :: n in s.tasks ==> s'.tasks[n].user == s.tasks[n].user && s'.tasks[n].order == s.tasks[n].order)
    && (forall n :: n in s.tasks && s.tasks[n].phase in {Refused, Gone} ==> s'.tasks[n].phase in {Refused, Gone})
    && (forall u :: u in s'.reg.online ==>
          && u in s.reg.online && s'.reg.online[u].nonce == s.reg.online[u].nonce
          && (s.reg.online[u].nonce in s'.tasks ==> Unfinished(s'.tasks[s.reg.online[u].nonce])))
  }

  lemma WindsKeepsSessions(s: State, s': State)
    requires SessionsOwned(s) && OrdersDistinct(s) && Winds(s, s')
    ensures SessionsOwned(s') && OrdersDistinct(s')
  {
  }

  lemma NextWinds(s: State, step: Step)
    requires SessionsOwned(s) && Enabled(s, step) && !step.Register?
    ensures Winds(s, Next(s, step))
  {
    if !step.Restart? {
      StepMoves(s, step);
      MovesWinds(s, step, Next(s, step));
    }
  }

  lemma MovesWinds(s: State, step: Step, s': State)
    requires SessionsOwned(s) && Moves(s, step, s')
    ensures Winds(s, s')
  {
    forall u | u in s'.reg.online
      ensures u in s.reg.online && s'.reg.online[u].nonce == s.reg.online[u].nonce
      ensures Unfinished(s'.tasks[s.reg.online[u].nonce])
    {
      assert s.reg.online[u].nonce in s.tasks;
    }
  }

  lemma NextKeepsSessions(s: State, step: Step)
    requires Inv(s) && Enabled(s, step)
    ensures SessionsOwned(Next(s, step)) && OrdersDistinct(Next(s, step))
  {
    if step.Register? {
      RegisterKeepsSessions(s, step.user, step.nonce, step.diskOk);
    } else {
      NextWinds(s, step);
      WindsKeepsSessions(s, Next(s, step));
    }
  }

  lemma MovesKeepsChannels(s: State, step: Step, s': State)
    requires ChannelsOwned(s) && Moves(s, step, s') && !step.Install? && !step.InstallLost?
    ensures ChannelsOwned(s')
  {
  }

  lemma InstallKeepsChannels(s: State, step: Step)
    requires ChannelsOwned(s) && Enabled(s, step) && (step.Install? || step.InstallLost?)
    ensures ChannelsOwned(Next(s, step))
  {
  }

  lemma NextKeepsChannels(s: State, step: Step)
    requires Inv(s) && Enabled(s, step)
    ensures ChannelsOwned(Next(s, step))
  {
    if step.Register? {
      RegisterOnline(s, step.user, step.nonce, step.diskOk);
    } else if step.Install? || step.InstallLost? {
      InstallKeepsChannels(s, step);
    } else if !step.Restart? {
      StepMoves(s, step);
      MovesKeepsChannels(s, step, Next(s, step));
    }
  }

  lemma {:induction false} SubsequenceGrows<T(!new)>(a: seq<T>, b: seq<T>, c: seq<T>)
    requires Subsequence(a, b)
    ensures Subsequence(a, b + c)
    decreases |c|
  {
    if c == [] {
      assert b + c == b;
    } else {
      var c' := c[..|c| - 1];
      SubsequenceGrows(a, b, c');
      assert (b + c)[..|b + c| - 1] == b + c';
    }
  }

  lemma SubsequenceSnoc<T(!new)>(a: seq<T>, b: seq<T>, x: T)
    requires Subsequence(a, b)
    ensures Subsequence(a + [x], b + [x])
  {
    assert (a + [x])[..|a|] == a && (b + [x])[..|b|] == b;
  }

  lemma LongerLogFaithful(log: seq<seq<Mapping>>, log': seq<seq<Mapping>>, t: Task)
    requires log <= log' && PushesFaithful(log, t)
    ensures PushesFaithful(log', t)
  {
    assert log'[..t.seen + 1] == log[..t.seen + 1];
  }

  /** A longer log and a change of one task. */
  lemma TaskKeepsWatching(s: State, s': State, n: Nonce)
    requires Watching(s) && s.reg.log <= s'.reg.log && s'.tasks.Keys == s.tasks.Keys + {n}
    requires forall m :: m in s'.tasks && m != n ==> s'.tasks[m] == s.tasks[m]
    requires s'.tasks[n].phase in {Live, Removed} ==> PushesFaithful(s'.reg.log, s'.tasks[n])
    requires s'.tasks[n].phase in {Registered, Starting} ==> s'.tasks[n].sent == []
    ensures Watching(s')
  {
    forall m | m in s'.tasks && m != n && s'.tasks[m].phase in {Live, Removed}
      ensures PushesFaithful(s'.reg.log, s'.tasks[m])
    {
      LongerLogFaithful(s.reg.log, s'.reg.log, s.tasks[m]);
    }
  }

  lemma RegisterKeepsWatching(s: State, u: string, n: Nonce, diskOk: bool)
    requires Watching(s) && Enabled(s, Register(u, n, diskOk)) && s.users[u].name == u
    ensures Watching(Next(s, Register(u, n, diskOk)))
  {
    RegisterOnline(s, u, n, diskOk);
    TaskKeepsWatching(s, Next(s, Register(u, n, diskOk)), n);
  }

  lemma MovesKeepsWatching(s: State, step: Step, s': State)
    requires Watching(s) && Moves(s, step, s')
    requires s'.tasks[step.nonce].phase in {Live, Removed} ==> PushesFaithful(s'.reg.log, s'.tasks[step.nonce])
    requires s'.tasks[step.nonce].phase in {Registered, Starting} ==> s'.tasks[step.nonce].sent == []
    ensures Watching(s')
  {
    TaskKeepsWatching(s, s', step.nonce);
  }

  lemma NextKeepsWatching(s: State, step: Step)
    requires Inv(s) && Enabled(s, step)
    ensures Watching(Next(s, step))
  {
    if step.Register? {
      RegisterKeepsWatching(s, step.user, step.nonce, step.diskOk);
    } else if !step.Restart? {
      StepMoves(s, step);
      TaskStaysFaithful(s, step);
      MovesKeepsWatching(s, step, Next(s, step));
    }
  }

  lemma TaskStaysFaithful(s: State, step: Step)
    requires Watching(s) && Enabled(s, step) && Moves(s, step, Next(s, step))
    ensures var s', n := Next(s, step), step.nonce;
            && (s'.tasks[n].phase in {Live, Removed} ==> PushesFaithful(s'.reg.log, s'.tasks[n]))
            && (s'.tasks[n].phase in {Registered, Starting} ==> s'.tasks[n].sent == [])
  {
    if step.FirstPush? || step.Push? {
      PushStaysFaithful(s, step.nonce);
    } else if s.tasks[step.nonce].phase == Live {
      LongerLogFaithful(s.reg.log, Next(s, step).reg.log, s.tasks[step.nonce]);
    }
  }

  lemma SentBefore(log: seq<seq<Mapping>>, t: Task, v: nat)
    requires v <= |log| && (t.sent == [] || (PushesFaithful(log, t) && t.seen < v))
    ensures Subsequence(t.sent, log[..v])
  {
    if t.sent != [] {
      SubsequenceOfLonger(t.sent, log, t.seen + 1, v);
    }
  }

  /** Pushing the last directory of the log keeps a faithful list of pushes faithful. */
  lemma PushLast(log: seq<seq<Mapping>>, t: Task, t': Task)
    requires log != [] && t'.seen == |log| - 1 && t'.sent == t.sent + [log[|log| - 1]]
    requires t.sent == [] || (PushesFaithful(log, t) && t.seen < |log| - 1)
    ensures PushesFaithful(log, t')
  {
    var v := |log| - 1;
    SentBefore(log, t, v);
    PushOnto(log, t.sent, v);
  }

  lemma PushOnto(log: seq<seq<Mapping>>, sent: seq<seq<Mapping>>, v: nat)
    requires v < |log| && Subsequence(sent, log[..v])
    ensures Subsequence(sent + [log[v]], log[..v + 1])
  {
    TakeOneMore(log, v);
    SubsequenceSnoc(sent, log[..v], log[v]);
  }

  lemma TakeOneMore<T>(s: seq<T>, n: nat)
    requires n < |s|
    ensures s[..n + 1] == s[..n] + [s[n]]
  {
  }

  lemma SubsequenceOfLonger<T(!new)>(a: seq<T>, b: seq<T>, i: nat, j: nat)
    requires i <= j <= |b| && Subsequence(a, b[..i])
    ensures Subsequence(a, b[..j])
  {
    SubsequenceGrows(a, b[..i], b[i..j]);
    assert b[..i] + b[i..j] == b[..j];
  }

  lemma PushStaysFaithful(s: State, n: Nonce)
    requires s.reg.log != [] && n in s.tasks
    requires s.tasks[n].sent == [] || (PushesFaithful(s.reg.log, s.tasks[n]) && s.tasks[n].seen < |s.reg.log| - 1)
    ensures PushesFaithful(s.reg.log, Pushed(s, n).tasks[n])
  {
    PushLast(s.reg.log, s.tasks[n], Pushed(s, n).tasks[n]);
  }

  lemma MovesKeepsWanted(s: State, step: Step, s': State)
    requires OnlineWanted(s.users, s.reg) && Moves(s, step, s')
    ensures OnlineWanted(s'.users, s'.reg)
  {
  }

  lemma RegisterKeepsWanted(s: State, u: string, n: Nonce, diskOk: bool)
    requires OnlineWanted(s.users, s.reg) && Enabled(s, Register(u, n, diskOk)) && s.users[u].name == u
    ensures OnlineWanted(Next(s, Register(u, n, diskOk)).users, Next(s, Register(u, n, diskOk)).reg)
  {
    RegisterOnline(s, u, n, diskOk);
    WantedOrder(s.users[u]);
  }

  lemma NextKeepsWanted(s: State, step: Step)
    requires Inv(s) && Enabled(s, step)
    ensures OnlineWanted(Next(s, step).users, Next(s, step).reg)
  {
    if step.Register? {
      RegisterKeepsWanted(s, step.user, step.nonce, step.diskOk);
    } else if !step.Restart? {
      StepMoves(s, step);
      MovesKeepsWanted(s, step, Next(s, step));
    }
  }

  lemma NextInv(s: State, step: Step)
    requires Inv(s) && Enabled(s, step)
    ensures Inv(Next(s, step))
  {
    NextKeepsRegistry(s, step);
    NextKeepsWanted(s, step);
    NextKeepsSessions(s, step);
    NextKeepsChannels(s, step);
    NextKeepsWatching(s, step);
  }

  lemma {:induction false} RunInv(s: State, steps: seq<Step>)
    requires Inv(s) && CanRun(s, steps)
    ensures Inv(Run(s, steps))
    decreases |steps|
  {
    if steps != [] {
      NextInv(s, steps[0]);
      RunInv(Next(s, steps[0]), steps[1..]);
    }
  }
}

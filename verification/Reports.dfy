/**
 * One session's report and directory loop: the client's diff-only reports over a FIFO, the server's
 * registry and watch, and the directory frames back, next to anything other sessions do to the registry.
 */
module Reports {
  import opened Types
  import opened Allocator
  import Registry
  import RegistryRuns
  import opened Client
  import opened DirectorySize

  type Nonce = Registry.Nonce

  /**
   * `toServer` and `toClient` are the frames in flight, `consumed` the last report the server took (the
   * empty list before the first), `pushed` the watch version last pushed (-1 before the first push).
   */
  datatype Link = Link(
    nonce: Nonce,
    st: ClientState,
    reported: seq<Port>,
    toServer: seq<seq<Port>>,
    consumed: seq<Port>,
    reg: Registry.State,
    pushed: int,
    toClient: seq<seq<Mapping>>)

  datatype Step =
    | HandleDirectory(up: set<Port>) // a directory frame; `up` is what accepts connections now
    | ProbeTick(up: set<Port>)
    | DisabledChanged(ports: seq<Port>)
    | ConsumeReport
    | PushDirectory
    | Other(op: RegistryRuns.Op)     // another session's registry operation

  ghost predicate ByOther(op: RegistryRuns.Op, n: Nonce) {
    !op.Reload? && op.nonce != n
  }

  ghost predicate Enabled(l: Link, step: Step) {
    match step
    case HandleDirectory(_) => l.toClient != []
    case ProbeTick(_) => true
    case DisabledChanged(ports) => StrictlyIncreasing(ports)
    case ConsumeReport => l.toServer != []
    case PushDirectory => l.reg.log != [] && l.pushed < |l.reg.log| - 1 && Fits(Registry.Current(l.reg))
    case Other(op) => ByOther(op, l.nonce)
  }

  /** `report_unavailable`: send only when the list differs from the one last sent. */
  function SendReport(l: Link): Link {
    var want := Unavailable(l.st);
    if want != l.reported then l.(toServer := l.toServer + [want], reported := want) else l
  }

  ghost function Next(l: Link, step: Step): Link
    requires Enabled(l, step)
  {
    match step
    case HandleDirectory(up) =>
      var dir := l.toClient[0];
      var st := l.st.(directory := dir, listening := Probe(dir, l.st.user, up, []));
      SendReport(l.(toClient := l.toClient[1..], st := st))
    case ProbeTick(up) =>
      var listening := Probe(l.st.directory, l.st.user, up, []);
      if listening != l.st.listening then SendReport(l.(st := l.st.(listening := listening))) else l
    case DisabledChanged(ports) => SendReport(l.(st := l.st.(disabled := ports)))
    case ConsumeReport =>
      l.(toServer := l.toServer[1..], consumed := l.toServer[0],
         reg := Registry.DoSetDisabled(l.reg, l.st.user, l.nonce, l.toServer[0]))
    case PushDirectory => l.(toClient := l.toClient + [Registry.Current(l.reg)], pushed := |l.reg.log| - 1)
    case Other(op) => l.(reg := RegistryRuns.Apply(l.reg, op))
  }

  /** A session right after its registration: both sides start from the empty list, then the client reports once. */
  ghost function Start(reg: Registry.State, user: string, n: Nonce, disabled: seq<Port>): Link {
    SendReport(Link(n, ClientState(user, [], [], disabled), [], [], [], reg, -1, []))
  }

  ghost predicate CanRun(l: Link, steps: seq<Step>)
    decreases |steps|
  {
    steps != [] ==> Enabled(l, steps[0]) && CanRun(Next(l, steps[0]), steps[1..])
  }

  ghost function Run(l: Link, steps: seq<Step>): Link
    requires CanRun(l, steps)
    decreases |steps|
  {
    if steps == [] then l else Run(Next(l, steps[0]), steps[1..])
  }

  // ---------- convergence of the reports ----------

  function Last<T>(s: seq<T>, d: T): T {
    if s == [] then d else s[|s| - 1]
  }

  /** The invariant, but for the last report being up to date, which `SendReport` restores. */
  ghost predicate Paired(l: Link) {
    && RegistryRuns.Consistent(l.reg)
    && StrictlyIncreasing(l.st.disabled)
    && Last(l.toServer, l.consumed) == l.reported
    && (Registry.IsCurrent(l.reg, l.st.user, l.nonce) ==> l.reg.online[l.st.user].disabled == l.consumed)
    && -1 <= l.pushed < |l.reg.log|
    && (l.pushed >= 0 ==> Last(l.toClient, l.st.directory) == l.reg.log[l.pushed])
  }

  ghost predicate Inv(l: Link) {
    Paired(l) && l.reported == Unavailable(l.st)
  }

  lemma StartInv(reg: Registry.State, cfg: UserConfig, n: Nonce, diskOk: bool, disabled: seq<Port>)
    requires RegistryRuns.Consistent(reg) && Registry.DoRegister(reg, cfg, n, diskOk).1.Registered?
    requires StrictlyIncreasing(disabled)
    ensures Inv(Start(Registry.DoRegister(reg, cfg, n, diskOk).0, cfg.name, n, disabled))
    ensures Registry.IsCurrent(Registry.DoRegister(reg, cfg, n, diskOk).0, cfg.name, n)
  {
    RegistryRuns.ApplyConsistent(reg, RegistryRuns.Register(cfg, n, diskOk));
  }

  /** Another session's operation cannot touch this session's list, nor bring a replaced session back. */
  lemma OtherKeepsSession(reg: Registry.State, op: RegistryRuns.Op, user: string, n: Nonce)
    requires ByOther(op, n)
    ensures var reg' := RegistryRuns.Apply(reg, op);
            && reg.log <= reg'.log
            && (Registry.IsCurrent(reg', user, n) ==>
                  Registry.IsCurrent(reg, user, n) && reg'.online[user] == reg.online[user])
  {
  }

  lemma ConsumeInv(l: Link)
    requires Inv(l) && l.toServer != []
    ensures Inv(Next(l, ConsumeReport))
    ensures Registry.IsCurrent(Next(l, ConsumeReport).reg, l.st.user, l.nonce) <==>
            Registry.IsCurrent(l.reg, l.st.user, l.nonce)
  {
    RegistryRuns.ApplyConsistent(l.reg, RegistryRuns.SetDisabled(l.st.user, l.nonce, l.toServer[0]));
  }

  lemma OtherInv(l: Link, op: RegistryRuns.Op)
    requires Inv(l) && ByOther(op, l.nonce)
    ensures Inv(Next(l, Other(op)))
    ensures Registry.IsCurrent(Next(l, Other(op)).reg, l.st.user, l.nonce) ==>
              Registry.IsCurrent(l.reg, l.st.user, l.nonce)
  {
    RegistryRuns.ApplyConsistent(l.reg, op);
    OtherKeepsSession(l.reg, op, l.st.user, l.nonce);
  }

  lemma SendInv(l: Link)
    requires Paired(l)
    ensures Inv(SendReport(l)) && SendReport(l).reg == l.reg
  {
  }

  /** The client's own steps and the push leave the registry alone. */
  lemma LocalInv(l: Link, step: Step)
    requires Inv(l) && Enabled(l, step) && !step.ConsumeReport? && !step.Other?
    ensures Inv(Next(l, step)) && Next(l, step).reg == l.reg
  {
    match step
    case HandleDirectory(up) =>
      var dir := l.toClient[0];
      var st := l.st.(directory := dir, listening := Probe(dir, l.st.user, up, []));
      SendInv(l.(toClient := l.toClient[1..], st := st));
    case ProbeTick(up) => SendInv(l.(st := l.st.(listening := Probe(l.st.directory, l.st.user, up, []))));
    case DisabledChanged(ports) => SendInv(l.(st := l.st.(disabled := ports)));
    case PushDirectory =>
  }

  lemma NextInv(l: Link, step: Step)
    requires Inv(l) && Enabled(l, step)
    ensures Inv(Next(l, step))
    ensures Registry.IsCurrent(Next(l, step).reg, l.st.user, l.nonce) ==> Registry.IsCurrent(l.reg, l.st.user, l.nonce)
    ensures Next(l, step).st.user == l.st.user && Next(l, step).nonce == l.nonce
  {
    match step
    case ConsumeReport => ConsumeInv(l);
    case Other(op) => OtherInv(l, op);
    case _ => LocalInv(l, step);
  }

  /**
   * Report convergence, in every state of every run: the client's `reported` is what its state calls for;
   * while the session is current the server's list is the last report consumed; and with no report in
   * flight the two are equal.
   */
  lemma {:induction false} ReportsConverge(l: Link, steps: seq<Step>)
    requires Inv(l) && CanRun(l, steps)
    ensures var e := Run(l, steps);
            && Inv(e) && e.st.user == l.st.user && e.nonce == l.nonce
            && e.reported == Unavailable(e.st)
            && (Registry.IsCurrent(e.reg, l.st.user, l.nonce) ==>
                  && Registry.IsCurrent(l.reg, l.st.user, l.nonce)
                  && e.reg.online[l.st.user].disabled == e.consumed
                  && (e.toServer == [] ==> e.consumed == Unavailable(e.st)))
    decreases |steps|
  {
    if steps != [] {
      NextInv(l, steps[0]);
      ReportsConverge(Next(l, steps[0]), steps[1..]);
    }
  }

  // ---------- what the client has been told to keep off ----------

  /** The list of the last toggle of a run, or `start` if there was none. */
  ghost function LastToggle(steps: seq<Step>, start: seq<Port>): seq<Port> {
    if steps == [] then start
    else LastToggle(steps[1..], if steps[0].DisabledChanged? then steps[0].ports else start)
  }

  /** Over any run the client keeps off exactly what the last toggle said; no other step changes that. */
  lemma {:induction false} DisabledIsLastToggle(l: Link, steps: seq<Step>)
    requires CanRun(l, steps)
    ensures Run(l, steps).st.disabled == LastToggle(steps, l.st.disabled) && Run(l, steps).st.user == l.st.user
    decreases |steps|
  {
    if steps != [] {
      DisabledIsLastToggle(Next(l, steps[0]), steps[1..]);
    }
  }

  // ---------- no feedback ----------

  lemma SameTableSameOwnPorts(t: seq<Alloc>, o1: map<string, Registry.Session>, o2: map<string, Registry.Session>,
                              me: string, p: Port)
    ensures ExposesTcp(Registry.Directory(t, o1), me, p) <==> ExposesTcp(Registry.Directory(t, o2), me, p)
  {
    OwnPortsOfTable(t, o1, me, p);
    OwnPortsOfTable(t, o2, me, p);
  }

  lemma OwnPortsOfTable(t: seq<Alloc>, online: map<string, Registry.Session>, me: string, p: Port)
    ensures ExposesTcp(Registry.Directory(t, online), me, p) <==> exists r: Port :: Alloc(me, Key(Tcp, p), r) in t
  {
    var dir := Registry.Directory(t, online);
    Registry.DirectoryRows(t, online);
    if ExposesTcp(dir, me, p) {
      var m :| m in dir && m.user == me && m.key == Key(Tcp, p);
      assert Alloc(me, Key(Tcp, p), m.remote) in t;
    }
    if r: Port :| Alloc(me, Key(Tcp, p), r) in t {
      var m := Mapping(me, Key(Tcp, p), r, Registry.IsOnline(online, me, Key(Tcp, p)));
      assert m in dir && m.key == Key(Tcp, p);
    }
  }

  /** A report, whoever's, changes neither the table nor what any client would report on seeing the new directory. */
  lemma ReportDoesNotFeedBack(reg: Registry.State, v: string, n: Nonce, ports: seq<Port>,
                              user: string, disabled: seq<Port>, up: set<Port>)
    requires RegistryRuns.Consistent(reg) && StrictlyIncreasing(disabled)
    ensures var reg' := Registry.DoSetDisabled(reg, v, n, ports);
            && reg'.allocs == reg.allocs && reg'.disk == reg.disk && reg'.log != []
            && Want(user, disabled, Registry.Current(reg'), up) == Want(user, disabled, Registry.Current(reg), up)
  {
    var reg' := Registry.DoSetDisabled(reg, v, n, ports);
    RegistryRuns.ApplyConsistent(reg, RegistryRuns.SetDisabled(v, n, ports));
    forall p: Port
      ensures ExposesTcp(Registry.Current(reg'), user, p) <==> ExposesTcp(Registry.Current(reg), user, p)
    {
      SameTableSameOwnPorts(reg.allocs, reg'.online, reg.online, user, p);
    }
    WantIgnoresOnline(user, disabled, Registry.Current(reg'), Registry.Current(reg), up);
  }

  /** A directory that lists the same own TCP ports, with the same ones accepting, sends no report. */
  lemma EchoIsSilent(l: Link, up: set<Port>)
    requires Inv(l) && Enabled(l, HandleDirectory(up))
    requires forall p :: ExposesTcp(l.toClient[0], l.st.user, p) <==> ExposesTcp(l.st.directory, l.st.user, p)
    requires forall p :: ExposesTcp(l.st.directory, l.st.user, p) ==> (p in l.st.listening <==> p in up)
    ensures Next(l, HandleDirectory(up)).toServer == l.toServer && Next(l, HandleDirectory(up)).reported == l.reported
  {
    ProbeExact(l.toClient[0], l.st.user, up, []);
    UnavailableCanonical(l.st, Next(l, HandleDirectory(up)).st);
  }

  // ---------- the exchange comes to rest ----------

  /** Steps the two ends take by themselves while the set `up` of accepting ports stays the same. */
  ghost predicate Internal(step: Step, up: set<Port>) {
    step == HandleDirectory(up) || step == ConsumeReport || step == PushDirectory || step == ProbeTick(up)
  }

  /** The stored probe result is not what probing now would give. */
  ghost predicate Stale(l: Link, up: set<Port>) {
    Probe(l.st.directory, l.st.user, up, []) != l.st.listening
  }

  /** A tick that finds what is stored changes nothing; every other internal step does something. */
  ghost predicate Busy(l: Link, step: Step, up: set<Port>) {
    Internal(step, up) && Enabled(l, step) && (step == ProbeTick(up) ==> Stale(l, up))
  }

  ghost function Changes(x: seq<Port>, ds: seq<seq<Port>>): nat
    decreases |ds|
  {
    if ds == [] then 0 else (if ds[0] == x then 0 else 1) + Changes(ds[0], ds[1..])
  }

  /** What the client would report on its stored directory and on each one in flight. */
  ghost function Wants(l: Link, up: set<Port>): seq<seq<Port>> {
    [Want(l.st.user, l.st.disabled, l.st.directory, up)]
    + seq(|l.toClient|, i requires 0 <= i < |l.toClient| => Want(l.st.user, l.st.disabled, l.toClient[i], up))
  }

  /** What it would report on the directory of now. */
  ghost function WantNow(l: Link, up: set<Port>): seq<Port>
    requires l.reg.log != []
  {
    Want(l.st.user, l.st.disabled, Registry.Current(l.reg), up)
  }

  /** Reports that the server has still to consume: sent, or to be sent on directories still to be handled. */
  ghost function Due(l: Link, up: set<Port>): nat
    requires l.reg.log != []
  {
    Changes(l.reported, Wants(l, up) + [WantNow(l, up)]) + |l.toServer|
  }

  /** The push still owed, directories in flight and the probe still to be refreshed. */
  ghost function Loose(l: Link, up: set<Port>): nat {
    (if l.pushed < |l.reg.log| - 1 then 2 else 0) + |l.toClient| + (if Stale(l, up) then 1 else 0)
  }

  ghost function Unrest(l: Link, up: set<Port>): nat
    requires l.reg.log != []
  {
    3 * Due(l, up) + Loose(l, up)
  }

  lemma {:induction false} ChangesRepeatLast(x: seq<Port>, ds: seq<seq<Port>>, w: seq<Port>)
    ensures Changes(x, ds + [w] + [w]) == Changes(x, ds + [w])
    decreases |ds|
  {
    if ds == [] {
      assert ds + [w] + [w] == [w, w] && ds + [w] == [w] && [w, w][1..] == [w] && [w][1..] == [];
    } else {
      assert (ds + [w] + [w])[1..] == ds[1..] + [w] + [w] && (ds + [w])[1..] == ds[1..] + [w];
      ChangesRepeatLast(ds[0], ds[1..], w);
    }
  }

  lemma DirectoryDecreases(l: Link, up: set<Port>)
    requires Inv(l) && l.toClient != []
    ensures var l' := Next(l, HandleDirectory(up)); Due(l', up) <= Due(l, up) && Loose(l', up) < Loose(l, up)
  {
    var l' := Next(l, HandleDirectory(up));
    var ds, ds' := Wants(l, up) + [WantNow(l, up)], Wants(l', up) + [WantNow(l', up)];
    DirectoryHandled(l, up);
    assert ds[1..] == ds' && ds'[0] == l'.reported;
    SkipFirst(l.reported, ds);
  }

  /** What handling a directory leaves: its probe result and report. */
  lemma DirectoryHandled(l: Link, up: set<Port>)
    requires l.toClient != []
    ensures var l', want := Next(l, HandleDirectory(up)), Want(l.st.user, l.st.disabled, l.toClient[0], up);
            && !Stale(l', up) && l'.reported == want
            && l'.toClient == l.toClient[1..] && Wants(l', up) == Wants(l, up)[1..]
            && l'.toServer == (if want != l.reported then l.toServer + [want] else l.toServer)
            && l'.reg == l.reg && l'.pushed == l.pushed && l'.st.user == l.st.user && l'.st.disabled == l.st.disabled
  {
  }

  /** Starting from the second list instead of `x` saves at least the change to it. */
  lemma SkipFirst(x: seq<Port>, ds: seq<seq<Port>>)
    requires |ds| >= 2
    ensures Changes(x, ds) >= Changes(ds[1], ds[1..]) + (if ds[1] != x then 1 else 0)
  {
    assert Changes(x, ds) == (if ds[0] == x then 0 else 1) + Changes(ds[0], ds[1..]);
    assert Changes(ds[0], ds[1..]) == (if ds[1] == ds[0] then 0 else 1) + Changes(ds[1], ds[1..][1..]);
    assert Changes(ds[1], ds[1..]) == Changes(ds[1], ds[1..][1..]);
  }

  lemma TickDecreases(l: Link, up: set<Port>)
    requires Inv(l) && Stale(l, up)
    ensures var l' := Next(l, ProbeTick(up)); Due(l', up) <= Due(l, up) && Loose(l', up) < Loose(l, up)
  {
    var l' := Next(l, ProbeTick(up));
    assert Wants(l', up) == Wants(l, up) && (Wants(l, up) + [WantNow(l, up)])[0] == l'.reported;
  }

  lemma ConsumeDecreases(l: Link, up: set<Port>)
    requires Inv(l) && l.toServer != []
    ensures var l' := Next(l, ConsumeReport);
            l'.reg.log != [] && Due(l', up) < Due(l, up) && Loose(l', up) <= Loose(l, up) + 2
  {
    ReportDoesNotFeedBack(l.reg, l.st.user, l.nonce, l.toServer[0], l.st.user, l.st.disabled, up);
    assert Wants(Next(l, ConsumeReport), up) == Wants(l, up);
  }

  /** Another session's report owes this session at most a push. */
  lemma OtherReport(l: Link, v: string, m: Nonce, ports: seq<Port>, up: set<Port>)
    requires Inv(l) && m != l.nonce
    ensures var l' := Next(l, Other(RegistryRuns.SetDisabled(v, m, ports)));
            l'.reg.log != [] && Due(l', up) == Due(l, up) && Loose(l', up) <= Loose(l, up) + 2
  {
    ReportDoesNotFeedBack(l.reg, v, m, ports, l.st.user, l.st.disabled, up);
    assert Wants(Next(l, Other(RegistryRuns.SetDisabled(v, m, ports))), up) == Wants(l, up);
  }

  lemma PushDecreases(l: Link, up: set<Port>)
    requires Inv(l) && Enabled(l, PushDirectory)
    ensures var l' := Next(l, PushDirectory); Due(l', up) == Due(l, up) && Loose(l', up) < Loose(l, up)
  {
    PushedWants(l, up, Next(l, PushDirectory));
    ChangesRepeatLast(l.reported, Wants(l, up), WantNow(l, up));
  }

  lemma PushedWants(l: Link, up: set<Port>, l': Link)
    requires l.reg.log != [] && l' == l.(toClient := l.toClient + [Registry.Current(l.reg)], pushed := l'.pushed)
    ensures Wants(l', up) == Wants(l, up) + [WantNow(l, up)]
  {
  }

  /** Every busy step but a consumption loosens nothing and settles something; a consumption owes one push. */
  lemma BusySettles(l: Link, step: Step, up: set<Port>)
    requires Inv(l) && Busy(l, step, up)
    ensures Next(l, step).reg.log != []
    ensures var l' := Next(l, step);
            if step.ConsumeReport? then Due(l', up) < Due(l, up) && Loose(l', up) <= Loose(l, up) + 2
            else Due(l', up) <= Due(l, up) && Loose(l', up) < Loose(l, up)
  {
    match step
    case HandleDirectory(_) => DirectoryDecreases(l, up);
    case ProbeTick(_) => TickDecreases(l, up);
    case ConsumeReport => ConsumeDecreases(l, up);
    case PushDirectory => PushDecreases(l, up);
  }

  lemma UnrestDecreases(l: Link, step: Step, up: set<Port>)
    requires Inv(l) && Busy(l, step, up)
    ensures Next(l, step).reg.log != [] && Unrest(Next(l, step), up) < Unrest(l, up)
  {
    BusySettles(l, step, up);
  }

  ghost predicate AllInternal(steps: seq<Step>, up: set<Port>) {
    forall i :: 0 <= i < |steps| ==> Internal(steps[i], up)
  }

  /** How many steps of a run do something. */
  ghost function BusySteps(l: Link, steps: seq<Step>, up: set<Port>): nat
    requires CanRun(l, steps)
    decreases |steps|
  {
    if steps == [] then 0 else (if Busy(l, steps[0], up) then 1 else 0) + BusySteps(Next(l, steps[0]), steps[1..], up)
  }

  /** Left alone, ticks included, the exchange does at most `Unrest` steps that change anything. */
  lemma {:induction false} Quiesces(l: Link, steps: seq<Step>, up: set<Port>)
    requires Inv(l) && CanRun(l, steps) && AllInternal(steps, up)
    ensures BusySteps(l, steps, up) <= Unrest(l, up)
    decreases |steps|
  {
    if steps != [] {
      assert Internal(steps[0], up);
      NextInv(l, steps[0]);
      if Busy(l, steps[0], up) {
        UnrestDecreases(l, steps[0], up);
      } else {
        assert Next(l, steps[0]) == l;
      }
      assert forall i :: 0 <= i < |steps[1..]| ==> steps[1..][i] == steps[i + 1];
      Quiesces(Next(l, steps[0]), steps[1..], up);
    }
  }

  /**
   * And where nothing is left to do, both ends agree with what accepts connections: report, the online flag
   * of every own key, and, unless it is too large for a frame, the directory.
   */
  lemma AtRest(l: Link, up: set<Port>, k: Key)
    requires Inv(l) && forall step :: !Busy(l, step, up)
    ensures Fits(Registry.Directory(l.reg.allocs, l.reg.online)) ==>
              l.st.directory == Registry.Directory(l.reg.allocs, l.reg.online)
    ensures Registry.IsCurrent(l.reg, l.st.user, l.nonce) ==>
              && l.reg.online[l.st.user].disabled == Unavailable(l.st)
              && (Registry.IsOnline(l.reg.online, l.st.user, k) <==>
                  && k in l.reg.online[l.st.user].ports
                  && k.local !in l.st.disabled
                  && (ExposesTcp(l.st.directory, l.st.user, k.local) ==> k.local in up))
  {
    assert !Busy(l, HandleDirectory(up), up) && !Busy(l, ConsumeReport, up);
    assert !Busy(l, PushDirectory, up) && !Busy(l, ProbeTick(up), up);
    UnavailableExact(l.st);
    ProbeExact(l.st.directory, l.st.user, up, []);
  }

  /**
   * So a run that ends at rest, from the registration of a session that is still current: an own key is
   * online exactly when it is registered, the last toggle does not name it and, for an own TCP port, it
   * accepts connections.
   */
  lemma RestAfterRun(reg: Registry.State, user: string, n: Nonce, start: seq<Port>, steps: seq<Step>,
                     up: set<Port>, k: Key)
    requires Inv(Start(reg, user, n, start)) && CanRun(Start(reg, user, n, start), steps)
    requires forall step :: !Busy(Run(Start(reg, user, n, start), steps), step, up)
    requires Registry.IsCurrent(Run(Start(reg, user, n, start), steps).reg, user, n)
    ensures var e := Run(Start(reg, user, n, start), steps);
            Registry.IsOnline(e.reg.online, user, k) <==>
              && k in e.reg.online[user].ports
              && k.local !in LastToggle(steps, start)
              && (ExposesTcp(e.st.directory, user, k.local) ==> k.local in up)
  {
    var l := Start(reg, user, n, start);
    ReportsConverge(l, steps);
    DisabledIsLastToggle(l, steps);
    AtRest(Run(l, steps), up, k);
  }
}

/** The server and the clients of any number of its sessions at once: all their reports and pushes come to rest. */
module Fleet {
  import opened Types
  import opened Allocator
  import opened Client
  import opened DirectorySize
  import Registry
  import RegistryRuns
  import Server
  import Reports
  import SessionView

  type Nonce = Registry.Nonce

  /** One session's client with the frames between it and the server; `up` are the ports that accept connections. */
  datatype Peer = Peer(
    nonce: Nonce,
    up: set<Port>,
    st: ClientState,
    reported: seq<Port>,
    toServer: seq<seq<Port>>,
    consumed: seq<Port>,
    toClient: seq<seq<Mapping>>)

  datatype State = State(server: Server.State, peers: seq<Peer>)

  function WholeOf(s: Server.State, p: Peer): SessionView.Whole {
    SessionView.Whole(s, p.st, p.reported, p.toServer, p.consumed, p.toClient)
  }

  ghost predicate Joined(s: Server.State, p: Peer) {
    SessionView.Attached(WholeOf(s, p), p.nonce)
  }

  ghost function LinkOf(s: Server.State, p: Peer): Reports.Link
    requires Joined(s, p)
  {
    SessionView.View(WholeOf(s, p), p.nonce)
  }

  ghost predicate Sound(s: Server.State, p: Peer) {
    Joined(s, p) && Reports.Inv(LinkOf(s, p))
  }

  ghost predicate DistinctPeers(ps: seq<Peer>) {
    forall i, j :: 0 <= i < |ps| && 0 <= j < |ps| && i != j ==> ps[i].nonce != ps[j].nonce
  }

  ghost predicate Inv(f: State) {
    DistinctPeers(f.peers) && forall i :: 0 <= i < |f.peers| ==> Sound(f.server, f.peers[i])
  }

  // ---------- steps ----------

  /** The step neither ends the peer's session nor is its own. */
  ghost predicate Spares(step: SessionView.Step, p: Peer) {
    step.OnServer? ==>
      && SessionView.KeepsSession(step.server, p.nonce)
      && !SessionView.IsPush(step.server, p.nonce) && !SessionView.IsReport(step.server, p.nonce)
  }

  /** A step of peer `i`'s client, of its session at the server, or anything else the server does. */
  ghost predicate Enabled(f: State, i: nat, step: SessionView.Step) {
    && i < |f.peers| && Joined(f.server, f.peers[i])
    && SessionView.Enabled(WholeOf(f.server, f.peers[i]), f.peers[i].nonce, step)
    && forall j :: 0 <= j < |f.peers| && j != i ==> Spares(step, f.peers[j])
  }

  ghost function Moved(p: Peer, w: SessionView.Whole): Peer {
    p.(st := w.st, reported := w.reported, toServer := w.toServer, consumed := w.consumed, toClient := w.toClient)
  }

  ghost function Next(f: State, i: nat, step: SessionView.Step): State
    requires Enabled(f, i, step)
  {
    var w := SessionView.Next(WholeOf(f.server, f.peers[i]), f.peers[i].nonce, step);
    State(w.server, f.peers[i := Moved(f.peers[i], w)])
  }

  lemma OwnSound(f: State, i: nat, step: SessionView.Step)
    requires Enabled(f, i, step) && Sound(f.server, f.peers[i])
    ensures Sound(Next(f, i, step).server, Next(f, i, step).peers[i])
  {
    var w, n := WholeOf(f.server, f.peers[i]), f.peers[i].nonce;
    SessionView.StepRefines(w, n, step);
    Reports.ReportsConverge(SessionView.View(w, n), SessionView.InView(w, n, step));
    assert WholeOf(Next(f, i, step).server, Next(f, i, step).peers[i]) == SessionView.Next(w, n, step);
  }

  lemma SparedSound(s: Server.State, p: Peer, x: Server.Step)
    requires Sound(s, p) && Server.Enabled(s, x) && Spares(SessionView.OnServer(x), p)
    ensures Sound(Server.Next(s, x), p)
  {
    var w := WholeOf(s, p);
    SessionView.OtherStep(w, p.nonce, x);
    Reports.ReportsConverge(SessionView.View(w, p.nonce), SessionView.InView(w, p.nonce, SessionView.OnServer(x)));
    assert WholeOf(Server.Next(s, x), p) == SessionView.Next(w, p.nonce, SessionView.OnServer(x));
  }

  /** Whatever one client or the server does, every other session's exchange stays sound. */
  lemma NextInv(f: State, i: nat, step: SessionView.Step)
    requires Inv(f) && Enabled(f, i, step)
    ensures Inv(Next(f, i, step))
  {
    var f' := Next(f, i, step);
    OwnSound(f, i, step);
    forall j | 0 <= j < |f.peers| && j != i
      ensures f'.peers[j] == f.peers[j] && Sound(f'.server, f'.peers[j])
    {
      if step.OnServer? {
        SparedSound(f.server, f.peers[j], step.server);
      }
    }
  }

  ghost function Starting(s: Server.State, n: Nonce, up: set<Port>, disabled: seq<Port>): Peer
    requires n in s.tasks
  {
    var l := Reports.Start(s.reg, s.tasks[n].user, n, disabled);
    Peer(n, up, l.st, l.reported, l.toServer, l.consumed, l.toClient)
  }

  /** The client of a session that has just registered joins. */
  lemma JoinInv(f: State, n: Nonce, up: set<Port>, disabled: seq<Port>)
    requires Inv(f) && Server.Inv(f.server) && SessionView.NothingReported(f.server)
    requires Server.At(f.server, n, Server.Registered) && StrictlyIncreasing(disabled)
    requires forall i :: 0 <= i < |f.peers| ==> f.peers[i].nonce != n
    ensures Inv(f.(peers := f.peers + [Starting(f.server, n, up, disabled)]))
  {
    var s, p := f.server, Starting(f.server, n, up, disabled);
    assert LinkOf(s, p) == Reports.Start(s.reg, s.tasks[n].user, n, disabled);
    assert Sound(s, p);
  }

  // ---------- the exchanges left to themselves ----------

  datatype Act = Handle | Tick | Consume | Push

  /** What the two ends of a session do by themselves while `up` stays the same. */
  ghost function Do(s: Server.State, p: Peer, a: Act): SessionView.Step {
    match a
    case Handle => SessionView.OnClient(Reports.HandleDirectory(p.up))
    case Tick => SessionView.OnClient(Reports.ProbeTick(p.up))
    case Consume => SessionView.OnServer(Server.Report(p.nonce, if p.toServer == [] then [] else p.toServer[0]))
    case Push =>
      SessionView.OnServer(
        if Server.At(s, p.nonce, Server.Live) then Server.Push(p.nonce) else Server.FirstPush(p.nonce))
  }

  /** The same, as the session sees it. */
  function Seen(p: Peer, a: Act): Reports.Step {
    match a
    case Handle => Reports.HandleDirectory(p.up)
    case Tick => Reports.ProbeTick(p.up)
    case Consume => Reports.ConsumeReport
    case Push => Reports.PushDirectory
  }

  ghost predicate Ready(f: State, i: nat, a: Act) {
    i < |f.peers| && Enabled(f, i, Do(f.server, f.peers[i], a))
  }

  /** A tick that finds what is stored changes nothing; every other act does something. */
  ghost predicate Busy(f: State, i: nat, a: Act) {
    Ready(f, i, a) && (a == Tick ==> Reports.Stale(LinkOf(f.server, f.peers[i]), f.peers[i].up))
  }

  ghost function After(f: State, i: nat, a: Act): State
    requires Ready(f, i, a)
  {
    Next(f, i, Do(f.server, f.peers[i], a))
  }

  ghost function Weight(s: Server.State, p: Peer, n: nat): nat
    requires Sound(s, p)
  {
    (2 * n + 1) * Reports.Due(LinkOf(s, p), p.up) + Reports.Loose(LinkOf(s, p), p.up)
  }

  ghost function Weights(f: State): seq<nat>
    requires Inv(f)
  {
    seq(|f.peers|, i requires 0 <= i < |f.peers| => Weight(f.server, f.peers[i], |f.peers|))
  }

  function Sum(v: seq<nat>): nat {
    if v == [] then 0 else v[0] + Sum(v[1..])
  }

  /** Every consumed report owes all sessions a push, so it weighs more than that. */
  ghost function Unrest(f: State): nat
    requires Inv(f)
  {
    Sum(Weights(f))
  }

  lemma {:induction false} SumBelow(a: seq<nat>, b: seq<nat>, more: nat)
    requires |a| == |b| && (more == 0 || more == 2) && forall j :: 0 <= j < |a| ==> b[j] <= a[j] + more
    ensures Sum(b) <= Sum(a) + more * |a|
  {
    if a != [] {
      SumBelow(a[1..], b[1..], more);
    }
  }

  /** One entry falls by `less`, the others grow by at most `more`. */
  lemma {:induction false} SumFalls(a: seq<nat>, b: seq<nat>, i: nat, more: nat, less: nat)
    requires |a| == |b| && i < |a| && (more == 0 || more == 2) && b[i] + less <= a[i] + more
    requires forall j :: 0 <= j < |a| && j != i ==> b[j] <= a[j] + more
    ensures Sum(b) + less <= Sum(a) + more * |a|
  {
    if i > 0 {
      SumFalls(a[1..], b[1..], i - 1, more, less);
    } else {
      SumBelow(a[1..], b[1..], more);
    }
  }

  lemma OwnSeen(f: State, i: nat, a: Act)
    requires Ready(f, i, a)
    ensures Reports.Enabled(LinkOf(f.server, f.peers[i]), Seen(f.peers[i], a))
    ensures var f' := After(f, i, a);
            && Joined(f'.server, f'.peers[i]) && f'.peers[i].up == f.peers[i].up
            && LinkOf(f'.server, f'.peers[i]) == Reports.Next(LinkOf(f.server, f.peers[i]), Seen(f.peers[i], a))
  {
    var p := f.peers[i];
    var w, step := WholeOf(f.server, p), Do(f.server, p, a);
    match a
    case Handle => SeenOne(w, p.nonce, step, Seen(p, a));
    case Tick => SeenOne(w, p.nonce, step, Seen(p, a));
    case Consume =>
      SessionView.ReportStep(w, p.nonce, step.server);
      SeenOne(w, p.nonce, step, Seen(p, a));
    case Push =>
      SessionView.PushStep(w, p.nonce, step.server);
      SeenOne(w, p.nonce, step, Seen(p, a));
  }

  lemma SeenOne(w: SessionView.Whole, n: Nonce, step: SessionView.Step, x: Reports.Step)
    requires SessionView.Attached(w, n) && SessionView.Enabled(w, n, step)
    requires step == SessionView.OnClient(x) || SessionView.Refines(w, n, [x], SessionView.Next(w, n, step))
    ensures Reports.Enabled(SessionView.View(w, n), x)
    ensures SessionView.Attached(SessionView.Next(w, n, step), n)
    ensures SessionView.View(SessionView.Next(w, n, step), n) == Reports.Next(SessionView.View(w, n), x)
  {
    if step == SessionView.OnClient(x) {
      SessionView.ClientStep(w, n, x);
    }
    OneStep(SessionView.View(w, n), x);
  }

  lemma OneStep(l: Reports.Link, x: Reports.Step)
    requires Reports.CanRun(l, [x])
    ensures Reports.Enabled(l, x) && Reports.Run(l, [x]) == Reports.Next(l, x)
  {
    assert [x][1..] == [];
    assert Reports.Run(l, [x]) == Reports.Run(Reports.Next(l, x), []);
  }

  /** Another peer's session sees nothing, or a report of another session. */
  lemma OtherSeen(f: State, i: nat, a: Act, j: nat)
    requires Ready(f, i, a) && j < |f.peers| && j != i && Joined(f.server, f.peers[j])
    ensures var f' := After(f, i, a);
            && f'.peers[j] == f.peers[j] && Joined(f'.server, f.peers[j])
            && var l, l' := LinkOf(f.server, f.peers[j]), LinkOf(f'.server, f.peers[j]);
               if a == Consume then
                 l' == Reports.Next(l, Reports.Other(RegistryRuns.SetDisabled(
                                                       f.peers[i].st.user, f.peers[i].nonce, f.peers[i].toServer[0])))
               else l' == l
  {
    var step, q := Do(f.server, f.peers[i], a), f.peers[j];
    if step.OnServer? {
      SessionView.OtherTask(f.server, q.nonce, step.server);
    }
  }

  /** What an act may add to any session's weight: a push owed. */
  function Rise(a: Act): nat {
    if a == Consume then 2 else 0
  }

  /** What it takes off its own session's. */
  function Fall(a: Act, n: nat): nat {
    if a == Consume then 2 * n + 1 else 1
  }

  lemma OwnWeight(l: Reports.Link, l': Reports.Link, p: Peer, a: Act, n: nat)
    requires Reports.Inv(l) && Reports.Busy(l, Seen(p, a), p.up) && l' == Reports.Next(l, Seen(p, a))
    ensures l'.reg.log != []
    ensures (2 * n + 1) * Reports.Due(l', p.up) + Reports.Loose(l', p.up) + Fall(a, n)
         <= (2 * n + 1) * Reports.Due(l, p.up) + Reports.Loose(l, p.up) + Rise(a)
  {
    Reports.BusySettles(l, Seen(p, a), p.up);
    Weigh(2 * n + 1, Reports.Due(l, p.up), Reports.Due(l', p.up));
  }

  lemma WeightsAfter(f: State, i: nat, a: Act, j: nat, n: nat)
    requires Inv(f) && Busy(f, i, a) && Inv(After(f, i, a)) && j < |f.peers| && n == |f.peers|
    ensures var f' := After(f, i, a);
            && |f'.peers| == |f.peers|
            && Weight(f'.server, f'.peers[j], n) + (if j == i then Fall(a, n) else 0)
               <= Weight(f.server, f.peers[j], n) + Rise(a)
  {
    var p, q, f' := f.peers[i], f.peers[j], After(f, i, a);
    if j == i {
      OwnSeen(f, i, a);
      OwnWeight(LinkOf(f.server, p), LinkOf(f'.server, f'.peers[i]), p, a, n);
    } else {
      OtherSeen(f, i, a, j);
      if a == Consume {
        Reports.OtherReport(LinkOf(f.server, q), p.st.user, p.nonce, p.toServer[0], q.up);
      }
    }
  }

  lemma Weigh(k: nat, d: nat, d': nat)
    ensures d' <= d ==> k * d' <= k * d
    ensures d' < d ==> k * d' + k <= k * d
  {
    if d' < d {
      Grows(k, d' + 1, d);
      assert k * (d' + 1) == k * d' + k;
    } else if d' == d {
      assert k * d' == k * d;
    }
  }

  lemma Grows(k: nat, a: nat, b: nat)
    requires a <= b
    ensures k * a <= k * b
  {
  }

  lemma AllWeightsAfter(f: State, i: nat, a: Act)
    requires Inv(f) && Busy(f, i, a) && Inv(After(f, i, a))
    ensures var v, v', n := Weights(f), Weights(After(f, i, a)), |f.peers|;
            && |v'| == |v| == n
            && forall j :: 0 <= j < n ==> v'[j] + (if j == i then Fall(a, n) else 0) <= v[j] + Rise(a)
  {
    var f', n := After(f, i, a), |f.peers|;
    forall j | 0 <= j < n
      ensures Weights(f')[j] + (if j == i then Fall(a, n) else 0) <= Weights(f)[j] + Rise(a)
    {
      WeightsAfter(f, i, a, j, n);
    }
  }

  /** What the act takes off its own session is more than what it adds to all of them. */
  lemma TotalFalls(v: seq<nat>, v': seq<nat>, i: nat, a: Act, n: nat)
    requires |v'| == |v| == n && i < n
    requires forall j :: 0 <= j < n ==> v'[j] + (if j == i then Fall(a, n) else 0) <= v[j] + Rise(a)
    ensures Sum(v') < Sum(v)
  {
    SumFalls(v, v', i, Rise(a), Fall(a, n));
  }

  /** Whatever session acts, the whole comes nearer to rest. */
  lemma UnrestDecreases(f: State, i: nat, a: Act)
    requires Inv(f) && Busy(f, i, a)
    ensures Inv(After(f, i, a)) && Unrest(After(f, i, a)) < Unrest(f)
  {
    NextInv(f, i, Do(f.server, f.peers[i], a));
    AllWeightsAfter(f, i, a);
    TotalFalls(Weights(f), Weights(After(f, i, a)), i, a, |f.peers|);
  }

  ghost predicate CanRun(f: State, acts: seq<(nat, Act)>)
    decreases |acts|
  {
    acts != [] ==> Ready(f, acts[0].0, acts[0].1) && CanRun(After(f, acts[0].0, acts[0].1), acts[1..])
  }

  ghost function Finish(f: State, acts: seq<(nat, Act)>): State
    requires CanRun(f, acts)
    decreases |acts|
  {
    if acts == [] then f else Finish(After(f, acts[0].0, acts[0].1), acts[1..])
  }

  /** How many acts of a run do something. */
  ghost function BusyActs(f: State, acts: seq<(nat, Act)>): nat
    requires CanRun(f, acts)
    decreases |acts|
  {
    if acts == [] then 0
    else
      (if Busy(f, acts[0].0, acts[0].1) then 1 else 0) + BusyActs(After(f, acts[0].0, acts[0].1), acts[1..])
  }

  lemma IdleTick(f: State, i: nat)
    requires Ready(f, i, Tick) && !Busy(f, i, Tick)
    ensures After(f, i, Tick) == f
  {
    OwnSeen(f, i, Tick);
    assert f.peers[i := f.peers[i]] == f.peers;
  }

  /** All sessions together, left alone in any interleaving, do at most `Unrest` acts that change anything. */
  lemma {:induction false} Quiesces(f: State, acts: seq<(nat, Act)>)
    requires Inv(f) && CanRun(f, acts)
    ensures Inv(Finish(f, acts)) && BusyActs(f, acts) <= Unrest(f)
    decreases |acts|
  {
    if acts != [] {
      var (i, a) := acts[0];
      if Busy(f, i, a) {
        UnrestDecreases(f, i, a);
      } else {
        IdleTick(f, i);
      }
      Quiesces(After(f, i, a), acts[1..]);
    }
  }

  // ---------- at rest ----------

  ghost predicate AllAtRest(f: State) {
    forall i, a :: 0 <= i < |f.peers| ==> !Busy(f, i, a)
  }

  lemma SomeBusy(f: State) returns (i: nat, a: Act)
    requires !AllAtRest(f)
    ensures Busy(f, i, a)
  {
    i, a :| 0 <= i < |f.peers| && Busy(f, i, a);
  }

  /** And rest can be reached: as long as something is left to do, doing it comes nearer. */
  lemma {:induction false} ComesToRest(f: State) returns (acts: seq<(nat, Act)>)
    requires Inv(f)
    ensures CanRun(f, acts) && AllAtRest(Finish(f, acts))
    decreases Unrest(f)
  {
    acts := [];
    if !AllAtRest(f) {
      var i, a := SomeBusy(f);
      UnrestDecreases(f, i, a);
      var rest := ComesToRest(After(f, i, a));
      acts := [(i, a)] + rest;
      RunCons(f, i, a, rest);
    }
  }

  lemma RunCons(f: State, i: nat, a: Act, rest: seq<(nat, Act)>)
    requires Ready(f, i, a) && CanRun(After(f, i, a), rest)
    ensures CanRun(f, [(i, a)] + rest) && Finish(f, [(i, a)] + rest) == Finish(After(f, i, a), rest)
  {
    assert ([(i, a)] + rest)[1..] == rest;
  }

  lemma OwnActsSpareOthers(f: State, i: nat, a: Act)
    requires Inv(f) && i < |f.peers|
    requires SessionView.Enabled(WholeOf(f.server, f.peers[i]), f.peers[i].nonce, Do(f.server, f.peers[i], a))
    ensures Ready(f, i, a)
  {
  }

  lemma SeenIsEnabled(s: Server.State, p: Peer, a: Act)
    requires Joined(s, p) && Server.At(s, p.nonce, Server.Live) && s.reg.log != []
    requires Reports.Enabled(LinkOf(s, p), Seen(p, a))
    ensures SessionView.Enabled(WholeOf(s, p), p.nonce, Do(s, p, a))
  {
    if a == Push {
      assert Server.Enabled(s, Server.Push(p.nonce));
    } else if a == Consume {
      assert Server.Enabled(s, Server.Report(p.nonce, p.toServer[0]));
    }
  }

  lemma SeenIsDone(f: State, i: nat, a: Act)
    requires Inv(f) && i < |f.peers| && Server.At(f.server, f.peers[i].nonce, Server.Live)
    requires Reports.Busy(LinkOf(f.server, f.peers[i]), Seen(f.peers[i], a), f.peers[i].up)
    ensures Busy(f, i, a)
  {
    SeenIsEnabled(f.server, f.peers[i], a);
    OwnActsSpareOthers(f, i, a);
  }

  /** A live session with nothing left to do is at rest in its own view. */
  lemma LiveAtRest(f: State, i: nat)
    requires Inv(f) && AllAtRest(f) && i < |f.peers| && Server.At(f.server, f.peers[i].nonce, Server.Live)
    ensures forall step :: !Reports.Busy(LinkOf(f.server, f.peers[i]), step, f.peers[i].up)
  {
    var p := f.peers[i];
    var l := LinkOf(f.server, p);
    forall a: Act
      ensures !Reports.Busy(l, Seen(p, a), p.up)
    {
      if Reports.Busy(l, Seen(p, a), p.up) {
        SeenIsDone(f, i, a);
      }
    }
    AllSeen(l, p);
  }

  lemma AllSeen(l: Reports.Link, p: Peer)
    requires forall a: Act :: !Reports.Busy(l, Seen(p, a), p.up)
    ensures forall step :: !Reports.Busy(l, step, p.up)
  {
    assert Seen(p, Handle) == Reports.HandleDirectory(p.up) && Seen(p, Tick) == Reports.ProbeTick(p.up);
    assert Seen(p, Consume) == Reports.ConsumeReport && Seen(p, Push) == Reports.PushDirectory;
  }

  lemma StartingIsBusy(f: State, i: nat)
    requires Inv(f) && i < |f.peers| && Server.At(f.server, f.peers[i].nonce, Server.Starting)
    requires f.server.reg.log != [] && Fits(Registry.Current(f.server.reg))
    ensures Busy(f, i, Push)
  {
    OwnActsSpareOthers(f, i, Push);
  }

  /** At rest, while the directory fits a frame, no installed session is left waiting for its first one. */
  lemma NobodyStarting(f: State, i: nat)
    requires Inv(f) && AllAtRest(f) && i < |f.peers|
    requires f.server.reg.log != [] && Fits(Registry.Current(f.server.reg))
    ensures !Server.At(f.server, f.peers[i].nonce, Server.Starting)
  {
    if Server.At(f.server, f.peers[i].nonce, Server.Starting) {
      StartingIsBusy(f, i);
    }
  }

  /**
   * At rest, with every session live and a directory that fits: all clients hold the same directory, and for
   * every current session it shows as online exactly the keys that its client has not turned off and that,
   * for exposed TCP ports, accept connections.
   */
  lemma EveryoneAgrees(f: State, i: nat, j: nat, m: Mapping)
    requires Inv(f) && AllAtRest(f) && i < |f.peers| && j < |f.peers|
    requires f.server.reg.log != [] && Fits(Registry.Current(f.server.reg))
    requires Server.At(f.server, f.peers[i].nonce, Server.Live) && Server.At(f.server, f.peers[j].nonce, Server.Live)
    ensures var reg, p, q := f.server.reg, f.peers[i], f.peers[j];
            && p.st.directory == q.st.directory == Registry.Directory(reg.allocs, reg.online)
            && (Registry.IsCurrent(reg, p.st.user, p.nonce) && m in q.st.directory && m.user == p.st.user ==>
                  (m.online <==>
                   && m.key in reg.online[m.user].ports
                   && m.key.local !in p.st.disabled
                   && (ExposesTcp(q.st.directory, m.user, m.key.local) ==> m.key.local in p.up)))
  {
    var reg, p, q := f.server.reg, f.peers[i], f.peers[j];
    LiveAtRest(f, i);
    LiveAtRest(f, j);
    Reports.AtRest(LinkOf(f.server, p), p.up, m.key);
    Reports.AtRest(LinkOf(f.server, q), q.up, m.key);
    Registry.DirectoryRows(reg.allocs, reg.online);
  }
}

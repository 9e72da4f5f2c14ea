/**
 * The whole server and one of its clients, together: seen from one session, from its registration until
 * its task ends, every run of the server interleaved with that session's client is a run of `Reports`.
 */
module SessionView {
  import opened Types
  import opened Allocator
  import opened Client
  import Registry
  import RegistryRuns
  import Server
  import Reports

  type Nonce = Registry.Nonce

  /** The server, the client of one session, and the frames between them. */
  datatype Whole = Whole(
    server: Server.State,
    st: ClientState,
    reported: seq<Port>,
    toServer: seq<seq<Port>>,
    consumed: seq<Port>,
    toClient: seq<seq<Mapping>>)

  /** A step of the server, or of the client in view. */
  datatype Step = OnServer(server: Server.Step) | OnClient(client: Reports.Step)

  ghost predicate IsPush(step: Server.Step, n: Nonce) {
    step == Server.FirstPush(n) || step == Server.Push(n)
  }

  ghost predicate IsReport(step: Server.Step, n: Nonce) {
    step.Report? && step.nonce == n
  }

  /** Server steps that do not end session `n`. */
  ghost predicate KeepsSession(step: Server.Step, n: Nonce) {
    && !step.Restart? && step != Server.Leave(n)
    && step != Server.AckLost(n) && step != Server.InstallLost(n) && step != Server.FirstPushLost(n)
  }

  ghost predicate ByClient(step: Reports.Step) {
    step.HandleDirectory? || step.ProbeTick? || step.DisabledChanged?
  }

  ghost predicate Attached(w: Whole, n: Nonce) {
    && n in w.server.tasks && w.server.tasks[n].phase in {Server.Registered, Server.Starting, Server.Live}
    && w.st.user == w.server.tasks[n].user
  }

  /** The session as `Reports` sees it. */
  ghost function View(w: Whole, n: Nonce): Reports.Link
    requires Attached(w, n)
  {
    var t := w.server.tasks[n];
    Reports.Link(n, w.st, w.reported, w.toServer, w.consumed, w.server.reg,
                 if t.phase == Server.Live then t.seen else -1, w.toClient)
  }

  /** The session's own reports arrive in order; everything else is up to the server and the client. */
  ghost predicate Enabled(w: Whole, n: Nonce, step: Step)
    requires Attached(w, n)
  {
    match step
    case OnServer(x) =>
      && Server.Enabled(w.server, x) && KeepsSession(x, n)
      && (IsReport(x, n) ==> w.toServer != [] && x.ports == w.toServer[0])
    case OnClient(x) => ByClient(x) && Reports.Enabled(View(w, n), x)
  }

  ghost function Next(w: Whole, n: Nonce, step: Step): Whole
    requires Attached(w, n) && Enabled(w, n, step)
  {
    match step
    case OnServer(x) =>
      w.(server := Server.Next(w.server, x),
         toServer := if IsReport(x, n) then w.toServer[1..] else w.toServer,
         consumed := if IsReport(x, n) then w.toServer[0] else w.consumed,
         toClient := if IsPush(x, n) then w.toClient + [Registry.Current(w.server.reg)] else w.toClient)
    case OnClient(x) =>
      var l := Reports.Next(View(w, n), x);
      w.(st := l.st, reported := l.reported, toServer := l.toServer, toClient := l.toClient)
  }

  /** What a step is in the session's view. */
  ghost function InView(w: Whole, n: Nonce, step: Step): seq<Reports.Step>
    requires Attached(w, n) && Enabled(w, n, step)
  {
    match step
    case OnClient(x) => [x]
    case OnServer(x) =>
      if IsPush(x, n) then [Reports.PushDirectory]
      else if IsReport(x, n) then [Reports.ConsumeReport]
      else
        var ops := Server.RegistryOps(w.server, x);
        seq(|ops|, i requires 0 <= i < |ops| => Reports.Other(ops[i]))
  }

  ghost predicate Refines(w: Whole, n: Nonce, steps: seq<Reports.Step>, w': Whole) {
    && Attached(w, n) && Attached(w', n)
    && Reports.CanRun(View(w, n), steps) && Reports.Run(View(w, n), steps) == View(w', n)
  }

  lemma RunOne(l: Reports.Link, step: Reports.Step)
    requires Reports.Enabled(l, step)
    ensures Reports.CanRun(l, [step]) && Reports.Run(l, [step]) == Reports.Next(l, step)
  {
    assert [step][1..] == [];
    assert Reports.CanRun(Reports.Next(l, step), []);
  }

  lemma ClientStep(w: Whole, n: Nonce, x: Reports.Step)
    requires Attached(w, n) && Enabled(w, n, OnClient(x))
    ensures Refines(w, n, [x], Next(w, n, OnClient(x)))
  {
    RunOne(View(w, n), x);
  }

  lemma PushStep(w: Whole, n: Nonce, x: Server.Step)
    requires Attached(w, n) && Enabled(w, n, OnServer(x)) && IsPush(x, n)
    ensures Refines(w, n, [Reports.PushDirectory], Next(w, n, OnServer(x)))
  {
    RunOne(View(w, n), Reports.PushDirectory);
  }

  lemma ReportStep(w: Whole, n: Nonce, x: Server.Step)
    requires Attached(w, n) && Enabled(w, n, OnServer(x)) && IsReport(x, n)
    ensures Refines(w, n, [Reports.ConsumeReport], Next(w, n, OnServer(x)))
  {
    RunOne(View(w, n), Reports.ConsumeReport);
  }

  /** Any other step of the server keeps the task and is at most one registry operation of another session. */
  lemma OtherTask(s: Server.State, n: Nonce, x: Server.Step)
    requires Server.Enabled(s, x) && n in s.tasks
    requires s.tasks[n].phase in {Server.Registered, Server.Starting, Server.Live}
    requires KeepsSession(x, n) && !IsPush(x, n) && !IsReport(x, n)
    ensures n in Server.Next(s, x).tasks
    ensures var t, t' := s.tasks[n], Server.Next(s, x).tasks[n];
            && t'.user == t.user && t'.seen == t.seen
            && if x == Server.Install(n) then t.phase == Server.Registered && t'.phase == Server.Starting
               else t'.phase == t.phase
    ensures var ops := Server.RegistryOps(s, x);
            |ops| <= 1 && forall i :: 0 <= i < |ops| ==> Reports.ByOther(ops[i], n)
  {
  }

  lemma OtherStep(w: Whole, n: Nonce, x: Server.Step)
    requires Attached(w, n) && Enabled(w, n, OnServer(x)) && !IsPush(x, n) && !IsReport(x, n)
    ensures Refines(w, n, InView(w, n, OnServer(x)), Next(w, n, OnServer(x)))
  {
    var ops, steps := Server.RegistryOps(w.server, x), InView(w, n, OnServer(x));
    OtherTask(w.server, n, x);
    Server.StepIsRegistryRun(w.server, x);
    if ops == [] {
      assert steps == [];
    } else {
      assert ops == [ops[0]] && steps == [Reports.Other(ops[0])];
      assert RegistryRuns.Run(w.server.reg, ops) == RegistryRuns.Run(RegistryRuns.Apply(w.server.reg, ops[0]), []);
      RunOne(View(w, n), Reports.Other(ops[0]));
    }
  }

  /** One step of the whole is a run of `Reports`: the session's own step, or another session's registry operation. */
  lemma StepRefines(w: Whole, n: Nonce, step: Step)
    requires Attached(w, n) && Enabled(w, n, step)
    ensures Refines(w, n, InView(w, n, step), Next(w, n, step))
  {
    match step
    case OnClient(x) => ClientStep(w, n, x);
    case OnServer(x) =>
      if IsPush(x, n) {
        PushStep(w, n, x);
      } else if IsReport(x, n) {
        ReportStep(w, n, x);
      } else {
        OtherStep(w, n, x);
      }
  }

  ghost predicate CanRun(w: Whole, n: Nonce, steps: seq<Step>)
    decreases |steps|
  {
    steps != [] ==> Attached(w, n) && Enabled(w, n, steps[0]) && CanRun(Next(w, n, steps[0]), n, steps[1..])
  }

  ghost function Run(w: Whole, n: Nonce, steps: seq<Step>): Whole
    requires CanRun(w, n, steps)
    decreases |steps|
  {
    if steps == [] then w else Run(Next(w, n, steps[0]), n, steps[1..])
  }

  lemma {:induction false} RunBoth(l: Reports.Link, a: seq<Reports.Step>, b: seq<Reports.Step>)
    requires Reports.CanRun(l, a) && Reports.CanRun(Reports.Run(l, a), b)
    ensures Reports.CanRun(l, a + b) && Reports.Run(l, a + b) == Reports.Run(Reports.Run(l, a), b)
    decreases |a|
  {
    if a == [] {
      assert a + b == b;
    } else {
      assert (a + b)[1..] == a[1..] + b;
      RunBoth(Reports.Next(l, a[0]), a[1..], b);
    }
  }

  /** Any run of the server with the client, seen from the session, is a run of `Reports`. */
  lemma {:induction false} RunRefines(w: Whole, n: Nonce, steps: seq<Step>) returns (rs: seq<Reports.Step>)
    requires Attached(w, n) && CanRun(w, n, steps)
    ensures Refines(w, n, rs, Run(w, n, steps))
    decreases |steps|
  {
    if steps == [] {
      rs := [];
    } else {
      StepRefines(w, n, steps[0]);
      var rest := RunRefines(Next(w, n, steps[0]), n, steps[1..]);
      rs := InView(w, n, steps[0]) + rest;
      RunBoth(View(w, n), InView(w, n, steps[0]), rest);
    }
  }

  /**
   * Report convergence on the whole server: while other users and sessions do anything, the server's list
   * for a current session is the last report it consumed, and with none in flight what the client calls for.
   */
  lemma ServerConverges(w: Whole, n: Nonce, steps: seq<Step>)
    requires Attached(w, n) && CanRun(w, n, steps) && Reports.Inv(View(w, n))
    ensures var e := Run(w, n, steps);
            && Attached(e, n) && e.reported == Unavailable(e.st)
            && (Registry.IsCurrent(e.server.reg, e.st.user, n) ==>
                  && e.server.reg.online[e.st.user].disabled == e.consumed
                  && (e.toServer == [] ==> e.consumed == Unavailable(e.st)))
  {
    var rs := RunRefines(w, n, steps);
    Reports.ReportsConverge(View(w, n), rs);
  }

  /** Before its first push a session has reported nothing. */
  ghost predicate NothingReported(s: Server.State) {
    forall n :: n in s.tasks && s.tasks[n].phase in {Server.Registered, Server.Starting}
                && Registry.IsCurrent(s.reg, s.tasks[n].user, n) ==>
                  s.reg.online[s.tasks[n].user].disabled == []
  }

  /** Only live sessions report. */
  lemma MovesNothingReported(s: Server.State, x: Server.Step, s': Server.State)
    requires Server.Moves(s, x, s') && NothingReported(s)
    ensures NothingReported(s')
  {
    forall n | n in s'.tasks && s'.tasks[n].phase in {Server.Registered, Server.Starting}
               && Registry.IsCurrent(s'.reg, s'.tasks[n].user, n)
      ensures s'.reg.online[s'.tasks[n].user].disabled == []
    {
      assert s.tasks[n].phase in {Server.Registered, Server.Starting};
    }
  }

  lemma RegisterNothingReported(s: Server.State, u: string, n: Nonce, diskOk: bool)
    requires NothingReported(s) && Server.Enabled(s, Server.Register(u, n, diskOk)) && s.users[u].name == u
    requires forall v :: v in s.reg.online ==> s.reg.online[v].nonce in s.tasks
    ensures NothingReported(Server.Next(s, Server.Register(u, n, diskOk)))
  {
    Server.RegisterOnline(s, u, n, diskOk);
  }

  lemma NothingReportedNext(s: Server.State, x: Server.Step)
    requires Server.Inv(s) && NothingReported(s) && Server.Enabled(s, x)
    ensures NothingReported(Server.Next(s, x))
  {
    if x.Register? {
      RegisterNothingReported(s, x.user, x.nonce, x.diskOk);
    } else if !x.Restart? {
      Server.StepMoves(s, x);
      MovesNothingReported(s, x, Server.Next(s, x));
    }
  }

  lemma {:induction false} NothingReportedRun(s: Server.State, steps: seq<Server.Step>)
    requires Server.Inv(s) && NothingReported(s) && Server.CanRun(s, steps)
    ensures NothingReported(Server.Run(s, steps))
    decreases |steps|
  {
    if steps != [] {
      Server.NextInv(s, steps[0]);
      NothingReportedNext(s, steps[0]);
      NothingReportedRun(Server.Next(s, steps[0]), steps[1..]);
    }
  }

  /**
   * From a server's start: once any run has registered a session, its client starts and everything goes on
   * in any order, the session's install included; the server's list for that session is always what the
   * client last had consumed.
   */
  lemma ReachableConverges(users: map<string, UserConfig>, disk: seq<Alloc>, before: seq<Server.Step>,
                           n: Nonce, disabled: seq<Port>, w: Whole, steps: seq<Step>)
    requires Validated(users) && WellFormed(disk) && Server.CanRun(Server.Init(users, disk), before)
    requires Server.At(Server.Run(Server.Init(users, disk), before), n, Server.Registered)
    requires StrictlyIncreasing(disabled)
    requires var s := Server.Run(Server.Init(users, disk), before);
             var l := Reports.Start(s.reg, s.tasks[n].user, n, disabled);
             w == Whole(s, l.st, l.reported, l.toServer, l.consumed, l.toClient)
    requires CanRun(w, n, steps)
    ensures var e := Run(w, n, steps);
            && Attached(e, n) && e.reported == Unavailable(e.st)
            && (Registry.IsCurrent(e.server.reg, e.st.user, n) ==>
                  && e.server.reg.online[e.st.user].disabled == e.consumed
                  && (e.toServer == [] ==> e.consumed == Unavailable(e.st)))
  {
    var s := Server.Run(Server.Init(users, disk), before);
    Server.InitInv(users, disk);
    Server.RunInv(Server.Init(users, disk), before);
    NothingReportedRun(Server.Init(users, disk), before);
    assert View(w, n) == Reports.Start(s.reg, s.tasks[n].user, n, disabled);
    assert Reports.Inv(View(w, n));
    ServerConverges(w, n, steps);
  }
}

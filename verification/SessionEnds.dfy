/** Which sessions can still end, and which live channels the registry still knows. */
module SessionEnds {
  import opened Types
  import opened Allocator
  import Registry
  import RegistryRuns
  import MultiMaps
  import opened Server
  import opened ServerProperties
  import opened DirectorySize
  import Wire

  // ---------- users that nobody can take offline ----------

  /** No restart, and no new registration of `u`. */
  ghost predicate Undisturbed(steps: seq<Step>, u: string) {
    forall i :: 0 <= i < |steps| ==> !steps[i].Restart? && !(steps[i].Register? && steps[i].user == u)
  }

  lemma UndisturbedCons(steps: seq<Step>, u: string)
    requires steps != []
    ensures Undisturbed(steps, u) <==>
            !steps[0].Restart? && !(steps[0].Register? && steps[0].user == u) && Undisturbed(steps[1..], u)
  {
    assert steps == [steps[0]] + steps[1..];
    if Undisturbed(steps[1..], u) {
      assert forall i :: 1 <= i < |steps| ==> steps[i] == steps[1..][i - 1];
    }
    assert forall i :: 0 <= i < |steps| - 1 ==> steps[1..][i] == steps[i + 1];
  }

  /** `u` is online, and no run takes it offline unless it registers again or the server restarts. */
  ghost predicate Stuck(s: State, u: string) {
    && u in s.reg.online
    && forall steps :: CanRun(s, steps) && Undisturbed(steps, u) ==> u in Run(s, steps).reg.online
  }

  /** The current session of `u` has not pushed yet. */
  ghost predicate Waiting(s: State, u: string) {
    u in s.reg.online && (At(s, s.reg.online[u].nonce, Registered) || At(s, s.reg.online[u].nonce, Starting))
  }

  /** The current session of `u` returned early, or is bound to: its first push is too large for a frame. */
  ghost predicate Doomed(s: State, u: string)
    requires s.reg.log != []
  {
    Stranded(s, u) || (Waiting(s, u) && !Fits(Registry.Current(s.reg)))
  }

  /** The current session of `u` pushes its first directory. */
  ghost predicate ServesNow(s: State, step: Step, u: string) {
    step.FirstPush? && Registry.IsCurrent(s.reg, u, step.nonce)
  }

  lemma MovesWait(s: State, step: Step, s': State, u: string)
    requires Moves(s, step, s')
    requires u in s.reg.online ==> s.reg.online[u].nonce in s.tasks && s.tasks[s.reg.online[u].nonce].user == u
    ensures Waiting(s', u) <==> Waiting(s, u) && !ServesNow(s, step, u) && !StrandsNow(s, step, u)
  {
  }

  lemma RegisterWaits(s: State, v: string, n: Nonce, diskOk: bool, u: string)
    requires Enabled(s, Register(v, n, diskOk)) && s.users[v].name == v
    requires u in s.reg.online ==> s.reg.online[u].nonce in s.tasks
    ensures var s' := Next(s, Register(v, n, diskOk));
            Waiting(s', u) <==> Waiting(s, u) || (u == v && At(s', n, Registered))
  {
    RegisterOnline(s, v, n, diskOk);
  }

  /** A user starts waiting by registering, and stops by a first push, an early return or a restart. */
  lemma WaitingNext(s: State, step: Step, u: string)
    requires Inv(s) && Enabled(s, step)
    ensures Waiting(Next(s, step), u) <==>
            !step.Restart? && (Frees(s, step, u)
                               || (Waiting(s, u) && !ServesNow(s, step, u) && !StrandsNow(s, step, u)))
  {
    if step.Register? {
      RegisterWaits(s, step.user, step.nonce, step.diskOk, u);
    } else if !step.Restart? {
      StepMoves(s, step);
      MovesWait(s, step, Next(s, step), u);
    }
  }

  lemma {:induction false} StrandedForever(s: State, steps: seq<Step>, u: string)
    requires Inv(s) && Stranded(s, u) && CanRun(s, steps) && Undisturbed(steps, u)
    ensures Stranded(Run(s, steps), u)
    decreases |steps|
  {
    if steps != [] {
      UndisturbedCons(steps, u);
      StrandedNext(s, steps[0], u);
      NextInv(s, steps[0]);
      StrandedForever(Next(s, steps[0]), steps[1..], u);
    }
  }

  lemma StaysTooLarge(s: State, step: Step)
    requires Inv(s) && Enabled(s, step) && !Fits(Registry.Current(s.reg))
    ensures Next(s, step).reg.log != [] && !Fits(Registry.Current(Next(s, step).reg))
  {
    StepIsRegistryRun(s, step);
    TooLargeForever(s.reg, RegistryOps(s, step));
  }

  ghost predicate NoPush(steps: seq<Step>) {
    forall i :: 0 <= i < |steps| ==> !steps[i].FirstPush? && !steps[i].Push?
  }

  lemma NoPushCons(steps: seq<Step>)
    requires steps != [] && !steps[0].FirstPush? && !steps[0].Push? && NoPush(steps[1..])
    ensures NoPush(steps)
  {
    assert forall i :: 1 <= i < |steps| ==> steps[i] == steps[1..][i - 1];
  }

  /** A directory too large for a frame is never pushed again, whoever registers, and over any restarts. */
  lemma {:induction false} NoMorePushes(s: State, steps: seq<Step>)
    requires Inv(s) && CanRun(s, steps) && !Fits(Registry.Current(s.reg))
    ensures NoPush(steps)
    decreases |steps|
  {
    if steps != [] {
      StaysTooLarge(s, steps[0]);
      NextInv(s, steps[0]);
      NoMorePushes(Next(s, steps[0]), steps[1..]);
      NoPushCons(steps);
    }
  }

  lemma DoomedNext(s: State, step: Step, u: string)
    requires Inv(s) && Enabled(s, step) && Doomed(s, u) && !Frees(s, step, u)
    ensures Next(s, step).reg.log != [] && Doomed(Next(s, step), u)
  {
    NextInv(s, step);
    StrandedNext(s, step, u);
    if !Stranded(s, u) {
      WaitingNext(s, step, u);
      StaysTooLarge(s, step);
    }
  }

  lemma {:induction false} DoomedForever(s: State, steps: seq<Step>, u: string)
    requires Inv(s) && Doomed(s, u) && CanRun(s, steps) && Undisturbed(steps, u)
    ensures Run(s, steps).reg.log != [] && Doomed(Run(s, steps), u)
    decreases |steps|
  {
    if steps != [] {
      UndisturbedCons(steps, u);
      DoomedNext(s, steps[0], u);
      NextInv(s, steps[0]);
      DoomedForever(Next(s, steps[0]), steps[1..], u);
    }
  }

  /** The next step of a session that is on its way. */
  function Onward(n: Nonce, ph: Phase): Step {
    match ph
    case Registered => Install(n)
    case Starting => FirstPush(n)
    case Live => Leave(n)
    case _ => Exit(n)
  }

  function StepsLeft(ph: Phase): nat {
    match ph
    case Registered => 4
    case Starting => 3
    case Live => 2
    case _ => 1
  }

  /** Taking that step, the session stays current and one step nearer its end, or ends. */
  lemma OnwardStep(s: State, u: string)
    requires Inv(s) && u in s.reg.online && !Doomed(s, u)
    ensures var n := s.reg.online[u].nonce;
            && n in s.tasks && Enabled(s, Onward(n, s.tasks[n].phase))
            && var s' := Next(s, Onward(n, s.tasks[n].phase));
               && s'.reg.log != []
               && (u in s'.reg.online ==>
                     && s'.reg.online[u].nonce == n && !Doomed(s', u) && n in s'.tasks
                     && StepsLeft(s'.tasks[n].phase) < StepsLeft(s.tasks[n].phase))
  {
    var n := s.reg.online[u].nonce;
    assert s.tasks[n].phase in {Registered, Starting, Live, Removed};
    var step := Onward(n, s.tasks[n].phase);
    StepMoves(s, step);
    OnwardMoves(s, step, Next(s, step), u, n);
  }

  lemma OnwardMoves(s: State, step: Step, s': State, u: string, n: Nonce)
    requires Registry.IsCurrent(s.reg, u, n) && n in s.tasks
    requires Moves(s, step, s') && step == Onward(n, s.tasks[n].phase)
    requires s.reg.log != [] && !Doomed(s, u) && (step.Install? ==> s'.reg == s.reg)
    ensures s'.reg.log != []
    ensures u in s'.reg.online ==>
              s'.reg.online[u].nonce == n && !Doomed(s', u) && n in s'.tasks
              && StepsLeft(s'.tasks[n].phase) < StepsLeft(s.tasks[n].phase)
  {
  }

  /** A session that is not doomed can run to its end. */
  lemma {:induction false} CanEnd(s: State, u: string, left: nat) returns (steps: seq<Step>)
    requires Inv(s) && u in s.reg.online && !Doomed(s, u)
    requires s.reg.online[u].nonce in s.tasks && left == StepsLeft(s.tasks[s.reg.online[u].nonce].phase)
    ensures CanRun(s, steps) && Undisturbed(steps, u) && u !in Run(s, steps).reg.online
    decreases left
  {
    var n := s.reg.online[u].nonce;
    var step := Onward(n, s.tasks[n].phase);
    OnwardStep(s, u);
    NextInv(s, step);
    var s' := Next(s, step);
    var rest := [];
    if u in s'.reg.online {
      rest := CanEnd(s', u, StepsLeft(s'.tasks[n].phase));
    }
    steps := [step] + rest;
    assert steps[1..] == rest;
    UndisturbedCons(steps, u);
    RunCons(s, step, rest);
  }

  /**
   * A user is stuck exactly when its current session's task returned early, or has yet to push a directory
   * that is too large for a frame.
   */
  lemma StuckIff(s: State, u: string)
    requires Inv(s)
    ensures Stuck(s, u) <==> Doomed(s, u)
  {
    if Doomed(s, u) {
      forall steps | CanRun(s, steps) && Undisturbed(steps, u)
        ensures u in Run(s, steps).reg.online
      {
        DoomedForever(s, steps, u);
      }
    } else if u in s.reg.online {
      var steps := CanEnd(s, u, StepsLeft(s.tasks[s.reg.online[u].nonce].phase));
      assert CanRun(s, steps) && Undisturbed(steps, u);
    }
  }

  /** Whether `u`'s last early return of a current session came after its last release, starting from `lost`. */
  ghost predicate LostLast(s: State, steps: seq<Step>, u: string, lost: bool)
    requires CanRun(s, steps)
    decreases |steps|
  {
    if steps == [] then lost
    else LostLast(Next(s, steps[0]), steps[1..], u, StrandsNow(s, steps[0], u) || (lost && !Frees(s, steps[0], u)))
  }

  /** Whether `u` last registered after its last first push, early return and restart, starting from `waiting`. */
  ghost predicate WaitsLast(s: State, steps: seq<Step>, u: string, waiting: bool)
    requires CanRun(s, steps)
    decreases |steps|
  {
    if steps == [] then waiting
    else
      WaitsLast(Next(s, steps[0]), steps[1..], u,
                !steps[0].Restart? && (Frees(s, steps[0], u)
                                       || (waiting && !ServesNow(s, steps[0], u) && !StrandsNow(s, steps[0], u))))
  }

  lemma {:induction false} StrandedAfter(s: State, steps: seq<Step>, u: string)
    requires Inv(s) && CanRun(s, steps)
    ensures Stranded(Run(s, steps), u) <==> LostLast(s, steps, u, Stranded(s, u))
    decreases |steps|
  {
    if steps != [] {
      StrandedNext(s, steps[0], u);
      NextInv(s, steps[0]);
      StrandedAfter(Next(s, steps[0]), steps[1..], u);
    }
  }

  lemma {:induction false} WaitingAfter(s: State, steps: seq<Step>, u: string)
    requires Inv(s) && CanRun(s, steps)
    ensures Waiting(Run(s, steps), u) <==> WaitsLast(s, steps, u, Waiting(s, u))
    decreases |steps|
  {
    if steps != [] {
      WaitingNext(s, steps[0], u);
      NextInv(s, steps[0]);
      WaitingAfter(Next(s, steps[0]), steps[1..], u);
    }
  }

  /**
   * Over any run from the start: a user can no longer be taken offline exactly when, after its last
   * successful registration and the last restart, that session's task returned early, or has not pushed
   * and the table has grown too large for a frame.
   */
  lemma StuckAfterRun(users: map<string, UserConfig>, disk: seq<Alloc>, steps: seq<Step>, u: string)
    requires Validated(users) && WellFormed(disk) && CanRun(Init(users, disk), steps)
    ensures var s, e := Init(users, disk), Run(Init(users, disk), steps);
            Stuck(e, u) <==>
            LostLast(s, steps, u, false)
            || (WaitsLast(s, steps, u, false) && 12 + TableSize(e.reg.allocs) > Wire.MAX_FRAME)
  {
    var s, e := Init(users, disk), Run(Init(users, disk), steps);
    InitInv(users, disk);
    RunInv(s, steps);
    StuckIff(e, u);
    StrandedAfter(s, steps, u);
    WaitingAfter(s, steps, u);
    CurrentFitsIff(e.reg);
  }

  // ---------- live channels the registry has forgotten ----------

  /** No later handshake of the same user was registered. */
  ghost predicate Latest(s: State, n: Nonce)
    requires n in s.tasks
  {
    forall m :: m in s.tasks && LaterOfUser(s.tasks[n], s.tasks[m]) ==> s.tasks[m].phase == Refused
  }

  ghost predicate LatestKnown(s: State) {
    forall n :: n in s.tasks && Unfinished(s.tasks[n]) && Latest(s, n) ==> Registry.IsCurrent(s.reg, s.tasks[n].user, n)
  }

  /** Tasks of earlier server processes were registered before every unfinished one. */
  ghost predicate GoneIsOlder(s: State) {
    forall m, n :: m in s.tasks && n in s.tasks && s.tasks[m].phase == Gone && Unfinished(s.tasks[n]) ==>
                     s.tasks[m].order < s.tasks[n].order
  }

  lemma RegisterKeepsLatest(s: State, u: string, n: Nonce, diskOk: bool)
    requires Inv(s) && LatestKnown(s) && GoneIsOlder(s) && Enabled(s, Register(u, n, diskOk))
    ensures LatestKnown(Next(s, Register(u, n, diskOk))) && GoneIsOlder(Next(s, Register(u, n, diskOk)))
  {
    RegisterOnline(s, u, n, diskOk);
    NewestKeepsOlder(s, Next(s, Register(u, n, diskOk)), n);
    NewestKeepsLatest(s, Next(s, Register(u, n, diskOk)), u, n);
  }

  lemma NewestKeepsOlder(s: State, s': State, n: Nonce)
    requires OrdersDistinct(s) && GoneIsOlder(s) && n !in s.tasks && n in s'.tasks
    requires s'.tasks == s.tasks[n := s'.tasks[n]] && s'.tasks[n].order == s.clock && s'.tasks[n].phase != Gone
    ensures GoneIsOlder(s')
  {
  }

  /** A new task, ordered after all others, that either takes its user's session or is refused. */
  lemma NewestKeepsLatest(s: State, s': State, u: string, n: Nonce)
    requires OrdersDistinct(s) && LatestKnown(s) && n !in s.tasks && n in s'.tasks
    requires s'.tasks == s.tasks[n := s'.tasks[n]] && s'.tasks[n].user == u && s'.tasks[n].order == s.clock
    requires if At(s', n, Refused) then s'.reg == s.reg
             else At(s', n, Registered) && Registry.IsCurrent(s'.reg, u, n)
                  && forall v, m :: v != u && Registry.IsCurrent(s.reg, v, m) ==> Registry.IsCurrent(s'.reg, v, m)
    ensures LatestKnown(s')
  {
    forall m | m in s'.tasks && m != n && Unfinished(s'.tasks[m]) && Latest(s', m)
      ensures Registry.IsCurrent(s'.reg, s'.tasks[m].user, m)
    {
      StillLatest(s, s', m);
      assert s.tasks[m].order < s.clock;
      assert s.tasks[m].user == u ==> LaterOfUser(s'.tasks[m], s'.tasks[n]);
    }
  }

  /** With more tasks, or the same ones further on, whoever is latest was so before. */
  lemma StillLatest(s: State, s': State, n: Nonce)
    requires n in s.tasks && s.tasks.Keys <= s'.tasks.Keys && Latest(s', n)
    requires forall m :: m in s.tasks ==> s'.tasks[m].user == s.tasks[m].user && s'.tasks[m].order == s.tasks[m].order
    requires forall m :: m in s.tasks && s'.tasks[m].phase == Refused ==> s.tasks[m].phase == Refused
    ensures Latest(s, n)
  {
    forall m | m in s.tasks && LaterOfUser(s.tasks[n], s.tasks[m])
      ensures s.tasks[m].phase == Refused
    {
      assert LaterOfUser(s'.tasks[n], s'.tasks[m]);
    }
  }

  /** Whom a task belongs to and when it registered never changes; unfinished tasks were so before. */
  ghost predicate Follows(s: State, s': State) {
    && s'.tasks.Keys == s.tasks.Keys
    && (forall m :: m in s.tasks ==> s'.tasks[m].user == s.tasks[m].user && s'.tasks[m].order == s.tasks[m].order)
    && (forall m :: m in s.tasks && Unfinished(s'.tasks[m]) ==> Unfinished(s.tasks[m]))
    && (forall m :: m in s.tasks && s'.tasks[m].phase in {Refused, Gone} ==> s'.tasks[m].phase == s.tasks[m].phase)
  }

  lemma TaskFollows(s: State, step: Step, s': State)
    requires !step.Register? && !step.Restart? && OneTask(s, step, s')
    ensures Follows(s, s')
  {
  }

  lemma FollowsKeepsOlder(s: State, s': State)
    requires Follows(s, s') && GoneIsOlder(s)
    ensures GoneIsOlder(s')
  {
  }

  /** A session ends only by the exit of its own task. */
  lemma StillCurrent(s: State, step: Step, s': State, n: Nonce, u: string)
    requires !step.Register? && !step.Restart? && SessionsFollow(s, step, s') && Registry.IsCurrent(s.reg, u, n)
    requires n == step.nonce ==> !step.Exit?
    ensures Registry.IsCurrent(s'.reg, u, n)
  {
  }

  lemma MovesKeepsLatest(s: State, step: Step, s': State)
    requires Moves(s, step, s') && Follows(s, s') && LatestKnown(s)
    ensures LatestKnown(s')
  {
    forall n | n in s'.tasks && Unfinished(s'.tasks[n]) && Latest(s', n)
      ensures Registry.IsCurrent(s'.reg, s'.tasks[n].user, n)
    {
      StillLatest(s, s', n);
      StillCurrent(s, step, s', n, s.tasks[n].user);
    }
  }

  lemma NextKeepsLatest(s: State, step: Step)
    requires Inv(s) && LatestKnown(s) && GoneIsOlder(s) && Enabled(s, step)
    ensures LatestKnown(Next(s, step)) && GoneIsOlder(Next(s, step))
  {
    if step.Register? {
      RegisterKeepsLatest(s, step.user, step.nonce, step.diskOk);
    } else if !step.Restart? {
      StepMoves(s, step);
      TaskFollows(s, step, Next(s, step));
      FollowsKeepsOlder(s, Next(s, step));
      MovesKeepsLatest(s, step, Next(s, step));
    }
  }

  lemma {:induction false} RunKeepsLatest(s: State, steps: seq<Step>)
    requires Inv(s) && LatestKnown(s) && GoneIsOlder(s) && CanRun(s, steps)
    ensures LatestKnown(Run(s, steps)) && GoneIsOlder(Run(s, steps))
    decreases |steps|
  {
    if steps != [] {
      NextInv(s, steps[0]);
      NextKeepsLatest(s, steps[0]);
      RunKeepsLatest(Next(s, steps[0]), steps[1..]);
    }
  }

  /**
   * In every reachable state: an installed handle's session is the registry's current one exactly when no
   * later handshake of its user was registered, whether or not that later one has ended since.
   */
  lemma HandleCurrentIff(users: map<string, UserConfig>, disk: seq<Alloc>, steps: seq<Step>, h: Handle)
    requires Validated(users) && WellFormed(disk) && CanRun(Init(users, disk), steps)
    requires h in Run(Init(users, disk), steps).chans
    ensures var s := Run(Init(users, disk), steps);
            h.k2 in s.tasks && (Registry.IsCurrent(s.reg, h.k1, h.k2) <==> Latest(s, h.k2))
  {
    InitInv(users, disk);
    RunInv(Init(users, disk), steps);
    RunKeepsLatest(Init(users, disk), steps);
    var s := Run(Init(users, disk), steps);
    var n := h.k2;
    if Registry.IsCurrent(s.reg, h.k1, n) {
      forall m | m in s.tasks && LaterOfUser(s.tasks[n], s.tasks[m])
        ensures s.tasks[m].phase == Refused
      {
      }
    }
  }

  /** Session 1 is live and routable while its user is offline, and no other task is unfinished. */
  ghost predicate Forgotten(s: State) {
    && At(s, 1, Live) && MultiMaps.Item("ann", 1, ()) in s.chans && "ann" !in s.reg.online
    && s.tasks.Keys == {1, 2} && At(s, 2, Done)
  }

  /** After an overtaken install and the overtaken session's exit, a live channel's user is offline. */
  lemma ForgottenRun()
    ensures var steps := [Register("ann", 1, true), Register("ann", 2, true), Install(2), Install(1), FirstPush(1),
                          FirstPush(2), Leave(2), Exit(2)];
            CanRun(Init(OneUser(), []), steps) && Forgotten(Run(Init(OneUser(), []), steps))
  {
    var s1, s2 := TwoRegistered();
    var tail := [Install(2), Install(1), FirstPush(1), FirstPush(2), Leave(2), Exit(2)];
    EmptyFits();
    ForgottenInstalls(s2);
    RunCons(s1, Register("ann", 2, true), tail);
    RunCons(Init(OneUser(), []), Register("ann", 1, true), [Register("ann", 2, true)] + tail);
  }

  lemma ForgottenInstalls(s: State)
    requires s.reg.log != [] && At(s, 1, Registered) && At(s, 2, Registered)
    requires s.tasks[1].user == s.tasks[2].user == "ann" && Registry.IsCurrent(s.reg, "ann", 2) && s.chans == {}
    requires s.tasks.Keys == {1, 2} && Fits(Registry.Current(s.reg))
    ensures var steps := [Install(2), Install(1), FirstPush(1), FirstPush(2), Leave(2), Exit(2)];
            CanRun(s, steps) && Forgotten(Run(s, steps))
  {
    var a := Next(s, Install(2));
    var tail := [FirstPush(1), FirstPush(2), Leave(2), Exit(2)];
    ForgottenPushes(Next(a, Install(1)));
    RunCons(a, Install(1), tail);
    RunCons(s, Install(2), [Install(1)] + tail);
  }

  lemma ForgottenPushes(s: State)
    requires s.reg.log != [] && At(s, 1, Starting) && At(s, 2, Starting) && s.tasks[2].user == "ann"
    requires s.tasks.Keys == {1, 2} && Fits(Registry.Current(s.reg))
    requires MultiMaps.Item("ann", 1, ()) in s.chans && Registry.IsCurrent(s.reg, "ann", 2)
    ensures var steps := [FirstPush(1), FirstPush(2), Leave(2), Exit(2)]; CanRun(s, steps) && Forgotten(Run(s, steps))
  {
    var a := Next(s, FirstPush(1));
    TaskMoves(s, FirstPush(1));
    TaskMoves(a, FirstPush(2));
    ForgottenExit(Next(a, FirstPush(2)));
    RunCons(a, FirstPush(2), [Leave(2), Exit(2)]);
    RunCons(s, FirstPush(1), [FirstPush(2), Leave(2), Exit(2)]);
  }

  lemma ForgottenExit(s: State)
    requires s.reg.log != [] && At(s, 1, Live) && At(s, 2, Live) && s.tasks[2].user == "ann"
    requires s.tasks.Keys == {1, 2}
    requires MultiMaps.Item("ann", 1, ()) in s.chans && Registry.IsCurrent(s.reg, "ann", 2)
    ensures CanRun(s, [Leave(2), Exit(2)]) && Forgotten(Run(s, [Leave(2), Exit(2)]))
  {
    var a := Next(s, Leave(2));
    RunCons(a, Exit(2), []);
    RunCons(s, Leave(2), [Exit(2)]);
  }
}

/** Which installed sessions have their handle in the map, told from the run so far. */
module HandleHistory {
  import opened Types
  import opened Allocator
  import Registry
  import MultiMaps
  import opened Server
  import opened ServerProperties
  import opened SessionEnds

  ghost predicate InMap(s: State, n: Nonce) {
    n in s.tasks && MultiMaps.Item(s.tasks[n].user, n, ()) in s.chans
  }

  /** Another handshake of `n`'s user installs, or loses its install, while `n` is installed. */
  ghost predicate Displaces(s: State, step: Step, n: Nonce) {
    && (step.Install? || step.InstallLost?) && step.nonce != n && Installed(s, n)
    && step.nonce in s.tasks && s.tasks[step.nonce].user == s.tasks[n].user
  }

  /** One registered before `n` does. */
  ghost predicate DisplacesEarlier(s: State, step: Step, n: Nonce) {
    Displaces(s, step, n) && s.tasks[step.nonce].order < s.tasks[n].order
  }

  ghost predicate Displaced(s: State, steps: seq<Step>, n: Nonce)
    requires CanRun(s, steps)
    decreases |steps|
  {
    steps != [] && (Displaces(s, steps[0], n) || Displaced(Next(s, steps[0]), steps[1..], n))
  }

  ghost predicate DisplacedByEarlier(s: State, steps: seq<Step>, n: Nonce)
    requires CanRun(s, steps)
    decreases |steps|
  {
    steps != [] && (DisplacesEarlier(s, steps[0], n) || DisplacedByEarlier(Next(s, steps[0]), steps[1..], n))
  }

  /** Before its install a session cannot have been displaced; after it, it has been exactly when its handle is gone. */
  ghost predicate Accounted(s: State, n: Nonce, displaced: bool) {
    if Installed(s, n) then InMap(s, n) <==> !displaced
    else n !in s.tasks || s.tasks[n].phase == Registered ==> !displaced
  }

  lemma MovesAccounted(s: State, step: Step, s': State, n: Nonce, displaced: bool)
    requires Moves(s, step, s') && !step.Install? && !step.InstallLost? && Accounted(s, n, displaced)
    ensures Accounted(s', n, displaced)
  {
  }

  lemma ReplacedAccounted(s: State, step: Step, s': State, n: Nonce, displaced: bool)
    requires Moves(s, step, s') && (step.Install? || step.InstallLost?) && Accounted(s, n, displaced)
    requires var u := s.tasks[step.nonce].user;
             var own := if step.Install? then {MultiMaps.Item(u, step.nonce, ())} else {};
             s'.chans == MultiMaps.Without1(s.chans, u) + own
    ensures Accounted(s', n, displaced || Displaces(s, step, n))
  {
  }

  lemma RegisterAccounted(s: State, u: string, m: Nonce, diskOk: bool, n: Nonce, displaced: bool)
    requires Enabled(s, Register(u, m, diskOk)) && s.users[u].name == u && Accounted(s, n, displaced)
    ensures Accounted(Next(s, Register(u, m, diskOk)), n, displaced)
  {
    RegisterOnline(s, u, m, diskOk);
  }

  lemma NextAccounted(s: State, step: Step, n: Nonce, displaced: bool)
    requires Inv(s) && Enabled(s, step) && Accounted(s, n, displaced)
    ensures Accounted(Next(s, step), n, displaced || Displaces(s, step, n))
  {
    if step.Register? {
      RegisterAccounted(s, step.user, step.nonce, step.diskOk, n, displaced);
    } else if step.Install? || step.InstallLost? {
      TaskMoves(s, step);
      HandleReplaced(s, step);
      ReplacedAccounted(s, step, Next(s, step), n, displaced);
    } else if !step.Restart? {
      StepMoves(s, step);
      MovesAccounted(s, step, Next(s, step), n, displaced);
    }
  }

  lemma {:induction false} RunAccounted(s: State, steps: seq<Step>, n: Nonce, displaced: bool)
    requires Inv(s) && CanRun(s, steps) && Accounted(s, n, displaced)
    ensures Accounted(Run(s, steps), n, displaced || Displaced(s, steps, n))
    decreases |steps|
  {
    if steps != [] {
      NextAccounted(s, steps[0], n, displaced);
      NextInv(s, steps[0]);
      RunAccounted(Next(s, steps[0]), steps[1..], n, displaced || Displaces(s, steps[0], n));
    }
  }

  /**
   * In every reachable state an installed session has its handle in the map exactly when no other handshake
   * of its user installed, or lost its install, after it.
   */
  lemma HandleInMapIff(users: map<string, UserConfig>, disk: seq<Alloc>, steps: seq<Step>, n: Nonce)
    requires Validated(users) && WellFormed(disk) && CanRun(Init(users, disk), steps)
    requires Installed(Run(Init(users, disk), steps), n)
    ensures InMap(Run(Init(users, disk), steps), n) <==> !Displaced(Init(users, disk), steps, n)
  {
    InitInv(users, disk);
    RunAccounted(Init(users, disk), steps, n, false);
  }

  // ---------- a current session is only displaced by earlier handshakes ----------

  /** A handshake of the same user as `n` that registered after it and was not refused. */
  ghost predicate Later(s: State, n: Nonce, m: Nonce) {
    n in s.tasks && m in s.tasks && LaterOfUser(s.tasks[n], s.tasks[m]) && s.tasks[m].phase != Refused
  }

  lemma LaterStays(s: State, step: Step, n: Nonce, m: Nonce)
    requires SessionsOwned(s) && Enabled(s, step) && Later(s, n, m)
    ensures Later(Next(s, step), n, m)
  {
    if !step.Register? && !step.Restart? {
      StepMoves(s, step);
    }
  }

  lemma {:induction false} LaterForever(s: State, steps: seq<Step>, n: Nonce, m: Nonce)
    requires Inv(s) && CanRun(s, steps) && Later(s, n, m)
    ensures Later(Run(s, steps), n, m)
    decreases |steps|
  {
    if steps != [] {
      LaterStays(s, steps[0], n, m);
      NextInv(s, steps[0]);
      LaterForever(Next(s, steps[0]), steps[1..], n, m);
    }
  }

  lemma {:induction false} DisplacedByLater(s: State, steps: seq<Step>, n: Nonce) returns (m: Nonce)
    requires Inv(s) && CanRun(s, steps) && Displaced(s, steps, n) && !DisplacedByEarlier(s, steps, n)
    ensures Later(Run(s, steps), n, m)
    decreases |steps|
  {
    if Displaces(s, steps[0], n) {
      m := steps[0].nonce;
      assert s.tasks[m].order != s.tasks[n].order;
      LaterForever(s, steps, n, m);
    } else {
      NextInv(s, steps[0]);
      m := DisplacedByLater(Next(s, steps[0]), steps[1..], n);
    }
  }

  lemma {:induction false} EarlierIsDisplaced(s: State, steps: seq<Step>, n: Nonce)
    requires CanRun(s, steps) && DisplacedByEarlier(s, steps, n)
    ensures Displaced(s, steps, n)
    decreases |steps|
  {
    if !DisplacesEarlier(s, steps[0], n) {
      EarlierIsDisplaced(Next(s, steps[0]), steps[1..], n);
    }
  }

  /**
   * In every reachable state the two tables agree on a user's current installed session exactly when no
   * earlier handshake of the user installed, or lost its install, after it.
   */
  lemma CurrentInMapIff(users: map<string, UserConfig>, disk: seq<Alloc>, steps: seq<Step>, u: string, n: Nonce)
    requires Validated(users) && WellFormed(disk) && CanRun(Init(users, disk), steps)
    requires var s := Run(Init(users, disk), steps); Registry.IsCurrent(s.reg, u, n) && Installed(s, n)
    ensures MultiMaps.Item(u, n, ()) in Run(Init(users, disk), steps).chans <==>
            !DisplacedByEarlier(Init(users, disk), steps, n)
  {
    var i, s := Init(users, disk), Run(Init(users, disk), steps);
    InitInv(users, disk);
    RunInv(i, steps);
    RunKeepsLatest(i, steps);
    HandleInMapIff(users, disk, steps, n);
    if DisplacedByEarlier(i, steps, n) {
      EarlierIsDisplaced(i, steps, n);
    } else if Displaced(i, steps, n) {
      var m := DisplacedByLater(i, steps, n);
      CurrentIsLatest(s, u, n, m);
    }
  }

  lemma CurrentIsLatest(s: State, u: string, n: Nonce, m: Nonce)
    requires SessionsOwned(s) && GoneIsOlder(s) && Registry.IsCurrent(s.reg, u, n)
    ensures !Later(s, n, m)
  {
  }
}

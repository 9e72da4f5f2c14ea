/** From a server's start: sessions register, clients join, act and end, and whatever is left comes to rest. */
module FleetRuns {
  import opened Types
  import opened Allocator
  import opened Client
  import opened DirectorySize
  import Registry
  import Server
  import Reports
  import SessionView
  import opened Fleet

  datatype Move =
    | OnPeer(i: nat, step: SessionView.Step)
    | Elsewhere(x: Server.Step)                               // clients of sessions that it ends are gone
    | Join(nonce: Nonce, up: set<Port>, disabled: seq<Port>)  // the client reads its registration answer
    | Listen(i: nat, up: set<Port>)                           // other ports accept connections from now on

  /** No push to a peer and no report of one. */
  ghost predicate NoPeers(ps: seq<Peer>, x: Server.Step) {
    forall i :: 0 <= i < |ps| ==> !SessionView.IsPush(x, ps[i].nonce) && !SessionView.IsReport(x, ps[i].nonce)
  }

  ghost predicate CanMove(f: State, move: Move) {
    match move
    case OnPeer(i, step) => Enabled(f, i, step)
    case Elsewhere(x) => Server.Enabled(f.server, x) && NoPeers(f.peers, x)
    case Join(n, _, disabled) =>
      && Server.At(f.server, n, Server.Registered) && StrictlyIncreasing(disabled)
      && forall i :: 0 <= i < |f.peers| ==> f.peers[i].nonce != n
    case Listen(i, _) => i < |f.peers|
  }

  ghost function Kept(ps: seq<Peer>, x: Server.Step): seq<Peer> {
    if ps == [] then []
    else (if SessionView.KeepsSession(x, ps[0].nonce) then [ps[0]] else []) + Kept(ps[1..], x)
  }

  ghost function Moving(f: State, move: Move): State
    requires CanMove(f, move)
  {
    match move
    case OnPeer(i, step) => Next(f, i, step)
    case Elsewhere(x) => State(Server.Next(f.server, x), Kept(f.peers, x))
    case Join(n, up, disabled) => f.(peers := f.peers + [Starting(f.server, n, up, disabled)])
    case Listen(i, up) => f.(peers := f.peers[i := f.peers[i].(up := up)])
  }

  ghost predicate Reachable(f: State) {
    Inv(f) && Server.Inv(f.server) && SessionView.NothingReported(f.server)
  }

  lemma {:induction false} KeptPeers(ps: seq<Peer>, x: Server.Step)
    requires DistinctPeers(ps)
    ensures DistinctPeers(Kept(ps, x))
    ensures forall p :: p in Kept(ps, x) ==> p in ps && SessionView.KeepsSession(x, p.nonce)
  {
    if ps != [] {
      var rest := ps[1..];
      assert forall i :: 0 <= i < |rest| ==> rest[i] == ps[i + 1];
      KeptPeers(rest, x);
      FirstIsNew(ps, Kept(rest, x));
    }
  }

  lemma FirstIsNew(ps: seq<Peer>, kept: seq<Peer>)
    requires ps != [] && DistinctPeers(ps) && DistinctPeers(kept) && forall p :: p in kept ==> p in ps[1..]
    ensures DistinctPeers([ps[0]] + kept)
  {
    forall j | 0 <= j < |kept|
      ensures kept[j].nonce != ps[0].nonce
    {
      assert kept[j] in ps[1..];
      var k :| 0 <= k < |ps[1..]| && ps[1..][k] == kept[j];
      assert ps[k + 1] == kept[j];
    }
  }

  lemma ElsewhereInv(f: State, x: Server.Step)
    requires Reachable(f) && CanMove(f, Elsewhere(x))
    ensures Inv(Moving(f, Elsewhere(x)))
  {
    var kept := Kept(f.peers, x);
    KeptPeers(f.peers, x);
    forall i | 0 <= i < |kept|
      ensures Sound(Server.Next(f.server, x), kept[i])
    {
      assert kept[i] in kept;
      var k :| 0 <= k < |f.peers| && f.peers[k] == kept[i];
      SparedSound(f.server, kept[i], x);
    }
  }

  lemma ServerMoves(s: Server.State, x: Server.Step)
    requires Server.Inv(s) && SessionView.NothingReported(s) && Server.Enabled(s, x)
    ensures Server.Inv(Server.Next(s, x)) && SessionView.NothingReported(Server.Next(s, x))
  {
    Server.NextInv(s, x);
    SessionView.NothingReportedNext(s, x);
  }

  lemma ListenInv(f: State, i: nat, up: set<Port>)
    requires Inv(f) && i < |f.peers|
    ensures Inv(Moving(f, Listen(i, up)))
  {
    var p := f.peers[i];
    assert WholeOf(f.server, p.(up := up)) == WholeOf(f.server, p);
  }

  lemma MoveReachable(f: State, move: Move)
    requires Reachable(f) && CanMove(f, move)
    ensures Reachable(Moving(f, move))
  {
    match move
    case OnPeer(i, step) =>
      NextInv(f, i, step);
      if step.OnServer? {
        ServerMoves(f.server, step.server);
      }
    case Elsewhere(x) =>
      ElsewhereInv(f, x);
      ServerMoves(f.server, x);
    case Join(n, up, disabled) => JoinInv(f, n, up, disabled);
    case Listen(i, up) => ListenInv(f, i, up);
  }

  ghost predicate CanGo(f: State, moves: seq<Move>)
    decreases |moves|
  {
    moves != [] ==> CanMove(f, moves[0]) && CanGo(Moving(f, moves[0]), moves[1..])
  }

  ghost function Go(f: State, moves: seq<Move>): State
    requires CanGo(f, moves)
    decreases |moves|
  {
    if moves == [] then f else Go(Moving(f, moves[0]), moves[1..])
  }

  lemma {:induction false} GoReachable(f: State, moves: seq<Move>)
    requires Reachable(f) && CanGo(f, moves)
    ensures Reachable(Go(f, moves))
    decreases |moves|
  {
    if moves != [] {
      MoveReachable(f, moves[0]);
      GoReachable(Moving(f, moves[0]), moves[1..]);
    }
  }

  /**
   * From a server's start, after any moves of all the server's users and clients: left alone, all sessions
   * together do a bounded number of acts that change anything.
   */
  lemma ReachableQuiesces(users: map<string, UserConfig>, disk: seq<Alloc>, moves: seq<Move>, acts: seq<(nat, Act)>)
    requires Validated(users) && WellFormed(disk) && CanGo(State(Server.Init(users, disk), []), moves)
    requires CanRun(Go(State(Server.Init(users, disk), []), moves), acts)
    ensures Inv(Go(State(Server.Init(users, disk), []), moves))
    ensures var f := Go(State(Server.Init(users, disk), []), moves);
            Inv(Finish(f, acts)) && BusyActs(f, acts) <= Unrest(f)
  {
    Server.InitInv(users, disk);
    GoReachable(State(Server.Init(users, disk), []), moves);
    Quiesces(Go(State(Server.Init(users, disk), []), moves), acts);
  }

  // ---------- what everyone sees in the end ----------

  /** The ports that `n`'s client was last told to keep off: by a toggle, or when it joined. */
  ghost function Choice(f: State, moves: seq<Move>, n: Nonce, d: seq<Port>): seq<Port>
    requires CanGo(f, moves)
    decreases |moves|
  {
    if moves == [] then d else Choice(Moving(f, moves[0]), moves[1..], n, Chosen(f, moves[0], n, d))
  }

  ghost function Chosen(f: State, move: Move, n: Nonce, d: seq<Port>): seq<Port>
    requires CanMove(f, move)
  {
    if move.Join? && move.nonce == n then move.disabled
    else if move.OnPeer? && f.peers[move.i].nonce == n && move.step.OnClient? && move.step.client.DisabledChanged?
    then move.step.client.ports
    else d
  }

  ghost predicate KeepsOff(f: State, n: Nonce, d: seq<Port>) {
    forall i :: 0 <= i < |f.peers| && f.peers[i].nonce == n ==> f.peers[i].st.disabled == d
  }

  lemma StepKeepsOff(f: State, i: nat, step: SessionView.Step, n: Nonce, d: seq<Port>)
    requires DistinctPeers(f.peers) && Enabled(f, i, step) && KeepsOff(f, n, d)
    ensures KeepsOff(Next(f, i, step), n, Chosen(f, OnPeer(i, step), n, d))
  {
    var f' := Next(f, i, step);
    assert forall j :: 0 <= j < |f.peers| && j != i ==> f'.peers[j] == f.peers[j];
    assert f'.peers[i].nonce == f.peers[i].nonce;
    assert f'.peers[i].st.disabled ==
           if step.OnClient? && step.client.DisabledChanged? then step.client.ports else f.peers[i].st.disabled;
  }

  lemma MoveKeepsOff(f: State, move: Move, n: Nonce, d: seq<Port>)
    requires Inv(f) && CanMove(f, move) && KeepsOff(f, n, d)
    ensures KeepsOff(Moving(f, move), n, Chosen(f, move, n, d))
  {
    match move
    case OnPeer(i, step) => StepKeepsOff(f, i, step, n, d);
    case Elsewhere(x) =>
      KeptPeers(f.peers, x);
      var kept := Kept(f.peers, x);
      forall i | 0 <= i < |kept| && kept[i].nonce == n
        ensures kept[i].st.disabled == d
      {
        assert kept[i] in kept;
      }
    case Join(_, _, _) =>
    case Listen(_, _) =>
  }

  lemma {:induction false} GoKeepsOff(f: State, moves: seq<Move>, n: Nonce, d: seq<Port>)
    requires Reachable(f) && CanGo(f, moves) && KeepsOff(f, n, d)
    ensures KeepsOff(Go(f, moves), n, Choice(f, moves, n, d))
    decreases |moves|
  {
    if moves != [] {
      MoveKeepsOff(f, moves[0], n, d);
      MoveReachable(f, moves[0]);
      GoKeepsOff(Moving(f, moves[0]), moves[1..], n, Chosen(f, moves[0], n, d));
    }
  }

  /** The acts of sessions left alone are moves, and none is a toggle. */
  lemma {:induction false} ActsKeepOff(f: State, acts: seq<(nat, Act)>, n: Nonce, d: seq<Port>)
    requires Reachable(f) && CanRun(f, acts) && KeepsOff(f, n, d)
    ensures Reachable(Finish(f, acts)) && KeepsOff(Finish(f, acts), n, d)
    decreases |acts|
  {
    if acts != [] {
      var (i, a) := acts[0];
      var move := OnPeer(i, Do(f.server, f.peers[i], a));
      MoveReachable(f, move);
      MoveKeepsOff(f, move, n, d);
      ActsKeepOff(After(f, i, a), acts[1..], n, d);
    }
  }

  /**
   * From a server's start, after any moves, once the sessions left alone have come to rest: every live client
   * holds the directory of the tables, and of a current session's user it shows as online exactly the keys
   * that the user's configuration asks for, that the client was not last told to keep off and that, for
   * exposed TCP ports, accept connections.
   */
  lemma ReachableAgrees(users: map<string, UserConfig>, disk: seq<Alloc>, moves: seq<Move>, acts: seq<(nat, Act)>,
                        e: State, i: nat, j: nat, m: Mapping)
    requires Validated(users) && WellFormed(disk) && CanGo(State(Server.Init(users, disk), []), moves)
    requires CanRun(Go(State(Server.Init(users, disk), []), moves), acts)
    requires e == Finish(Go(State(Server.Init(users, disk), []), moves), acts) && AllAtRest(e)
    requires e.server.reg.log != [] && Fits(Registry.Current(e.server.reg)) && i < |e.peers| && j < |e.peers|
    requires Server.At(e.server, e.peers[i].nonce, Server.Live) && Server.At(e.server, e.peers[j].nonce, Server.Live)
    requires Registry.IsCurrent(e.server.reg, e.peers[i].st.user, e.peers[i].nonce)
    ensures var reg, dir := e.server.reg, e.peers[j].st.directory;
            && dir == Registry.Directory(reg.allocs, reg.online)
            && (m in dir && m.user == e.peers[i].st.user ==>
                  m.user in e.server.users
                  && (m.online <==>
                      && Wants(e.server.users[m.user], m.key)
                      && m.key.local !in Choice(State(Server.Init(users, disk), []), moves, e.peers[i].nonce, [])
                      && (ExposesTcp(dir, m.user, m.key.local) ==> m.key.local in e.peers[i].up)))
  {
    var f := State(Server.Init(users, disk), []);
    var n := e.peers[i].nonce;
    Server.InitInv(users, disk);
    GoReachable(f, moves);
    GoKeepsOff(f, moves, n, []);
    ActsKeepOff(Go(f, moves), acts, n, Choice(f, moves, n, []));
    EveryoneAgrees(e, i, j, m);
  }
}

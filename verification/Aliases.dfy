/** `Aliases`: the client's local listeners for other users' online TCP mappings, reconciled on every directory. */
module Aliases {
  import opened Types

  /** Local ports of `me`, any protocol, online or not. */
  function Mine(dir: seq<Mapping>, me: string): set<Port> {
    set m | m in dir && m.user == me :: m.key.local
  }

  predicate Aliasable(m: Mapping, me: string) {
    m.online && m.key.proto == Tcp && m.user != me
  }

  function AliasPorts(dir: seq<Mapping>, me: string): set<Port> {
    set m | m in dir && Aliasable(m, me) && m.remote !in Mine(dir, me) :: m.remote
  }

  /** `alias_bind = ""` turns aliases off. */
  function WantedAliases(bindHost: string, dir: seq<Mapping>, me: string): set<Port> {
    if bindHost == "" then {} else AliasPorts(dir, me)
  }

  /** Another user's online TCP service has the remote port, and no own service has that number locally. */
  ghost predicate Reachable(dir: seq<Mapping>, me: string, p: Port) {
    && (exists m :: m in dir && m.remote == p && m.online && m.key.proto == Tcp && m.user != me)
    && (forall x :: x in dir && x.user == me ==> x.key.local != p)
  }

  lemma WantedExactly(bindHost: string, dir: seq<Mapping>, me: string)
    ensures forall p :: p in WantedAliases(bindHost, dir, me) <==> bindHost != "" && Reachable(dir, me, p)
  {
    forall p
      ensures p in WantedAliases(bindHost, dir, me) <==> bindHost != "" && Reachable(dir, me, p)
    {
      if bindHost != "" && Reachable(dir, me, p) {
        var m :| m in dir && m.remote == p && m.online && m.key.proto == Tcp && m.user != me;
        assert Aliasable(m, me);
      }
    }
  }

  /** Running tasks by port, the number of tasks ever spawned, and the tasks aborted. */
  datatype Tasks = Tasks(live: map<Port, nat>, spawned: nat, aborted: set<nat>)

  ghost predicate Runs(live: map<Port, nat>, id: nat) {
    exists p :: p in live && live[p] == id
  }

  /** Every task ever spawned is either in the map, under one port, or aborted. */
  ghost predicate Accounted(t: Tasks) {
    && (forall p, q :: p in t.live && q in t.live && t.live[p] == t.live[q] ==> p == q)
    && (forall p :: p in t.live ==> t.live[p] < t.spawned && t.live[p] !in t.aborted)
    && (forall id :: id in t.aborted ==> id < t.spawned)
    && (forall id: nat :: id < t.spawned && id !in t.aborted ==> Runs(t.live, id))
  }

  /** The tasks under some of the ports. */
  ghost function TasksAt(live: map<Port, nat>, ports: set<Port>): set<nat> {
    set p | p in live && p in ports :: live[p]
  }

  /** What one reconciliation does. */
  ghost predicate Reconciled(t: Tasks, want: set<Port>, t': Tasks) {
    && t'.live.Keys == want
    && (forall p :: p in t.live && p in want ==> t'.live[p] == t.live[p])
    && (forall p :: p in want && p !in t.live ==> t'.live[p] >= t.spawned)
    && t'.aborted == t.aborted + TasksAt(t.live, t.live.Keys - want)
    && t'.spawned >= t.spawned
  }

  class Aliases {
    const bindHost: string
    const me: string
    var tasks: map<Port, nat>
    var spawned: nat
    var aborted: set<nat>

    ghost function Model(): Tasks
      reads this
    {
      Tasks(tasks, spawned, aborted)
    }

    constructor (bindHost: string, me: string)
      ensures Model() == Tasks(map[], 0, {}) && Accounted(Model())
      ensures this.bindHost == bindHost && this.me == me
    {
      this.bindHost, this.me := bindHost, me;
      tasks, spawned, aborted := map[], 0, {};
    }

    method Apply(dir: seq<Mapping>)
      requires Accounted(Model())
      modifies this
      ensures Accounted(Model())
      ensures Reconciled(old(Model()), WantedAliases(bindHost, dir, me), Model())
      ensures forall p :: p in tasks <==> bindHost != "" && Reachable(dir, me, p)
    {
      WantedExactly(bindHost, dir, me);
      var want := if bindHost == "" then {} else AliasPorts(dir, me);
      Close(want);
      Open(want);
    }

    /** Abort one task, midway through `Close`. */
    method Abort(port: Port, ghost t: Tasks, ghost closed: set<Port>)
      requires port in tasks && Closing(t, closed, Model())
      modifies this`tasks, this`aborted
      ensures tasks == old(tasks) - {port} && aborted == old(aborted) + {old(tasks)[port]}
      ensures Closing(t, closed + {port}, Model())
    {
      CloseStep(t, closed, Model(), port);
      aborted := aborted + {tasks[port]};
      tasks := tasks - {port};
    }

    /** Abort the tasks of the ports no longer wanted. */
    method Close(want: set<Port>)
      requires Accounted(Model())
      modifies this`tasks, this`aborted
      ensures Accounted(Model())
      ensures forall p :: p in tasks <==> p in old(tasks) && p in want
      ensures forall p :: p in tasks ==> tasks[p] == old(tasks)[p]
      ensures aborted == old(aborted) + TasksAt(old(tasks), old(tasks).Keys - want)
    {
      ghost var t := Model();
      ghost var closed := {};
      var todo := tasks.Keys;
      while todo != {}
        invariant forall p :: p in todo ==> p in tasks
        invariant forall p :: p in closed <==> p in t.live && p !in todo && p !in want
        invariant Closing(t, closed, Model())
        decreases todo
      {
        var port :| port in todo;
        if port !in want {
          Abort(port, t, closed);
          closed := closed + {port};
        }
        todo := todo - {port};
      }
      assert closed == t.live.Keys - want;
    }

    /** Spawn one task, midway through `Open`. */
    method Spawn(port: Port, ghost t: Tasks, ghost added: set<Port>)
      requires port !in tasks && Opening(t, added, Model())
      modifies this`tasks, this`spawned
      ensures tasks == old(tasks)[port := old(spawned)] && spawned == old(spawned) + 1
      ensures Opening(t, added + {port}, Model())
    {
      OpenStep(t, added, Model(), port);
      tasks := tasks[port := spawned];
      spawned := spawned + 1;
    }

    /** Spawn a task for every wanted port that has none. */
    method Open(want: set<Port>)
      requires Accounted(Model()) && tasks.Keys <= want
      modifies this`tasks, this`spawned
      ensures Accounted(Model()) && tasks.Keys == want
      ensures forall p :: p in old(tasks) ==> tasks[p] == old(tasks)[p]
      ensures forall p :: p in want && p !in old(tasks) ==> tasks[p] >= old(spawned)
      ensures spawned >= old(spawned)
    {
      ghost var t := Model();
      ghost var added := {};
      var todo := want;
      while todo != {}
        invariant forall p :: p in added <==> p in want && p !in todo && p !in t.live
        invariant Opening(t, added, Model())
        decreases todo
      {
        var port :| port in todo;
        if port !in tasks {
          Spawn(port, t, added);
          added := added + {port};
        }
        todo := todo - {port};
      }
    }

    /** `Drop`. */
    method Drop()
      requires Accounted(Model())
      modifies this`aborted
      ensures forall id: nat :: id < spawned ==> id in aborted
    {
      forall id: nat | id < spawned
        ensures id in aborted || id in tasks.Values
      {
        assert id !in aborted ==> Runs(tasks, id);
      }
      aborted := aborted + tasks.Values;
    }
  }

  lemma CloseOne(live: map<Port, nat>, spawned: nat, aborted: set<nat>, port: Port)
    requires Accounted(Tasks(live, spawned, aborted)) && port in live
    ensures Accounted(Tasks(live - {port}, spawned, aborted + {live[port]}))
  {
    forall id: nat | id < spawned && id !in aborted && id != live[port]
      ensures Runs(live - {port}, id)
    {
      assert Runs(live, id);
      var p :| p in live && live[p] == id;
      assert p in live - {port} && (live - {port})[p] == id;
    }
  }

  lemma OpenOne(live: map<Port, nat>, spawned: nat, aborted: set<nat>, port: Port)
    requires Accounted(Tasks(live, spawned, aborted)) && port !in live
    ensures Accounted(Tasks(live[port := spawned], spawned + 1, aborted))
  {
    var more := live[port := spawned];
    assert more[port] == spawned;
    forall id: nat | id < spawned && id !in aborted
      ensures Runs(more, id)
    {
      assert Runs(live, id);
      var p :| p in live && live[p] == id;
      assert p in more && more[p] == id;
    }
  }

  /** Midway through `retain`: the tasks of `closed` are gone and aborted. */
  ghost predicate Closing(t: Tasks, closed: set<Port>, c: Tasks) {
    && Accounted(c) && c.spawned == t.spawned
    && (forall p :: p in c.live <==> p in t.live && p !in closed)
    && (forall p :: p in c.live ==> c.live[p] == t.live[p])
    && c.aborted == t.aborted + TasksAt(t.live, closed)
  }

  lemma CloseStep(t: Tasks, closed: set<Port>, c: Tasks, port: Port)
    requires Closing(t, closed, c) && port in c.live
    ensures Closing(t, closed + {port}, Tasks(c.live - {port}, c.spawned, c.aborted + {c.live[port]}))
  {
    CloseOne(c.live, c.spawned, c.aborted, port);
    assert TasksAt(t.live, closed + {port}) == TasksAt(t.live, closed) + {t.live[port]};
  }

  /** Midway through the spawning loop: the ports of `added` have new tasks. */
  ghost predicate Opening(t: Tasks, added: set<Port>, c: Tasks) {
    && Accounted(c) && c.aborted == t.aborted
    && (forall p :: p in c.live <==> p in t.live || p in added)
    && (forall p :: p in t.live ==> c.live[p] == t.live[p])
    && (forall p :: p in added ==> t.spawned <= c.live[p])
    && c.spawned >= t.spawned
  }

  lemma OpenStep(t: Tasks, added: set<Port>, c: Tasks, port: Port)
    requires Opening(t, added, c) && port !in c.live
    ensures Opening(t, added + {port}, Tasks(c.live[port := c.spawned], c.spawned + 1, c.aborted))
  {
    OpenOne(c.live, c.spawned, c.aborted, port);
  }

  /** A history of reconciliations. */
  ghost predicate History(ts: seq<Tasks>, wants: seq<set<Port>>) {
    && |ts| == |wants| + 1
    && (forall i :: 0 <= i < |ts| ==> Accounted(ts[i]))
    && (forall i, k :: 0 <= i < |wants| && k == i + 1 ==> Reconciled(ts[i], wants[i], ts[k]))
  }

  /** Over any sequence of directories a task runs on, unrestarted, for as long as its port stays wanted. */
  lemma {:induction false} NeverRestarted(ts: seq<Tasks>, wants: seq<set<Port>>, p: Port, i: nat, j: nat)
    requires History(ts, wants) && i <= j <= |wants| && p in ts[i].live
    requires forall x :: i <= x < j ==> p in wants[x]
    ensures p in ts[j].live && ts[j].live[p] == ts[i].live[p]
    decreases j - i
  {
    if i < j {
      assert Reconciled(ts[i], wants[i], ts[i + 1]);
      NeverRestarted(ts, wants, p, i + 1, j);
    }
  }

  /** Once its port is not wanted, a task is aborted for good: it is in no later map. */
  lemma {:induction false} AbortedForGood(ts: seq<Tasks>, wants: seq<set<Port>>, p: Port, i: nat, j: nat)
    requires History(ts, wants) && i < j <= |wants| && p in ts[i].live && p !in wants[i]
    ensures ts[i].live[p] in ts[j].aborted && !Runs(ts[j].live, ts[i].live[p])
    decreases j
  {
    assert Reconciled(ts[j - 1], wants[j - 1], ts[j]) && Accounted(ts[j]);
    if i < j - 1 {
      AbortedForGood(ts, wants, p, i, j - 1);
    } else {
      assert ts[i].live[p] in TasksAt(ts[i].live, ts[i].live.Keys - wants[i]);
    }
  }

  /** After any history of directories no running alias shadows an own port that the last of them exposes. */
  lemma NoOwnPortShadowed(ts: seq<Tasks>, dirs: seq<seq<Mapping>>, bindHost: string, me: string, i: nat, m: Mapping)
    requires i < |dirs| && m in dirs[i] && m.user == me
    requires History(ts, seq(|dirs|, k requires 0 <= k < |dirs| => WantedAliases(bindHost, dirs[k], me)))
    ensures m.key.local !in ts[i + 1].live
  {
    var wants := seq(|dirs|, k requires 0 <= k < |dirs| => WantedAliases(bindHost, dirs[k], me));
    assert Reconciled(ts[i], wants[i], ts[i + 1]);
  }
}

/** Where the aliases lead. */
module AliasTargets {
  import opened Types
  import opened Aliases
  import Registry
  import Server
  import ServerProperties

  /** On a directory of a reachable server an aliased port is online exactly once, for another user's TCP service. */
  lemma AliasHasOneTarget(s: Server.State, me: string, p: Port) returns (target: Mapping)
    requires Server.Inv(s) && Reachable(Registry.Current(s.reg), me, p)
    ensures var dir := Registry.Current(s.reg);
            && target in dir && target.online && target.remote == p && target.user != me && target.key.proto == Tcp
            && forall m :: m in dir && m.online && m.remote == p ==> m == target
  {
    ServerProperties.OnlineRowsExclusive(s);
    var dir := Registry.Current(s.reg);
    target :| target in dir && target.remote == p && target.online && target.key.proto == Tcp && target.user != me;
  }

  /**
   * So the tasks left running after a directory of a reachable server are one for each service that can be
   * reached: an online TCP service of another user runs under its own port unless that is an own local port.
   */
  lemma RunningAliases(s: Server.State, bindHost: string, me: string, t: Tasks, t': Tasks, m: Mapping)
    requires Server.Inv(s) && bindHost != "" && Reconciled(t, WantedAliases(bindHost, Registry.Current(s.reg), me), t')
    requires m in Registry.Current(s.reg) && m.online && m.key.proto == Tcp && m.user != me
    ensures m.remote in t'.live <==>
            forall x :: x in Registry.Current(s.reg) && x.user == me ==> x.key.local != m.remote
    ensures forall x :: x in Registry.Current(s.reg) && x.online && x.remote == m.remote ==> x == m
  {
    ServerProperties.OnlineRowsExclusive(s);
    WantedExactly(bindHost, Registry.Current(s.reg), me);
  }

  /** Turned off, no alias runs, and every one that ran is aborted. */
  lemma AliasesOff(dir: seq<Mapping>, me: string, t: Tasks, t': Tasks)
    requires Accounted(t) && Reconciled(t, WantedAliases("", dir, me), t')
    ensures t'.live == map[] && forall p :: p in t.live ==> t.live[p] in t'.aborted
  {
    assert t'.live.Keys == {};
  }
}

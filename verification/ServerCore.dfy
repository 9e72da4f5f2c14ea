/** The server's shared objects: each critical section, run on them, is one step of the protocol. */
module ServerCore {
  import opened Types
  import opened Allocator
  import Registry
  import MultiMaps
  import Server
  import opened DirectorySize
  import opened Streams
  import opened Wire
  import opened Bytes

  type Nonce = Registry.Nonce

  /** What becomes of a data channel. */
  datatype Routed = Delivered | StaleChannel | WrongNonce

  /** `users` is fixed for the life of a server; `tasks` and `clock` record the tasks for the specification. */
  class Core {
    const users: map<string, UserConfig>
    const registry: Registry.Registry
    const chans: MultiMaps.MultiMap<string, Nonce, ()>
    ghost var tasks: map<Nonce, Server.Task>
    ghost var clock: nat

    ghost function State(): Server.State
      reads this, registry, chans
    {
      Server.State(users, registry.Model(), chans.Contents(), tasks, clock)
    }

    ghost predicate Valid()
      reads this, registry, chans
    {
      registry.Valid() && chans.Valid() && Server.Inv(State())
    }

    constructor (users: map<string, UserConfig>, file: Option<seq<Alloc>>)
      requires Validated(users) && (file.Some? ==> WellFormed(file.value))
      ensures Valid() && fresh(registry) && fresh(chans)
      ensures State() == Server.Init(users, if file.None? then [] else file.value)
    {
      this.users := users;
      registry := new Registry.Registry.Load(file);
      chans := new MultiMaps.MultiMap();
      tasks, clock := map[], 0;
      new;
      Server.InitInv(users, if file.None? then [] else file.value);
    }

    /** Under the registry lock: allocate, and subscribe to the directory. */
    method Register(user: string, nonce: Nonce, diskOk: bool) returns (r: Registry.Outcome)
      requires Valid() && Server.Enabled(State(), Server.Register(user, nonce, diskOk))
      modifies this, registry
      ensures Valid()
      ensures State() == Server.Next(old(State()), Server.Register(user, nonce, diskOk))
      ensures r == Registry.DoRegister(old(registry.Model()), users[user], nonce, diskOk).1
    {
      ghost var step := Server.Register(user, nonce, diskOk);
      Server.NextInv(State(), step);
      ghost var next := Server.Next(State(), step);
      r := registry.Register(users[user], nonce, diskOk);
      tasks, clock := next.tasks, next.clock;
    }

    /** Under the map lock: drop the user's previous handle and insert this one. */
    method Install(nonce: Nonce, user: string)
      requires Valid() && Server.Enabled(State(), Server.Install(nonce)) && user == tasks[nonce].user
      modifies this, chans
      ensures Valid()
      ensures State() == Server.Next(old(State()), Server.Install(nonce))
    {
      Replace(nonce, user);
      tasks := tasks[nonce := tasks[nonce].(phase := Server.Starting)];
      InstallIs(old(State()), nonce, user, State());
    }

    /** The bind address does not parse: the previous handle has been dropped, and none is inserted. */
    method InstallLost(nonce: Nonce, user: string)
      requires Valid() && Server.Enabled(State(), Server.InstallLost(nonce)) && user == tasks[nonce].user
      modifies this, chans
      ensures Valid()
      ensures State() == Server.Next(old(State()), Server.InstallLost(nonce))
    {
      Server.NextInv(State(), Server.InstallLost(nonce));
      ghost var next := Server.Next(State(), Server.InstallLost(nonce));
      var dropped := chans.Remove1(user);
      tasks := next.tasks;
    }

    method Replace(nonce: Nonce, user: string)
      requires chans.Valid()
      modifies chans
      ensures chans.Valid()
      ensures chans.Contents()
           == MultiMaps.Step(MultiMaps.Without1(old(chans.Contents()), user), MultiMaps.Insert(user, nonce, ())).0
    {
      var dropped := chans.Remove1(user);
      var _ := chans.Insert(user, nonce, ());
    }

    /** Registry lock, from the select loop. */
    method Report(nonce: Nonce, user: string, ports: seq<Port>)
      requires Valid() && Server.Enabled(State(), Server.Report(nonce, ports)) && user == tasks[nonce].user
      modifies registry
      ensures Valid()
      ensures State() == Server.Next(old(State()), Server.Report(nonce, ports))
    {
      Server.NextInv(State(), Server.Report(nonce, ports));
      registry.SetDisabled(user, nonce, ports);
    }

    /**
     * Write the directory: the first push, or a newer version than the last one seen. A first push that
     * fails abandons the task; a later one ends the select loop, which leaves the state to `Leave`.
     */
    method Push(nonce: Nonce, w: Stream) returns (r: Written)
      requires Valid() && Pushable(State(), nonce)
      modifies this, w
      ensures Valid()
      ensures r == TooLarge <==> !Fits(Registry.Directory(registry.allocs, registry.online))
      ensures State() == AfterPush(old(State()), nonce, r)
      ensures r != TooLarge ==>
                var f := DirectoryFrame(Registry.Directory(registry.allocs, registry.online));
                (r == Done <==> |f| <= old(w.room)) && w.data == old(w.data) + if r == Done then f else f[..old(w.room)]
    {
      ghost var s := State();
      r := WriteFrame(w, ControlCmdCodec(), Directory(registry.published));
      PushIs(s, nonce, r);
      tasks := AfterPush(s, nonce, r).tasks;
    }

    /**
     * A data channel reaches the session of its nonce while that session's handle is installed, and no other;
     * `receiving` is whether the session's pools still take channels.
     */
    method Route(nonce: Nonce, receiving: bool) returns (r: Routed)
      requires Valid()
      ensures r.WrongNonce? <==> !MultiMaps.Has2(chans.Contents(), nonce)
      ensures !r.WrongNonce? ==> nonce in tasks && MultiMaps.Item(tasks[nonce].user, nonce, ()) in chans.Contents()
      ensures !r.WrongNonce? ==> r == if receiving then Delivered else StaleChannel
    {
      var handle := chans.Get2(nonce);
      if handle.None? {
        return WrongNonce;
      }
      HandleIsOwn(State(), nonce);
      return if receiving then Delivered else StaleChannel;
    }

    /** Map lock, on exit. */
    method Leave(nonce: Nonce)
      requires Valid() && Server.Enabled(State(), Server.Leave(nonce))
      modifies this, chans
      ensures Valid() && State() == Server.Next(old(State()), Server.Leave(nonce))
    {
      Server.NextInv(State(), Server.Leave(nonce));
      ghost var next := Server.Next(State(), Server.Leave(nonce));
      var removed := chans.Remove2(nonce);
      tasks := next.tasks;
    }

    /** Registry lock, on exit. */
    method Exit(nonce: Nonce, user: string)
      requires Valid() && Server.Enabled(State(), Server.Exit(nonce)) && user == tasks[nonce].user
      modifies this, registry
      ensures Valid() && State() == Server.Next(old(State()), Server.Exit(nonce))
    {
      Server.NextInv(State(), Server.Exit(nonce));
      ghost var next := Server.Next(State(), Server.Exit(nonce));
      registry.Unregister(user, nonce);
      tasks := next.tasks;
    }
  }

  ghost function DirectoryFrame(dir: seq<Mapping>): seq<Byte>
    requires Fits(dir)
  {
    Frame(ControlCmdCodec(), Directory(dir)).value
  }

  /** A task that has a directory to push. */
  ghost predicate Pushable(s: Server.State, n: Nonce) {
    && s.reg.log != []
    && (Server.At(s, n, Server.Starting) || (Server.At(s, n, Server.Live) && s.tasks[n].seen < |s.reg.log| - 1))
  }

  /** What the protocol makes of a push that was written, or was not. */
  ghost function AfterPush(s: Server.State, n: Nonce, r: Written): Server.State
    requires Pushable(s, n) && (r == Done ==> Fits(Registry.Current(s.reg)))
  {
    if r == Done then
      Server.Next(s, if s.tasks[n].phase == Server.Starting then Server.FirstPush(n) else Server.Push(n))
    else if s.tasks[n].phase == Server.Starting then Server.Next(s, Server.FirstPushLost(n))
    else s
  }

  lemma PushIs(s: Server.State, n: Nonce, r: Written)
    requires Server.Inv(s) && Pushable(s, n) && (r == Done ==> Fits(Registry.Current(s.reg)))
    ensures Server.Inv(AfterPush(s, n, r))
    ensures AfterPush(s, n, r) == s.(tasks := AfterPush(s, n, r).tasks)
  {
    if r == Done {
      Server.NextInv(s, if s.tasks[n].phase == Server.Starting then Server.FirstPush(n) else Server.Push(n));
    } else if s.tasks[n].phase == Server.Starting {
      Server.NextInv(s, Server.FirstPushLost(n));
    }
  }

  lemma InstallIs(s: Server.State, n: Nonce, u: string, s': Server.State)
    requires Server.Inv(s) && Server.Enabled(s, Server.Install(n)) && u == s.tasks[n].user
    requires s' == s.(tasks := s.tasks[n := s.tasks[n].(phase := Server.Starting)],
                      chans := MultiMaps.Step(MultiMaps.Without1(s.chans, u), MultiMaps.Insert(u, n, ())).0)
    ensures s' == Server.Next(s, Server.Install(n)) && Server.Inv(s')
  {
    Server.NextInv(s, Server.Install(n));
  }

  /** A handle found under a nonce is filed under the user of that nonce's task. */
  lemma HandleIsOwn(s: Server.State, n: Nonce)
    requires Server.ChannelsOwned(s) && MultiMaps.Has2(s.chans, n)
    ensures n in s.tasks && MultiMaps.Item(s.tasks[n].user, n, ()) in s.chans
  {
    var h :| h in s.chans && h.k2 == n;
    match h
    case Item(u, _, ()) => assert h == MultiMaps.Item(u, n, ());
  }
}

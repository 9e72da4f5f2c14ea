/** What the client computes from its state: the ports it reports as unavailable. */
module Client {
  import opened Types
  import opened Sorting

  /** The part of `ClientState` the reports depend on. */
  datatype ClientState = ClientState(user: string, directory: seq<Mapping>, listening: seq<Port>, disabled: seq<Port>)

  predicate OwnTcp(m: Mapping, me: string) {
    m.user == me && m.key.proto == Tcp
  }

  // ---------- turning ports off and on ----------

  function Retain(v: seq<Port>, port: Port): seq<Port> {
    if v == [] then [] else if v[0] == port then Retain(v[1..], port) else [v[0]] + Retain(v[1..], port)
  }

  function SetPortEnabled(v: seq<Port>, port: Port, enabled: bool): seq<Port> {
    var r := Retain(v, port);
    if enabled then r else SortBy(r + [port], PortLeq)
  }

  lemma {:induction false} RetainExact(v: seq<Port>, port: Port)
    ensures forall p :: p in Retain(v, port) <==> p in v && p != port
    ensures StrictlyIncreasing(v) ==> StrictlyIncreasing(Retain(v, port))
  {
    if v != [] {
      RetainExact(v[1..], port);
      assert v == [v[0]] + v[1..];
      if StrictlyIncreasing(v) {
        var r := Retain(v[1..], port);
        assert StrictlyIncreasing(v[1..]);
        forall j | 0 <= j < |r|
          ensures v[0] < r[j]
        {
          assert r[j] in r;
          var i :| 0 <= i < |v[1..]| && v[1..][i] == r[j];
          assert v[i + 1] == r[j];
        }
      }
    }
  }

  /** Toggling one port changes only its membership and keeps the list strictly increasing. */
  lemma SetPortEnabledExact(v: seq<Port>, port: Port, enabled: bool)
    requires StrictlyIncreasing(v)
    ensures StrictlyIncreasing(SetPortEnabled(v, port, enabled))
    ensures forall p :: p in SetPortEnabled(v, port, enabled) <==> if p == port then !enabled else p in v
  {
    RetainExact(v, port);
    var r := Retain(v, port);
    if !enabled {
      assert Distinct(r + [port]) by {
        assert forall i :: 0 <= i < |r| ==> r[i] in r;
      }
      PortLeqOrder();
      SortSorted(r + [port], PortLeq);
      SortElements(r + [port], PortLeq);
      SortDistinct(r + [port], PortLeq);
    }
  }

  // ---------- unavailable ports ----------

  /** The loop of `unavailable_ports`: own TCP ports nothing listens on, each added once. */
  function AddDown(dir: seq<Mapping>, me: string, listening: seq<Port>, v: seq<Port>): seq<Port>
    decreases |dir|
  {
    if dir == [] then v
    else
      var p := dir[0].key.local;
      AddDown(dir[1..], me, listening, if OwnTcp(dir[0], me) && p !in listening && p !in v then v + [p] else v)
  }

  function Unavailable(st: ClientState): seq<Port> {
    SortBy(AddDown(st.directory, st.user, st.listening, st.disabled), PortLeq)
  }

  method UnavailablePorts(st: ClientState) returns (v: seq<Port>)
    ensures v == Unavailable(st)
  {
    v := st.disabled;
    for i := 0 to |st.directory|
      invariant AddDown(st.directory[i..], st.user, st.listening, v)
             == AddDown(st.directory, st.user, st.listening, st.disabled)
    {
      assert st.directory[i..][1..] == st.directory[i + 1..];
      var m := st.directory[i];
      if m.user == st.user && m.key.proto == Tcp && m.key.local !in st.listening && m.key.local !in v {
        v := v + [m.key.local];
      }
    }
    v := SortBy(v, PortLeq);
  }

  /** An own TCP port of `dir`, online or not. */
  ghost predicate ExposesTcp(dir: seq<Mapping>, me: string, p: Port) {
    exists m :: m in dir && m.user == me && m.key == Key(Tcp, p)
  }

  lemma {:induction false} AddDownExact(dir: seq<Mapping>, me: string, listening: seq<Port>, v: seq<Port>)
    requires Distinct(v)
    ensures Distinct(AddDown(dir, me, listening, v))
    ensures forall p :: p in AddDown(dir, me, listening, v) <==> p in v || (ExposesTcp(dir, me, p) && p !in listening)
    decreases |dir|
  {
    if dir != [] {
      var p0 := dir[0].key.local;
      var v' := if OwnTcp(dir[0], me) && p0 !in listening && p0 !in v then v + [p0] else v;
      AddDownExact(dir[1..], me, listening, v');
      assert dir == [dir[0]] + dir[1..];
      forall p: Port
        ensures ExposesTcp(dir, me, p) <==> ExposesTcp(dir[1..], me, p) || (OwnTcp(dir[0], me) && p == p0)
      {
        if OwnTcp(dir[0], me) && p == p0 {
          assert dir[0] in dir;
        }
        if ExposesTcp(dir[1..], me, p) {
          var m :| m in dir[1..] && m.user == me && m.key == Key(Tcp, p);
          assert m in dir;
        }
      }
    }
  }

  /** Exactly the ports turned off and the own TCP ports nothing listens on, in increasing order. */
  lemma UnavailableExact(st: ClientState)
    requires StrictlyIncreasing(st.disabled)
    ensures StrictlyIncreasing(Unavailable(st))
    ensures forall p :: p in Unavailable(st) <==>
                        p in st.disabled || (ExposesTcp(st.directory, st.user, p) && p !in st.listening)
  {
    var v := AddDown(st.directory, st.user, st.listening, st.disabled);
    AddDownExact(st.directory, st.user, st.listening, st.disabled);
    PortLeqOrder();
    SortSorted(v, PortLeq);
    SortElements(v, PortLeq);
    SortDistinct(v, PortLeq);
  }

  /** So the list is a function of that set: two states that mean the same report the same list. */
  lemma UnavailableCanonical(a: ClientState, b: ClientState)
    requires StrictlyIncreasing(a.disabled) && StrictlyIncreasing(b.disabled)
    requires forall p: Port :: (p in a.disabled || (ExposesTcp(a.directory, a.user, p) && p !in a.listening)) <==>
                               (p in b.disabled || (ExposesTcp(b.directory, b.user, p) && p !in b.listening))
    ensures Unavailable(a) == Unavailable(b)
  {
    UnavailableExact(a);
    UnavailableExact(b);
    PortLeqOrder();
    SortedUnique(Unavailable(a), Unavailable(b), PortLeq);
  }

  // ---------- probing ----------

  /** `probe_listening` when exactly the local ports in `up` accept connections. */
  function Probe(dir: seq<Mapping>, me: string, up: set<Port>, v: seq<Port>): seq<Port>
    decreases |dir|
  {
    if dir == [] then v
    else
      var p := dir[0].key.local;
      Probe(dir[1..], me, up, if OwnTcp(dir[0], me) && p !in v && p in up then v + [p] else v)
  }

  lemma {:induction false} ProbeExact(dir: seq<Mapping>, me: string, up: set<Port>, v: seq<Port>)
    ensures forall p :: p in Probe(dir, me, up, v) <==> p in v || (ExposesTcp(dir, me, p) && p in up)
    decreases |dir|
  {
    if dir != [] {
      var p0 := dir[0].key.local;
      ProbeExact(dir[1..], me, up, if OwnTcp(dir[0], me) && p0 !in v && p0 in up then v + [p0] else v);
      assert dir == [dir[0]] + dir[1..];
      forall p: Port
        ensures ExposesTcp(dir, me, p) <==> ExposesTcp(dir[1..], me, p) || (OwnTcp(dir[0], me) && p == p0)
      {
        if OwnTcp(dir[0], me) && p == p0 {
          assert dir[0] in dir;
        }
        if ExposesTcp(dir[1..], me, p) {
          var m :| m in dir[1..] && m.user == me && m.key == Key(Tcp, p);
          assert m in dir;
        }
      }
    }
  }

  /** What the client would report after handling directory `dir` while the ports in `up` accept. */
  function Want(user: string, disabled: seq<Port>, dir: seq<Mapping>, up: set<Port>): seq<Port> {
    Unavailable(ClientState(user, dir, Probe(dir, user, up, []), disabled))
  }

  /** It depends only on which own TCP ports the directory lists, so never on `online`. */
  lemma WantIgnoresOnline(user: string, disabled: seq<Port>, d1: seq<Mapping>, d2: seq<Mapping>, up: set<Port>)
    requires StrictlyIncreasing(disabled)
    requires forall p :: ExposesTcp(d1, user, p) <==> ExposesTcp(d2, user, p)
    ensures Want(user, disabled, d1, up) == Want(user, disabled, d2, up)
  {
    ProbeExact(d1, user, up, []);
    ProbeExact(d2, user, up, []);
    UnavailableCanonical(ClientState(user, d1, Probe(d1, user, up, []), disabled),
                         ClientState(user, d2, Probe(d2, user, up, []), disabled));
  }
}

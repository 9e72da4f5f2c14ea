/**
 * `Registry`: the allocation table, the online sessions and the published directory.
 *
 * The value functions (`LoadState`, `DoRegister`, `DoUnregister`, `DoSetDisabled`) are the specification;
 * the class updates its fields step by step as the source does and is proved against them.
 */
module Registry {
  import opened Types
  import opened Sorting
  import opened Allocator

  /** A session key. Only equality matters; the source's keys are 32-byte digests. */
  type Nonce = nat

  datatype Session = Session(nonce: Nonce, ports: seq<Key>, disabled: seq<Port>)

  /** `log` is every value the directory watch has held; the last one is the current value. */
  datatype State = State(allocs: seq<Alloc>, disk: seq<Alloc>, online: map<string, Session>, log: seq<seq<Mapping>>)

  datatype Outcome = Registered(mappings: seq<Mapping>) | Exhausted | PersistFailed

  /** What reading the allocation file gives. */
  datatype FileRead = NotFound | Unreadable | Malformed | Table(rows: seq<Alloc>)

  // ---------- the directory ----------

  predicate IsOnline(online: map<string, Session>, user: string, k: Key) {
    user in online && k in online[user].ports && k.local !in online[user].disabled
  }

  function Row(a: Alloc, online: map<string, Session>): Mapping {
    Mapping(a.user, a.key, a.remote, IsOnline(online, a.user, a.key))
  }

  function Rows(t: seq<Alloc>, online: map<string, Session>): seq<Mapping> {
    seq(|t|, i requires 0 <= i < |t| => Row(t[i], online))
  }

  predicate MappingLeq(a: Mapping, b: Mapping) {
    StringLeq(a.user, b.user) && (a.user == b.user ==> a.remote <= b.remote)
  }

  function Directory(t: seq<Alloc>, online: map<string, Session>): seq<Mapping> {
    SortBy(Rows(t, online), MappingLeq)
  }

  lemma MappingLeqTotal()
    ensures Total(MappingLeq)
  {
    forall a: Mapping, b: Mapping
      ensures MappingLeq(a, b) || MappingLeq(b, a)
    {
      StringLeqTotal(a.user, b.user);
    }
    forall a: Mapping, b: Mapping, c: Mapping | MappingLeq(a, b) && MappingLeq(b, c)
      ensures MappingLeq(a, c)
    {
      StringLeqTransitive(a.user, b.user, c.user);
      if a.user == c.user {
        StringLeqTotal(a.user, b.user);
      }
    }
  }

  /** Users in the order of their names, and each user's rows by remote port. */
  ghost predicate ByUserAndPort(dir: seq<Mapping>) {
    forall i, j :: 0 <= i < j < |dir| ==>
                     && StringLeq(dir[i].user, dir[j].user)
                     && (dir[i].user == dir[j].user ==> dir[i].remote <= dir[j].remote)
  }

  /** The directory is exactly the table with each row's online flag, sorted by user and remote port. */
  lemma DirectoryRows(t: seq<Alloc>, online: map<string, Session>)
    ensures |Directory(t, online)| == |t|
    ensures forall m :: m in Directory(t, online) <==>
                        Alloc(m.user, m.key, m.remote) in t && m.online == IsOnline(online, m.user, m.key)
    ensures Sorted(Directory(t, online), MappingLeq) && ByUserAndPort(Directory(t, online))
  {
    var rows := Rows(t, online);
    SortElements(rows, MappingLeq);
    MappingLeqTotal();
    SortSorted(rows, MappingLeq);
    forall m
      ensures m in rows <==> Alloc(m.user, m.key, m.remote) in t && m.online == IsOnline(online, m.user, m.key)
    {
      if Alloc(m.user, m.key, m.remote) in t && m.online == IsOnline(online, m.user, m.key) {
        var i :| 0 <= i < |t| && t[i] == Alloc(m.user, m.key, m.remote);
        assert rows[i] == m;
      }
    }
  }

  /** On a well-formed table no two rows share a user and a key, or a user and a remote port. */
  lemma DirectoryDistinct(t: seq<Alloc>, online: map<string, Session>)
    requires WellFormed(t)
    ensures Distinct(Directory(t, online))
    ensures forall a, b ::
              a in Directory(t, online) && b in Directory(t, online) && a.user == b.user &&
              (a.key == b.key || a.remote == b.remote)
              ==> a == b
  {
    var rows := Rows(t, online);
    assert Distinct(rows);
    SortDistinct(rows, MappingLeq);
    DirectoryRows(t, online);
    forall a, b | a in Directory(t, online) && b in Directory(t, online) && a.user == b.user &&
                  (a.key == b.key || a.remote == b.remote)
      ensures a == b
    {
      var i :| 0 <= i < |t| && t[i] == Alloc(a.user, a.key, a.remote);
      var j :| 0 <= j < |t| && t[j] == Alloc(b.user, b.key, b.remote);
    }
  }

  // ---------- the operations, on values ----------

  function Current(s: State): seq<Mapping>
    requires s.log != []
  {
    s.log[|s.log| - 1]
  }

  function Publish(s: State): State {
    s.(log := s.log + [Directory(s.allocs, s.online)])
  }

  /** Start from the persisted table: the watch is created empty, then the directory is published. */
  function LoadState(disk: seq<Alloc>): State {
    Publish(State(disk, disk, map[], [[]]))
  }

  function OwnRows(dir: seq<Mapping>, user: string): seq<Mapping> {
    if dir == [] then []
    else if dir[0].user == user && dir[0].online then [dir[0]] + OwnRows(dir[1..], user)
    else OwnRows(dir[1..], user)
  }

  /** `diskOk` is the outcome of the file write, should one be needed. */
  function DoRegister(s: State, cfg: UserConfig, nonce: Nonce, diskOk: bool): (State, Outcome) {
    var w := Wanted(cfg);
    var r := PlaceAll(s.allocs, false, cfg.name, cfg.lo, cfg.hi, w);
    if r.Full? then (s, Exhausted)
    else if r.changed && !diskOk then (s, PersistFailed)
    else
      var s1 := if r.changed then s.(allocs := r.table, disk := r.table) else s;
      var s2 := Publish(s1.(online := s1.online[cfg.name := Session(nonce, w, [])]));
      (s2, Registered(OwnRows(Directory(s2.allocs, s2.online), cfg.name)))
  }

  predicate IsCurrent(s: State, user: string, nonce: Nonce) {
    user in s.online && s.online[user].nonce == nonce
  }

  function DoUnregister(s: State, user: string, nonce: Nonce): State {
    if IsCurrent(s, user, nonce) then Publish(s.(online := s.online - {user})) else s
  }

  function DoSetDisabled(s: State, user: string, nonce: Nonce, disabled: seq<Port>): State {
    if IsCurrent(s, user, nonce)
    then Publish(s.(online := s.online[user := s.online[user].(disabled := disabled)]))
    else s
  }

  // ---------- the class ----------

  class Registry {
    var allocs: seq<Alloc>
    var disk: seq<Alloc>
    var online: map<string, Session>
    var published: seq<Mapping>
    ghost var log: seq<seq<Mapping>>

    ghost function Model(): State
      reads this
    {
      State(allocs, disk, online, log)
    }

    /** The watch value is the directory of the current tables. */
    ghost predicate Valid()
      reads this
    {
      log != [] && published == log[|log| - 1] && published == Directory(allocs, online)
    }

    /** `file` is the content of the allocation file, or `None` if there is none. */
    constructor Load(file: Option<seq<Alloc>>)
      ensures Valid()
      ensures Model() == LoadState(if file.None? then [] else file.value)
    {
      allocs := if file.None? then [] else file.value;
      disk := allocs;
      online := map[];
      published := [];
      log := [[]];
      new;
      PublishNow();
    }

    method PublishNow()
      modifies this`published, this`log
      ensures Valid() && Model() == Publish(old(Model()))
    {
      published := Directory(allocs, online);
      log := log + [published];
    }

    method Register(cfg: UserConfig, nonce: Nonce, diskOk: bool) returns (r: Outcome)
      requires Valid()
      modifies this
      ensures Valid()
      ensures (Model(), r) == DoRegister(old(Model()), cfg, nonce, diskOk)
    {
      var raw := Keys(Tcp, cfg.tcpPorts) + Keys(Udp, cfg.udpPorts);
      var wanted := Dedup(SortBy(raw, KeyLeq));
      wanted := SortBy(wanted, (a, b) => PhaseLeq(cfg.lo, cfg.hi, a, b));
      ghost var goal := PlaceAll(allocs, false, cfg.name, cfg.lo, cfg.hi, wanted);

      // A copy: a failed write or an exhausted block leaves the table untouched
      var table := allocs;
      var changed := false;
      for n := 0 to |wanted|
        invariant PlaceAll(table, changed, cfg.name, cfg.lo, cfg.hi, wanted[n..]) == goal
        invariant Valid() && Model() == old(Model())
      {
        var k := wanted[n];
        assert wanted[n..][1..] == wanted[n + 1..];
        ghost var placed := Place(table, changed, cfg.name, cfg.lo, cfg.hi, k);
        var existing := Position(table, cfg.name, k);
        if existing.Some? && InBlock(table[existing.value].remote, cfg.lo, cfg.hi) {
          continue;
        }
        ghost var rest := Evict(table, existing);
        if existing.Some? {
          table := table[..existing.value] + table[existing.value + 1..];
        }
        assert table == rest && placed == Append(rest, cfg.name, cfg.lo, cfg.hi, k);
        var used := UsedPorts(table, cfg.name);
        var port := None;
        if InBlock(k.local, cfg.lo, cfg.hi) && k.local !in used {
          port := Some(k.local);
        } else {
          port := LowestFree(cfg.lo, cfg.hi, used);
        }
        if port.None? {
          return Exhausted;
        }
        table := table + [Alloc(cfg.name, k, port.value)];
        changed := true;
        assert placed == Placing(table, changed);
      }
      if changed {
        if !diskOk {
          return PersistFailed;
        }
        disk := table;
        allocs := table;
      }
      online := online[cfg.name := Session(nonce, wanted, [])];
      PublishNow();
      r := Registered(OwnRows(Directory(allocs, online), cfg.name));
    }

    method Unregister(user: string, nonce: Nonce)
      requires Valid()
      modifies this
      ensures Valid() && Model() == DoUnregister(old(Model()), user, nonce)
    {
      if user in online && online[user].nonce == nonce {
        online := online - {user};
        PublishNow();
      }
    }

    method SetDisabled(user: string, nonce: Nonce, disabled: seq<Port>)
      requires Valid()
      modifies this
      ensures Valid() && Model() == DoSetDisabled(old(Model()), user, nonce, disabled)
    {
      if user in online && online[user].nonce == nonce {
        online := online[user := online[user].(disabled := disabled)];
        PublishNow();
      }
    }
  }

  /** `Registry::load`: a missing file is an empty table; a file that cannot be read or parsed is an error. */
  method Open(file: FileRead) returns (r: Registry?)
    ensures r == null <==> file.Unreadable? || file.Malformed?
    ensures r != null ==> fresh(r) && r.Valid() && r.Model() == LoadState(if file.Table? then file.rows else [])
  {
    if file.Unreadable? || file.Malformed? {
      return null;
    }
    r := new Registry.Load(if file.Table? then Some(file.rows) else None);
  }

  // ---------- what a report and an exit do ----------

  /**
   * A report of a user's current session replaces that session's list of disabled ports and publishes; any
   * other report does nothing. Table, file, sessions and their keys and ports stay.
   */
  lemma ReportEffect(s: State, user: string, n: Nonce, disabled: seq<Port>)
    ensures var s' := DoSetDisabled(s, user, n, disabled);
            && s'.allocs == s.allocs && s'.disk == s.disk && s'.online.Keys == s.online.Keys
            && (forall u :: u in s.online ==>
                  && s'.online[u].nonce == s.online[u].nonce && s'.online[u].ports == s.online[u].ports
                  && s'.online[u].disabled
                     == if u == user && s.online[u].nonce == n then disabled else s.online[u].disabled)
            && (if user in s.online && s.online[user].nonce == n
                then s'.log == s.log + [Directory(s'.allocs, s'.online)] else s' == s)
  {
  }

  /** An exit of a user's current session ends that session and publishes; any other exit does nothing. */
  lemma ExitEffect(s: State, user: string, n: Nonce)
    ensures var s' := DoUnregister(s, user, n);
            && s'.allocs == s.allocs && s'.disk == s.disk
            && (forall u :: u in s'.online <==> u in s.online && !(u == user && s.online[u].nonce == n))
            && (forall u :: u in s'.online ==> s'.online[u] == s.online[u])
            && (if user in s.online && s.online[user].nonce == n
                then s'.log == s.log + [Directory(s'.allocs, s'.online)] else s' == s)
  {
  }

  // ---------- what one registration does ----------

  lemma {:induction false} OwnRowsExact(dir: seq<Mapping>, user: string)
    ensures forall m :: m in OwnRows(dir, user) <==> m in dir && m.user == user && m.online
  {
    if dir != [] {
      OwnRowsExact(dir[1..], user);
      assert dir == [dir[0]] + dir[1..];
    }
  }

  lemma {:induction false} OwnRowsOrdered(dir: seq<Mapping>, user: string)
    requires Distinct(dir) && Sorted(dir, MappingLeq)
    ensures Distinct(OwnRows(dir, user)) && Sorted(OwnRows(dir, user), MappingLeq)
  {
    if dir != [] {
      OwnRowsOrdered(dir[1..], user);
      OwnRowsExact(dir[1..], user);
      forall m | m in OwnRows(dir[1..], user)
        ensures dir[0] != m && MappingLeq(dir[0], m)
      {
        assert m in dir[1..];
        var i :| 0 <= i < |dir[1..]| && dir[1..][i] == m;
        assert dir[i + 1] == m;
      }
    }
  }

  /** One online mapping per wanted key, with the port the table now gives it. */
  ghost predicate Answers(cfg: UserConfig, ports: map<Key, Port>, mappings: seq<Mapping>) {
    && |mappings| == |Wanted(cfg)|
    && (forall i, j :: 0 <= i < j < |mappings| ==> mappings[i].remote < mappings[j].remote)
    && (forall m :: m in mappings <==>
          Wants(cfg, m.key) && m.key in ports && m == Mapping(cfg.name, m.key, ports[m.key], true))
    && (forall k :: Wants(cfg, k) ==> k in ports && Mapping(cfg.name, k, ports[k], true) in mappings)
  }

  lemma AnswersOwnRows(cfg: UserConfig, t: seq<Alloc>, online: map<string, Session>, n: Nonce)
    requires WellFormed(t)
    requires cfg.name in online && online[cfg.name] == Session(n, Wanted(cfg), [])
    requires forall k :: Wants(cfg, k) ==> k in Ports(t, cfg.name)
    ensures Answers(cfg, Ports(t, cfg.name), OwnRows(Directory(t, online), cfg.name))
  {
    var dir := Directory(t, online);
    var own := OwnRows(dir, cfg.name);
    var ports := Ports(t, cfg.name);
    WantedOrder(cfg);
    DirectoryRows(t, online);
    DirectoryDistinct(t, online);
    OwnRowsExact(dir, cfg.name);
    OwnRowsOrdered(dir, cfg.name);
    PortsRows(t, cfg.name);
    forall m
      ensures m in own <==> Wants(cfg, m.key) && m.key in ports && m == Mapping(cfg.name, m.key, ports[m.key], true)
    {
      if m in own {
        assert Alloc(cfg.name, m.key, m.remote) in t;
      }
      if Wants(cfg, m.key) && m.key in ports && m == Mapping(cfg.name, m.key, ports[m.key], true) {
        assert Alloc(cfg.name, m.key, m.remote) in t;
      }
    }
    forall k | Wants(cfg, k)
      ensures k in ports && Mapping(cfg.name, k, ports[k], true) in own
    {
      assert Mapping(cfg.name, k, ports[k], true).key == k;
    }
    SameLength(own, Wanted(cfg));
    OwnRowsIncrease(own, cfg.name);
  }

  lemma OwnRowsIncrease(own: seq<Mapping>, user: string)
    requires Distinct(own) && Sorted(own, MappingLeq) && forall m :: m in own ==> m.user == user
    requires forall a, b :: a in own && b in own && a.remote == b.remote ==> a == b
    ensures forall i, j :: 0 <= i < j < |own| ==> own[i].remote < own[j].remote
  {
    forall i, j | 0 <= i < j < |own|
      ensures own[i].remote < own[j].remote
    {
      assert own[i] in own && own[j] in own && MappingLeq(own[i], own[j]);
    }
  }

  lemma SameLength(own: seq<Mapping>, w: seq<Key>)
    requires Distinct(own) && Distinct(w)
    requires forall a, b :: a in own && b in own && a.key == b.key ==> a == b
    requires forall m :: m in own ==> m.key in w
    requires forall k :: k in w ==> exists m :: m in own && m.key == k
    ensures |own| == |w|
  {
    var ks := seq(|own|, i requires 0 <= i < |own| => own[i].key);
    forall i, j | 0 <= i < j < |ks|
      ensures ks[i] != ks[j]
    {
      assert own[i] in own && own[j] in own;
    }
    forall k
      ensures k in ks <==> k in w
    {
      if k in ks {
        var i :| 0 <= i < |ks| && ks[i] == k;
        assert own[i] in own;
      }
      if k in w {
        var m :| m in own && m.key == k;
        var i :| 0 <= i < |own| && own[i] == m;
        assert ks[i] == k;
      }
    }
    DistinctSize(ks);
    DistinctSize(w);
    assert Elements(ks) == Elements(w);
  }

  /**
   * Registration is all or nothing, touches only this user's rows, and on success extends this user's
   * assignment, installs the session and answers one mapping per wanted key.
   */
  lemma RegisterEffect(s: State, cfg: UserConfig, n: Nonce, diskOk: bool)
    requires WellFormed(s.allocs)
    ensures var (s', r) := DoRegister(s, cfg, n, diskOk);
            && WellFormed(s'.allocs)
            && (forall v :: v != cfg.name ==> Ports(s'.allocs, v) == Ports(s.allocs, v))
            && (!r.Registered? ==> s' == s)
            && (r.Registered? ==>
                  && Extends(Ports(s.allocs, cfg.name), cfg.lo, cfg.hi, Wanted(cfg), Ports(s'.allocs, cfg.name))
                  && s'.online == s.online[cfg.name := Session(n, Wanted(cfg), [])]
                  && s'.log == s.log + [Directory(s'.allocs, s'.online)]
                  && Answers(cfg, Ports(s'.allocs, cfg.name), r.mappings)
                  && (s'.disk == s'.allocs || (s'.disk == s.disk && s'.allocs == s.allocs)))
  {
    var m, w := Ports(s.allocs, cfg.name), Wanted(cfg);
    PlaceAllRefines(s.allocs, false, cfg.name, cfg.lo, cfg.hi, w);
    PortsRows(s.allocs, cfg.name);
    WantedOrder(cfg);
    AssignAllExtends(m, cfg.lo, cfg.hi, w);
    var (s', r) := DoRegister(s, cfg, n, diskOk);
    if r.Registered? {
      var t := PlaceAll(s.allocs, false, cfg.name, cfg.lo, cfg.hi, w).table;
      assert s'.allocs == t;
      AnswersOwnRows(cfg, t, s'.online, n);
    }
  }

  /** Exactly which of the three outcomes a registration has. */
  lemma RegisterOutcome(s: State, cfg: UserConfig, n: Nonce, diskOk: bool)
    requires WellFormed(s.allocs)
    ensures var m, w, r := Ports(s.allocs, cfg.name), Wanted(cfg), DoRegister(s, cfg, n, diskOk).1;
            var need := |Missing(m, cfg.lo, cfg.hi, w)|;
            var left := |HeldUnwanted(m, cfg.lo, cfg.hi, w)|;
            && (r.Exhausted? <==> need + |Held(m, cfg.lo, cfg.hi)| > BlockSize(cfg.lo, cfg.hi))
            && (r.Exhausted? <==> |w| + left > BlockSize(cfg.lo, cfg.hi))
            && (r.PersistFailed? <==> !r.Exhausted? && need > 0 && !diskOk)
  {
    var m, w := Ports(s.allocs, cfg.name), Wanted(cfg);
    PlaceAllRefines(s.allocs, false, cfg.name, cfg.lo, cfg.hi, w);
    PortsRows(s.allocs, cfg.name);
    WantedOrder(cfg);
    ExhaustedIff(m, cfg.lo, cfg.hi, w);
    DemandSplit(m, cfg.lo, cfg.hi, w);
    if exists k :: k in w && !Settled(m, cfg.lo, cfg.hi, k) {
      var k :| k in w && !Settled(m, cfg.lo, cfg.hi, k);
      assert k in Missing(m, cfg.lo, cfg.hi, w);
    } else {
      assert Missing(m, cfg.lo, cfg.hi, w) == {};
    }
  }

  /** Which remote numbers a successful registration gives. */
  lemma RegisterNumbers(s: State, cfg: UserConfig, n: Nonce, diskOk: bool)
    requires WellFormed(s.allocs) && DoRegister(s, cfg, n, diskOk).1.Registered?
    ensures WellFormed(DoRegister(s, cfg, n, diskOk).0.allocs)
    ensures var m, w := Ports(s.allocs, cfg.name), Wanted(cfg);
            var m' := Ports(DoRegister(s, cfg, n, diskOk).0.allocs, cfg.name);
            // a local port in the block keeps its number, for all of them exactly when none clashes
            && (AllKeepNumbers(cfg.lo, cfg.hi, w, m') <==> NoClash(m, cfg.lo, cfg.hi, w))
            // nothing held in the block: TCP ports never clash
            && (Held(m, cfg.lo, cfg.hi) == {} ==> TcpKeep(cfg.lo, cfg.hi, w, m'))
            // new ports of out-of-block local ports increase in (protocol, local port) order
            && NewPortsIncrease(m, cfg.lo, cfg.hi, w, m')
  {
    var m, w := Ports(s.allocs, cfg.name), Wanted(cfg);
    PlaceAllRefines(s.allocs, false, cfg.name, cfg.lo, cfg.hi, w);
    PortsRows(s.allocs, cfg.name);
    WantedOrder(cfg);
    KeepsNumbersIff(m, cfg.lo, cfg.hi, w);
    NumbersGiven(m, cfg.lo, cfg.hi, w);
  }

  /** With nothing held and no number wanted for both protocols, every in-block port keeps its number. */
  lemma FreshUserKeepsNumbers(s: State, cfg: UserConfig, n: Nonce, diskOk: bool)
    requires WellFormed(s.allocs) && DoRegister(s, cfg, n, diskOk).1.Registered?
    requires Held(Ports(s.allocs, cfg.name), cfg.lo, cfg.hi) == {}
    ensures WellFormed(DoRegister(s, cfg, n, diskOk).0.allocs)
    ensures AllKeepNumbers(cfg.lo, cfg.hi, Wanted(cfg), Ports(DoRegister(s, cfg, n, diskOk).0.allocs, cfg.name)) <==>
            forall p: Port :: p in cfg.tcpPorts && p in cfg.udpPorts ==> !InBlock(p, cfg.lo, cfg.hi)
  {
    RegisterNumbers(s, cfg, n, diskOk);
    WantedOrder(cfg);
    var m, w := Ports(s.allocs, cfg.name), Wanted(cfg);
    forall k
      ensures !Settled(m, cfg.lo, cfg.hi, k)
    {
      HeldHas(m, cfg.lo, cfg.hi, k);
    }
    if NoClash(m, cfg.lo, cfg.hi, w) {
      forall p: Port | p in cfg.tcpPorts && p in cfg.udpPorts
        ensures !InBlock(p, cfg.lo, cfg.hi)
      {
        assert Wants(cfg, Key(Tcp, p)) && Wants(cfg, Key(Udp, p));
        assert Key(Tcp, p) in w && Key(Udp, p) in w && Key(Tcp, p) != Key(Udp, p);
      }
    }
    if forall p: Port :: p in cfg.tcpPorts && p in cfg.udpPorts ==> !InBlock(p, cfg.lo, cfg.hi) {
      forall k, x | k in w && InBlock(k.local, cfg.lo, cfg.hi) && x in w && x.local == k.local
        ensures x == k
      {
        assert Wants(cfg, k) && Wants(cfg, x);
      }
    }
  }
}

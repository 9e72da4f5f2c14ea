/** One user's data channels: requests, channels that arrive, visitors and UDP pools that take them. */
module DataChannels {
  import opened Types

  const TCP_POOL_SIZE: nat := 8

  /** A visitor with the local port its listener goes with it. */
  datatype Visitor = Visitor(id: nat, port: Port)

  /**
   * `mappings` is what the session listens on. `offered` visitors are accepted but not yet in the bounded
   * queue; `held` is the one the TCP pool is serving; `idle` are the UDP pools that have no channel yet (pool
   * `i` is that of the `i`th UDP mapping). `entered` records the queue's arrivals, `visitors` the mapping
   * whose listener accepted each visitor (by number), `paired` and `forwarding` who got which channel,
   * `broken` the channels, and `failed` the pools, for which writing the start command failed.
   */
  datatype State = State(
    mappings: seq<Mapping>,
    hasTcp: bool,
    issued: nat,
    consumed: nat,
    offered: seq<Visitor>,
    queue: seq<Visitor>,
    held: Option<Visitor>,
    idle: seq<nat>,
    channels: seq<nat>,
    arrived: nat,
    visitors: seq<Mapping>,
    entered: seq<Visitor>,
    served: seq<Visitor>,
    paired: map<nat, Visitor>,
    forwarding: map<nat, nat>,
    broken: set<nat>,
    failed: set<nat>)

  // ---------- start ----------

  function UdpRows(ms: seq<Mapping>): seq<Mapping> {
    if ms == [] then []
    else
      var last := ms[|ms| - 1];
      UdpRows(ms[..|ms| - 1]) + (if last.key.proto == Udp then [last] else [])
  }

  ghost predicate AnyTcp(ms: seq<Mapping>) {
    exists i :: 0 <= i < |ms| && ms[i].key.proto == Tcp
  }

  /** One request per UDP pool and the cached TCP channels. */
  ghost function Start(ms: seq<Mapping>): State {
    State(ms, AnyTcp(ms), |UdpRows(ms)| + (if AnyTcp(ms) then TCP_POOL_SIZE else 0), 0,
          [], [], None, UpTo(|UdpRows(ms)|), [], 0, [], [], [], map[], map[], {}, {})
  }

  function UpTo(n: nat): seq<nat> {
    seq(n, i => i)
  }

  lemma StartInv(ms: seq<Mapping>)
    ensures Inv(Start(ms))
  {
    UpToExact(|UdpRows(ms)|);
  }

  lemma UpToExact(n: nat)
    ensures Distinct(UpTo(n)) && forall i: nat :: i in UpTo(n) <==> i < n
  {
    forall i: nat | i < n
      ensures i in UpTo(n)
    {
      assert UpTo(n)[i] == i;
    }
  }

  lemma {:induction false} UdpRowsExact(ms: seq<Mapping>)
    ensures forall m :: m in UdpRows(ms) <==> m in ms && m.key.proto == Udp
  {
    if ms != [] {
      UdpRowsExact(ms[..|ms| - 1]);
      assert ms == ms[..|ms| - 1] + [ms[|ms| - 1]];
    }
  }

  /** `ControlChannelHandle::new`. */
  method StartPools(ms: seq<Mapping>) returns (s: State)
    ensures s == Start(ms) && Inv(s)
    ensures s.issued == |UdpRows(ms)| + (if exists m :: m in ms && m.key.proto == Tcp then 8 else 0)
  {
    var poolSize, hasTcp := 0, false;
    for i := 0 to |ms|
      invariant poolSize == |UdpRows(ms[..i])|
      invariant hasTcp <==> AnyTcp(ms[..i])
    {
      assert ms[..i + 1][..i] == ms[..i] && ms[..i + 1][i] == ms[i];
      assert AnyTcp(ms[..i]) ==> AnyTcp(ms[..i + 1]) by {
        if j :| 0 <= j < i && ms[..i][j].key.proto == Tcp {
          assert ms[..i + 1][j] == ms[..i][j];
        }
      }
      if ms[i].key.proto == Tcp {
        hasTcp := true;
        assert ms[..i + 1][i].key.proto == Tcp;
      } else {
        poolSize := poolSize + 1;
      }
    }
    assert ms[..|ms|] == ms;
    var idle := UpTo(poolSize);
    if hasTcp {
      poolSize := poolSize + TCP_POOL_SIZE;
    }
    s := State(ms, hasTcp, poolSize, 0, [], [], None, idle, [], 0, [], [], [], map[], map[], {}, {});
    StartInv(ms);
  }

  // ---------- steps ----------

  datatype Step =
    | Accept(m: Mapping)       // the listener on `m.remote` requests a channel, then offers the visitor
    | Enqueue(i: nat)          // an offered visitor enters the queue
    | Take                     // the TCP pool takes the next visitor
    | Arrive                   // a data channel completes its handshake
    | Serve(writeOk: bool)     // the TCP pool takes a channel for the visitor it holds
    | StartUdp(i: nat, writeOk: bool)

  function Without<T>(s: seq<T>, i: nat): seq<T>
    requires i < |s|
  {
    s[..i] + s[i + 1..]
  }

  predicate Enabled(s: State, step: Step) {
    match step
    case Accept(m) => m in s.mappings && m.key.proto == Tcp
    case Enqueue(i) => i < |s.offered|
    case Take => s.hasTcp && s.held.None? && s.queue != []
    case Arrive => true
    case Serve(_) => s.held.Some? && s.channels != []
    case StartUdp(i, _) => i < |s.idle| && s.channels != []
  }

  function Next(s: State, step: Step): State
    requires Enabled(s, step)
  {
    match step
    case Accept(m) =>
      var v := Visitor(|s.visitors|, m.key.local);
      s.(issued := s.issued + 1, offered := s.offered + [v], visitors := s.visitors + [m])
    case Enqueue(i) =>
      s.(offered := Without(s.offered, i), queue := s.queue + [s.offered[i]], entered := s.entered + [s.offered[i]])
    case Take => s.(held := Some(s.queue[0]), queue := s.queue[1..])
    case Arrive => s.(channels := s.channels + [s.arrived], arrived := s.arrived + 1)
    case Serve(writeOk) =>
      var rest := s.(channels := s.channels[1..], consumed := s.consumed + 1);
      if writeOk then
        rest.(held := None, served := s.served + [s.held.value], paired := s.paired[s.channels[0] := s.held.value])
      else rest.(issued := s.issued + 1, broken := s.broken + {s.channels[0]})
    case StartUdp(i, writeOk) =>
      var rest := s.(channels := s.channels[1..], consumed := s.consumed + 1, idle := Without(s.idle, i));
      if writeOk then rest.(forwarding := s.forwarding[s.channels[0] := s.idle[i]])
      else rest.(broken := s.broken + {s.channels[0]}, failed := s.failed + {s.idle[i]})
  }

  ghost predicate CanRun(s: State, steps: seq<Step>)
    decreases |steps|
  {
    steps != [] ==> Enabled(s, steps[0]) && CanRun(Next(s, steps[0]), steps[1..])
  }

  function Run(s: State, steps: seq<Step>): State
    requires CanRun(s, steps)
    decreases |steps|
  {
    if steps == [] then s else Run(Next(s, steps[0]), steps[1..])
  }

  // ---------- the invariant ----------

  /** Visitors accepted but not yet paired with a channel. */
  function Waiting(s: State): nat {
    |s.offered| + |s.queue| + (if s.held.Some? then 1 else 0)
  }

  ghost predicate Conserved(s: State) {
    s.issued - s.consumed == (if s.hasTcp then TCP_POOL_SIZE else 0) + Waiting(s) + |s.idle|
  }

  /** Visitors leave the queue in the order they entered it. */
  ghost predicate Fifo(s: State) {
    s.served + (if s.held.Some? then [s.held.value] else []) + s.queue == s.entered
  }

  ghost predicate Known(s: State, v: Visitor) {
    && v.id < |s.visitors| && s.visitors[v.id].key.local == v.port
    && s.visitors[v.id] in s.mappings && s.visitors[v.id].key.proto == Tcp
  }

  /** Every visitor is in one place, with the local port of the mapping it was accepted for. */
  ghost predicate VisitorsDistinct(s: State) {
    && Distinct(s.entered + s.offered)
    && (forall v :: v in s.entered + s.offered ==> Known(s, v))
  }

  /** A channel that arrived is ready, or went to one visitor or one UDP pool, or was broken. */
  ghost predicate ChannelsExclusive(s: State) {
    && Distinct(s.channels)
    && (forall c :: c in s.channels ==> c !in s.paired && c !in s.forwarding && c !in s.broken)
    && (forall c :: c in s.paired ==> c !in s.forwarding && c !in s.broken)
    && (forall c :: c in s.forwarding ==> c !in s.broken)
    && (forall c: nat :: c < s.arrived <==> c in s.channels || c in s.paired || c in s.forwarding || c in s.broken)
  }

  /** Exactly the served visitors have a channel, one each. */
  ghost predicate VisitorsPaired(s: State) {
    && (forall c :: c in s.paired ==> s.paired[c] in s.served)
    && (forall v :: v in s.served ==> exists c :: c in s.paired && s.paired[c] == v)
    && (forall c, d :: c in s.paired && d in s.paired && s.paired[c] == s.paired[d] ==> c == d)
  }

  /** A UDP pool is idle, or failed, or forwards on exactly one channel. */
  ghost predicate Placed(n: nat, idle: seq<nat>, failed: set<nat>, forwarding: map<nat, nat>) {
    && Distinct(idle)
    && (forall i :: i in idle ==> i !in failed && i !in forwarding.Values)
    && (forall i :: i in failed ==> i !in forwarding.Values)
    && (forall i: nat :: i < n <==> i in idle || i in failed || i in forwarding.Values)
    && (forall c, d :: c in forwarding && d in forwarding && forwarding[c] == forwarding[d] ==> c == d)
  }

  ghost predicate PoolsPlaced(s: State) {
    Placed(|UdpRows(s.mappings)|, s.idle, s.failed, s.forwarding)
  }

  /** Every channel that arrived is ready or was consumed: for a visitor, for a UDP pool, or in vain. */
  ghost predicate Arrivals(s: State) {
    && s.arrived == s.consumed + |s.channels|
    && s.consumed == |s.paired| + |s.forwarding| + |s.broken|
    && |s.paired| == |s.served|
  }

  ghost predicate Inv(s: State) {
    && Conserved(s) && Arrivals(s) && Fifo(s)
    && VisitorsDistinct(s) && ChannelsExclusive(s) && VisitorsPaired(s) && PoolsPlaced(s)
  }

  lemma WithoutMembers<T(!new)>(s: seq<T>, i: nat, t: seq<T>)
    requires i < |s| && Distinct(t + s)
    ensures Distinct(t + [s[i]] + Without(s, i))
    ensures forall x :: x in t + [s[i]] + Without(s, i) ==> x in t + s
  {
    var all, r := t + s, t + [s[i]] + Without(s, i);
    forall k | 0 <= k < |r|
      ensures r[k] == all[Back(|t|, i, k)]
    {
    }
    forall j, k | 0 <= j < k < |r|
      ensures r[j] != r[k]
    {
      assert r[j] == all[Back(|t|, i, j)] && r[k] == all[Back(|t|, i, k)];
    }
    forall x | x in r
      ensures x in all
    {
      var k :| 0 <= k < |r| && r[k] == x;
      assert all[Back(|t|, i, k)] == x;
    }
  }

  /** Where position `k` of `t + [s[i]] + Without(s, i)` comes from in `t + s`. */
  ghost function Back(n: nat, i: nat, k: nat): nat {
    if k < n then k else if k == n then n + i else if k <= n + i then k - 1 else k
  }

  lemma AcceptVisitor(s: State, m: Mapping)
    requires VisitorsDistinct(s) && Enabled(s, Accept(m))
    ensures VisitorsDistinct(Next(s, Accept(m)))
  {
    var s' := Next(s, Accept(m));
    var v, all := Visitor(|s.visitors|, m.key.local), s.entered + s.offered;
    assert s'.entered + s'.offered == all + [v];
    forall i | 0 <= i < |all|
      ensures all[i] != v && Known(s', all[i])
    {
      assert all[i] in all && Known(s, all[i]);
    }
  }

  lemma NextVisitors(s: State, step: Step)
    requires Fifo(s) && VisitorsDistinct(s) && Enabled(s, step)
    ensures Fifo(Next(s, step)) && VisitorsDistinct(Next(s, step))
  {
    match step
    case Accept(m) => AcceptVisitor(s, m);
    case Enqueue(i) => WithoutMembers(s.offered, i, s.entered);
    case _ =>
  }

  /** The visitor being served has not been served before. */
  lemma HeldIsNew(s: State)
    requires Fifo(s) && VisitorsDistinct(s) && s.held.Some?
    ensures s.held.value !in s.served
  {
    var v, all := s.held.value, s.entered + s.offered;
    assert s.entered[|s.served|] == v && all[|s.served|] == v;
    forall i | 0 <= i < |s.served|
      ensures s.served[i] != v
    {
      assert all[i] == s.served[i];
    }
  }

  /** The channel that is taken is nobody's, and the others stay ready. */
  lemma TakeChannel(s: State)
    requires ChannelsExclusive(s) && s.channels != []
    ensures var c, rest := s.channels[0], s.channels[1..];
            && Distinct(rest) && c !in rest && c !in s.paired && c !in s.forwarding && c !in s.broken
            && forall d :: d in s.channels <==> d in rest || d == c
  {
    assert s.channels == [s.channels[0]] + s.channels[1..];
    assert s.channels[0] in s.channels;
  }

  lemma ArriveChannel(s: State)
    requires ChannelsExclusive(s)
    ensures ChannelsExclusive(Next(s, Arrive))
  {
    assert s.arrived !in s.channels;
  }

  lemma NextChannels(s: State, step: Step)
    requires ChannelsExclusive(s) && Enabled(s, step)
    ensures ChannelsExclusive(Next(s, step))
  {
    match step
    case Serve(_) => TakeChannel(s);
    case StartUdp(_, _) => TakeChannel(s);
    case Arrive => ArriveChannel(s);
    case _ =>
  }

  /** One more pair, for a new key. */
  lemma PairMore(m: map<nat, Visitor>, c: nat, v: Visitor, served: seq<Visitor>)
    requires c !in m && v !in served
    requires forall d :: d in m ==> m[d] in served
    requires forall x :: x in served ==> exists d :: d in m && m[d] == x
    requires forall d, e :: d in m && e in m && m[d] == m[e] ==> d == e
    ensures var m' := m[c := v];
            && (forall d :: d in m' ==> m'[d] in served + [v])
            && (forall x :: x in served + [v] ==> exists d :: d in m' && m'[d] == x)
            && (forall d, e :: d in m' && e in m' && m'[d] == m'[e] ==> d == e)
  {
    var m' := m[c := v];
    forall x | x in served + [v]
      ensures exists d :: d in m' && m'[d] == x
    {
      if x == v {
        assert c in m' && m'[c] == x;
      } else {
        var d :| d in m && m[d] == x;
        assert d in m' && m'[d] == x;
      }
    }
  }

  lemma NextPaired(s: State, step: Step)
    requires Fifo(s) && VisitorsDistinct(s) && ChannelsExclusive(s) && VisitorsPaired(s) && Enabled(s, step)
    ensures VisitorsPaired(Next(s, step))
  {
    if step.Serve? && step.writeOk {
      HeldIsNew(s);
      TakeChannel(s);
      PairMore(s.paired, s.channels[0], s.held.value, s.served);
    }
  }

  lemma WithoutOne(s: seq<nat>, i: nat)
    requires i < |s| && Distinct(s)
    ensures Distinct(Without(s, i)) && forall x :: x in Without(s, i) <==> x in s && x != s[i]
  {
    var r := Without(s, i);
    forall k | 0 <= k < |r|
      ensures r[k] == s[if k < i then k else k + 1] && r[k] != s[i]
    {
    }
    forall x | x in s && x != s[i]
      ensures x in r
    {
      var k :| 0 <= k < |s| && s[k] == x;
      assert r[if k < i then k else k - 1] == x;
    }
  }

  lemma ValuesMore(m: map<nat, nat>, c: nat, v: nat)
    requires c !in m
    ensures m[c := v].Values == m.Values + {v}
  {
    var m' := m[c := v];
    forall x | x in m.Values + {v}
      ensures x in m'.Values
    {
      if x == v {
        assert c in m' && m'[c] == x;
      } else {
        var d :| d in m && m[d] == x;
        assert d in m' && m'[d] == x;
      }
    }
  }

  lemma PoolForwards(n: nat, idle: seq<nat>, failed: set<nat>, forwarding: map<nat, nat>, i: nat, c: nat)
    requires Placed(n, idle, failed, forwarding) && i < |idle| && c !in forwarding
    ensures Placed(n, Without(idle, i), failed, forwarding[c := idle[i]])
  {
    WithoutOne(idle, i);
    ValuesMore(forwarding, c, idle[i]);
    assert idle[i] in idle;
  }

  lemma PoolFails(n: nat, idle: seq<nat>, failed: set<nat>, forwarding: map<nat, nat>, i: nat)
    requires Placed(n, idle, failed, forwarding) && i < |idle|
    ensures Placed(n, Without(idle, i), failed + {idle[i]}, forwarding)
  {
    WithoutOne(idle, i);
    assert idle[i] in idle;
  }

  lemma NextPools(s: State, step: Step)
    requires ChannelsExclusive(s) && PoolsPlaced(s) && Enabled(s, step)
    ensures PoolsPlaced(Next(s, step))
  {
    if step.StartUdp? {
      TakeChannel(s);
      if step.writeOk {
        PoolForwards(|UdpRows(s.mappings)|, s.idle, s.failed, s.forwarding, step.i, s.channels[0]);
      } else {
        PoolFails(|UdpRows(s.mappings)|, s.idle, s.failed, s.forwarding, step.i);
      }
    }
  }

  lemma NextConserved(s: State, step: Step)
    requires Conserved(s) && Enabled(s, step)
    ensures Conserved(Next(s, step)) && Next(s, step).mappings == s.mappings
  {
  }

  lemma OneMoreKey<T>(m: map<nat, T>, c: nat, v: T)
    requires c !in m
    ensures |m[c := v]| == |m| + 1
  {
    assert m[c := v].Keys == m.Keys + {c};
  }

  lemma ServeArrivals(s: State, writeOk: bool)
    requires Arrivals(s) && ChannelsExclusive(s) && Enabled(s, Serve(writeOk))
    ensures Arrivals(Next(s, Serve(writeOk)))
  {
    TakeChannel(s);
    OneMoreKey(s.paired, s.channels[0], s.held.value);
  }

  lemma StartArrivals(s: State, i: nat, writeOk: bool)
    requires Arrivals(s) && ChannelsExclusive(s) && Enabled(s, StartUdp(i, writeOk))
    ensures Arrivals(Next(s, StartUdp(i, writeOk)))
  {
    TakeChannel(s);
    OneMoreKey(s.forwarding, s.channels[0], s.idle[i]);
  }

  lemma NextArrivals(s: State, step: Step)
    requires Arrivals(s) && ChannelsExclusive(s) && Enabled(s, step)
    ensures Arrivals(Next(s, step))
  {
    match step
    case Serve(writeOk) => ServeArrivals(s, writeOk);
    case StartUdp(i, writeOk) => StartArrivals(s, i, writeOk);
    case _ =>
  }

  lemma NextInv(s: State, step: Step)
    requires Inv(s) && Enabled(s, step)
    ensures Inv(Next(s, step)) && Next(s, step).mappings == s.mappings
  {
    NextConserved(s, step);
    NextArrivals(s, step);
    NextVisitors(s, step);
    NextChannels(s, step);
    NextPaired(s, step);
    NextPools(s, step);
  }

  lemma {:induction false} RunInv(s: State, steps: seq<Step>)
    requires Inv(s) && CanRun(s, steps)
    ensures Inv(Run(s, steps)) && Run(s, steps).mappings == s.mappings
    decreases |steps|
  {
    if steps != [] {
      NextInv(s, steps[0]);
      RunInv(Next(s, steps[0]), steps[1..]);
    }
  }

  lemma PairedAreKnown(s: State)
    requires Fifo(s) && VisitorsDistinct(s) && VisitorsPaired(s)
    ensures forall c :: c in s.paired ==> Known(s, s.paired[c])
    ensures forall c, d :: c in s.paired && d in s.paired && s.paired[c].id == s.paired[d].id ==> c == d
  {
    forall c | c in s.paired
      ensures Known(s, s.paired[c])
    {
      assert s.paired[c] in s.served;
      assert s.paired[c] in s.entered + s.offered;
    }
  }

  lemma PoolsForward(n: nat, idle: seq<nat>, failed: set<nat>, forwarding: map<nat, nat>)
    requires Placed(n, idle, failed, forwarding)
    ensures forall i: nat :: i < n && i !in idle && i !in failed ==> exists c :: c in forwarding && forwarding[c] == i
    ensures forall c :: c in forwarding ==> forwarding[c] < n
  {
    assert forall c :: c in forwarding ==> forwarding[c] in forwarding.Values;
  }

  /**
   * In every run: ready channels and requests not yet answered are the cached channels, the waiting
   * visitors and the idle UDP pools; so for a waiting visitor a channel is ready or a request is out.
   * Every channel consumed went to one served visitor, to one UDP pool, or was broken; exactly the served
   * visitors have one, and every pool that neither waits nor failed. Visitors are served in queue order, and
   * each goes to the local port of the mapping it came in on.
   */
  lemma ChannelConservation(s: State, steps: seq<Step>)
    requires Inv(s) && CanRun(s, steps)
    ensures var e := Run(s, steps);
            && Inv(e) && e.mappings == s.mappings
            && |e.channels| + (e.issued - e.arrived) == (if e.hasTcp then 8 else 0) + Waiting(e) + |e.idle|
            && e.issued - e.consumed == |e.channels| + (e.issued - e.arrived)
            && (Waiting(e) > 0 ==> e.channels != [] || e.issued > e.arrived)
            && e.served <= e.entered
            && (forall c :: c in e.paired ==> Known(e, e.paired[c]) && c !in e.forwarding)
            && (forall v :: v in e.served <==> exists c :: c in e.paired && e.paired[c] == v)
            && |e.paired| == |e.served|
            && (forall i: nat :: i < |UdpRows(e.mappings)| && i !in e.idle && i !in e.failed ==>
                  exists c :: c in e.forwarding && e.forwarding[c] == i)
            && (forall c :: c in e.forwarding ==> e.forwarding[c] < |UdpRows(e.mappings)|)
            && e.consumed == |e.paired| + |e.forwarding| + |e.broken|
            && (forall c, d :: c in e.paired && d in e.paired && e.paired[c].id == e.paired[d].id ==> c == d)
  {
    RunInv(s, steps);
    var e := Run(s, steps);
    PairedAreKnown(e);
    PoolsForward(|UdpRows(e.mappings)|, e.idle, e.failed, e.forwarding);
  }

  // ---------- visitors and pools get their channels ----------

  lemma RunCons(s: State, step: Step, rest: seq<Step>)
    requires Enabled(s, step) && CanRun(Next(s, step), rest)
    ensures CanRun(s, [step] + rest) && Run(s, [step] + rest) == Run(Next(s, step), rest)
  {
    assert ([step] + rest)[1..] == rest;
  }

  /** Accepting a visitor asks for one channel and makes one more visitor wait, for the mapping's local port. */
  lemma Accepts(s: State, m: Mapping)
    requires m in s.mappings && m.key.proto == Tcp
    ensures Enabled(s, Accept(m))
    ensures var e := Next(s, Accept(m));
            && e.issued == s.issued + 1 && Waiting(e) == Waiting(s) + 1
            && e.offered == s.offered + [Visitor(|s.visitors|, m.key.local)] && e.visitors == s.visitors + [m]
  {
  }

  /** With a channel ready, the visitor first in line can be served next, on the channel that arrived first. */
  lemma ServesNext(s: State) returns (steps: seq<Step>, v: Visitor)
    requires s.hasTcp && s.channels != [] && (s.held.Some? || s.queue != [])
    ensures v == if s.held.Some? then s.held.value else s.queue[0]
    ensures CanRun(s, steps)
    ensures var e := Run(s, steps);
            && s.channels[0] in e.paired && e.paired[s.channels[0]] == v
            && e.served == s.served + [v] && e.channels == s.channels[1..] && Waiting(e) == Waiting(s) - 1
            && e.issued == s.issued && e.idle == s.idle
  {
    v := if s.held.Some? then s.held.value else s.queue[0];
    steps := [Serve(true)];
    if s.held.None? {
      var s1 := Next(s, Take);
      RunCons(s1, Serve(true), []);
      RunCons(s, Take, steps);
      steps := [Take] + steps;
    } else {
      RunCons(s, Serve(true), []);
    }
  }

  /** If writing to that channel fails, the visitor waits on and another channel is asked for. */
  lemma ServesLater(s: State)
    requires s.held.Some? && s.channels != []
    ensures Enabled(s, Serve(false))
    ensures var e := Next(s, Serve(false));
            && e.held == s.held && e.queue == s.queue && e.served == s.served && e.paired == s.paired
            && e.channels == s.channels[1..] && e.issued == s.issued + 1 && s.channels[0] in e.broken
  {
  }

  /** With a channel ready, any idle UDP pool can start forwarding on it. */
  lemma StartsPool(s: State, i: nat)
    requires i < |s.idle| && s.channels != []
    ensures Enabled(s, StartUdp(i, true))
    ensures var e := Next(s, StartUdp(i, true));
            && e.forwarding == s.forwarding[s.channels[0] := s.idle[i]] && e.channels == s.channels[1..]
            && e.idle == s.idle[..i] + s.idle[i + 1..] && e.held == s.held && e.queue == s.queue && e.issued == s.issued
  {
  }
}

/**
 * The remote-port allocator of `Registry::register`.
 *
 * `Place`/`PlaceAll` follow the source on the table (a sequence of rows). `Assign`/`AssignAll` are the
 * same algorithm on one user's assignment, a map from local keys to remote ports. `PlaceAllRefines`
 * connects the two; everything else is proved about the map and carried over to the table.
 */
module Allocator {
  import opened Types
  import opened Sorting

  // ---------- the order of the wanted keys ----------

  function Keys(proto: Proto, ports: seq<Port>): (r: seq<Key>)
    ensures |r| == |ports| && forall i :: 0 <= i < |r| ==> r[i] == Key(proto, ports[i])
  {
    seq(|ports|, i requires 0 <= i < |ports| => Key(proto, ports[i]))
  }

  predicate PhaseLeq(lo: Port, hi: Port, a: Key, b: Key) {
    InBlock(a.local, lo, hi) || !InBlock(b.local, lo, hi)
  }

  /** Keys sorted and deduplicated, then stably moved so that in-block local ports come first. */
  function Wanted(cfg: UserConfig): seq<Key> {
    var raw := Keys(Tcp, cfg.tcpPorts) + Keys(Udp, cfg.udpPorts);
    SortBy(Dedup(SortBy(raw, KeyLeq)), (a, b) => PhaseLeq(cfg.lo, cfg.hi, a, b))
  }

  /** What the configuration asks for, with no order. */
  ghost predicate Wants(cfg: UserConfig, k: Key) {
    if k.proto == Tcp then k.local in cfg.tcpPorts else k.local in cfg.udpPorts
  }

  /** In-block local ports first; within a phase TCP before UDP, then the smaller local port. */
  ghost predicate Before(lo: Port, hi: Port, a: Key, b: Key) {
    if (lo <= a.local <= hi) != (lo <= b.local <= hi) then lo <= a.local <= hi
    else if a.proto != b.proto then a.proto == Tcp
    else a.local < b.local
  }

  ghost predicate InOrder(lo: Port, hi: Port, w: seq<Key>) {
    forall i, j :: 0 <= i < j < |w| ==> Before(lo, hi, w[i], w[j])
  }

  lemma KeysHas(proto: Proto, ports: seq<Port>, k: Key)
    ensures k in Keys(proto, ports) <==> k.proto == proto && k.local in ports
  {
    if k.proto == proto && k.local in ports {
      var i :| 0 <= i < |ports| && ports[i] == k.local;
      assert Keys(proto, ports)[i] == k;
    }
  }

  /** The second, stable sort keeps the order of the first within a phase. */
  lemma PhaseSort(lo: Port, hi: Port, d: seq<Key>)
    requires Sorted(d, KeyLeq) && Distinct(d)
    ensures var w := SortBy(d, (a, b) => PhaseLeq(lo, hi, a, b));
            Distinct(w) && InOrder(lo, hi, w) && forall k :: k in w <==> k in d
  {
    var leq := (a, b) => PhaseLeq(lo, hi, a, b);
    var fine := (a, b) => PhaseLeq(lo, hi, a, b) && (PhaseLeq(lo, hi, b, a) ==> KeyLeq(a, b));
    var w := SortBy(d, leq);
    SortRefines(d, leq, KeyLeq, fine);
    SortDistinct(d, leq);
    SortElements(d, leq);
    forall i, j | 0 <= i < j < |w|
      ensures Before(lo, hi, w[i], w[j])
    {
      assert fine(w[i], w[j]) && w[i] != w[j];
    }
  }

  /** `Wanted` lists every configured key once, in the two-phase order. */
  lemma WantedOrder(cfg: UserConfig)
    ensures Distinct(Wanted(cfg)) && InOrder(cfg.lo, cfg.hi, Wanted(cfg))
    ensures forall k :: k in Wanted(cfg) <==> Wants(cfg, k)
  {
    var raw := Keys(Tcp, cfg.tcpPorts) + Keys(Udp, cfg.udpPorts);
    KeyLeqOrder();
    SortSorted(raw, KeyLeq);
    SortElements(raw, KeyLeq);
    DedupSorted(SortBy(raw, KeyLeq), KeyLeq);
    PhaseSort(cfg.lo, cfg.hi, Dedup(SortBy(raw, KeyLeq)));
    forall k
      ensures k in raw <==> Wants(cfg, k)
    {
      KeysHas(Tcp, cfg.tcpPorts, k);
      KeysHas(Udp, cfg.udpPorts, k);
    }
  }

  // ---------- one user's assignment ----------

  /** The first free port of `lo..=hi`. */
  function LowestFree(lo: nat, hi: Port, used: set<Port>): (r: Option<Port>)
    ensures r.None? ==> forall p: Port :: lo <= p <= hi ==> p in used
    ensures r.Some? ==> lo <= r.value <= hi && r.value !in used && forall p: Port :: lo <= p < r.value ==> p in used
    decreases hi + 1 - lo
  {
    if lo > hi then None
    else if lo !in used then Some(lo)
    else LowestFree(lo + 1, hi, used)
  }

  /** The port's own number if it lies in the block and is free, else the lowest free port. */
  function Choose(k: Key, lo: Port, hi: Port, used: set<Port>): (r: Option<Port>)
    ensures r.None? ==> forall p: Port :: InBlock(p, lo, hi) ==> p in used
    ensures r.Some? ==> InBlock(r.value, lo, hi) && r.value !in used
  {
    if InBlock(k.local, lo, hi) && k.local !in used then Some(k.local) else LowestFree(lo, hi, used)
  }

  predicate Settled(m: map<Key, Port>, lo: Port, hi: Port, k: Key) {
    k in m && InBlock(m[k], lo, hi)
  }

  ghost predicate Injective(m: map<Key, Port>) {
    forall a, b :: a in m && b in m && m[a] == m[b] ==> a == b
  }

  ghost function Assign(m: map<Key, Port>, lo: Port, hi: Port, k: Key): Option<map<Key, Port>> {
    if Settled(m, lo, hi, k) then Some(m)
    else
      var r := Choose(k, lo, hi, (m - {k}).Values);
      if r.None? then None else Some(m[k := r.value])
  }

  ghost function AssignAll(m: map<Key, Port>, lo: Port, hi: Port, w: seq<Key>): Option<map<Key, Port>>
    decreases |w|
  {
    if w == [] then Some(m)
    else
      var r := Assign(m, lo, hi, w[0]);
      if r.None? then None else AssignAll(r.value, lo, hi, w[1..])
  }

  /** Wanted keys that need a new port. */
  ghost function Missing(m: map<Key, Port>, lo: Port, hi: Port, w: seq<Key>): set<Key> {
    set k | k in w && !Settled(m, lo, hi, k)
  }

  /** Ports of the block that the user already holds, wanted or not. */
  ghost function Held(m: map<Key, Port>, lo: Port, hi: Port): set<Port> {
    set k | k in m && InBlock(m[k], lo, hi) :: m[k]
  }

  lemma HeldHas(m: map<Key, Port>, lo: Port, hi: Port, k: Key)
    ensures Settled(m, lo, hi, k) ==> m[k] in Held(m, lo, hi)
  {
  }

  /** The effect of settling one key: nothing if it holds an in-block port, else one port nobody held. */
  ghost predicate Settles(m: map<Key, Port>, lo: Port, hi: Port, k: Key, m': map<Key, Port>) {
    && Injective(m') && Settled(m', lo, hi, k) && m'.Keys == m.Keys + {k}
    && (forall x :: x in m && x != k ==> m'[x] == m[x])
    && (Settled(m, lo, hi, k) ==> m' == m)
    && (!Settled(m, lo, hi, k) ==> m'[k] !in Held(m, lo, hi) && Held(m', lo, hi) == Held(m, lo, hi) + {m'[k]})
  }

  lemma AssignStep(m: map<Key, Port>, lo: Port, hi: Port, k: Key)
    requires Injective(m)
    ensures Assign(m, lo, hi, k).None? ==>
              !Settled(m, lo, hi, k) && forall p: Port :: InBlock(p, lo, hi) ==> p in Held(m, lo, hi)
    ensures Assign(m, lo, hi, k).Some? ==> Settles(m, lo, hi, k, Assign(m, lo, hi, k).value)
  {
    var used := (m - {k}).Values;
    if !Settled(m, lo, hi, k) {
      forall p: Port | InBlock(p, lo, hi)
        ensures p in used <==> p in Held(m, lo, hi)
      {
        if p in used {
          var x :| x in m - {k} && (m - {k})[x] == p;
          assert x in m && m[x] == p;
        }
        if p in Held(m, lo, hi) {
          var x :| x in m && m[x] == p;
          assert x in m - {k};
        }
      }
      var r := Choose(k, lo, hi, used);
      if r.Some? {
        var m' := m[k := r.value];
        forall x | x in m && x != k
          ensures m[x] in used
        {
          assert x in m - {k};
        }
        forall p
          ensures p in Held(m', lo, hi) <==> p in Held(m, lo, hi) + {m'[k]}
        {
          if p in Held(m, lo, hi) {
            var x :| x in m && InBlock(m[x], lo, hi) && m[x] == p;
            assert x in m' && m'[x] == p;
          }
        }
      }
    }
  }

  /**
   * What a successful allocation may and may not do: keys that hold an in-block port keep it, keys that
   * are not wanted keep whatever they have, and every other wanted key gets an in-block port nobody held.
   */
  ghost predicate Extends(m: map<Key, Port>, lo: Port, hi: Port, w: seq<Key>, m': map<Key, Port>) {
    && Injective(m')
    && m'.Keys == m.Keys + Elements(w)
    && (forall k :: k in m && (k !in w || InBlock(m[k], lo, hi)) ==> m'[k] == m[k])
    && (forall k :: k in w ==> InBlock(m'[k], lo, hi))
    && (forall k :: k in w && !Settled(m, lo, hi, k) ==> m'[k] !in Held(m, lo, hi))
  }

  lemma {:induction false} AssignAllExtends(m: map<Key, Port>, lo: Port, hi: Port, w: seq<Key>)
    requires Injective(m)
    ensures AssignAll(m, lo, hi, w).Some? ==> Extends(m, lo, hi, w, AssignAll(m, lo, hi, w).value)
    decreases |w|
  {
    if w != [] {
      AssignStep(m, lo, hi, w[0]);
      var r := Assign(m, lo, hi, w[0]);
      if r.Some? {
        var m1 := r.value;
        AssignAllExtends(m1, lo, hi, w[1..]);
        if AssignAll(m1, lo, hi, w[1..]).Some? {
          ExtendsCons(m, lo, hi, w, m1, AssignAll(m1, lo, hi, w[1..]).value);
        }
      }
    }
  }

  lemma ExtendsCons(m: map<Key, Port>, lo: Port, hi: Port, w: seq<Key>, m1: map<Key, Port>, m': map<Key, Port>)
    requires w != [] && Settles(m, lo, hi, w[0], m1) && Extends(m1, lo, hi, w[1..], m')
    ensures Extends(m, lo, hi, w, m')
  {
    assert w == [w[0]] + w[1..];
    assert Elements(w) == {w[0]} + Elements(w[1..]);
    assert Held(m, lo, hi) <= Held(m1, lo, hi);
    assert m'[w[0]] == m1[w[0]];
    forall k | k in w && !Settled(m, lo, hi, k)
      ensures m'[k] !in Held(m, lo, hi)
    {
      if k != w[0] {
        assert k in w[1..] && !Settled(m1, lo, hi, k);
      }
    }
  }

  ghost function Range(lo: nat, hi: Port): (r: set<Port>)
    ensures forall p: Port :: p in r <==> lo <= p <= hi
    decreases hi + 1 - lo
  {
    if lo > hi then {} else {lo} + Range(lo + 1, hi)
  }

  lemma {:induction false} RangeSize(lo: nat, hi: Port)
    requires lo <= hi + 1
    ensures |Range(lo, hi)| == hi + 1 - lo
    decreases hi + 1 - lo
  {
    if lo <= hi {
      RangeSize(lo + 1, hi);
      OneMore(lo, Range(lo + 1, hi));
    }
  }

  lemma OneMore(p: Port, s: set<Port>)
    requires p !in s
    ensures |{p} + s| == |s| + 1
  {
    assert {p} + s == s + {p};
  }

  /** Pigeonhole: the ports held in a block are no more than the block, and exactly the block when none is free. */
  lemma HeldSize(m: map<Key, Port>, lo: Port, hi: Port)
    ensures |Held(m, lo, hi)| <= BlockSize(lo, hi)
    ensures (forall p: Port :: InBlock(p, lo, hi) ==> p in Held(m, lo, hi)) ==> |Held(m, lo, hi)| == BlockSize(lo, hi)
  {
    if lo <= hi {
      RangeSize(lo, hi);
    } else {
      assert Range(lo, hi) == {};
    }
    SubsetSize(Held(m, lo, hi), Range(lo, hi));
    if forall p: Port :: InBlock(p, lo, hi) ==> p in Held(m, lo, hi) {
      assert Held(m, lo, hi) == Range(lo, hi);
    }
  }

  /** Settling the first key takes it off the missing ones. */
  lemma MissingCons(m: map<Key, Port>, lo: Port, hi: Port, w: seq<Key>, m1: map<Key, Port>)
    requires w != [] && Distinct(w) && Settles(m, lo, hi, w[0], m1)
    ensures w[0] !in Missing(m1, lo, hi, w[1..])
    ensures Missing(m, lo, hi, w) == Missing(m1, lo, hi, w[1..]) + if Settled(m, lo, hi, w[0]) then {} else {w[0]}
  {
    var k := w[0];
    assert w == [k] + w[1..];
    assert k !in w[1..];
    forall x | x != k
      ensures x in Missing(m, lo, hi, w) <==> x in Missing(m1, lo, hi, w[1..])
    {
    }
  }

  /** Settling the first key leaves the demand of the rest plus the ports held unchanged. */
  lemma DemandKept(m: map<Key, Port>, lo: Port, hi: Port, w: seq<Key>, m1: map<Key, Port>)
    requires w != [] && Distinct(w) && Settles(m, lo, hi, w[0], m1)
    ensures |Missing(m, lo, hi, w)| + |Held(m, lo, hi)| == |Missing(m1, lo, hi, w[1..])| + |Held(m1, lo, hi)|
  {
    MissingCons(m, lo, hi, w, m1);
    if Settled(m, lo, hi, w[0]) {
      assert Missing(m, lo, hi, w) == Missing(m1, lo, hi, w[1..]);
    }
  }

  /** Exact success: the allocation fails iff the new ports needed and the ports held exceed the block. */
  lemma {:induction false} ExhaustedIff(m: map<Key, Port>, lo: Port, hi: Port, w: seq<Key>)
    requires Injective(m) && Distinct(w)
    ensures AssignAll(m, lo, hi, w).None? <==>
            |Missing(m, lo, hi, w)| + |Held(m, lo, hi)| > BlockSize(lo, hi)
    decreases |w|
  {
    HeldSize(m, lo, hi);
    if w == [] {
      assert Missing(m, lo, hi, w) == {};
    } else {
      var k := w[0];
      AssignStep(m, lo, hi, k);
      assert w == [k] + w[1..];
      var r := Assign(m, lo, hi, k);
      if r.None? {
        assert k in Missing(m, lo, hi, w);
      } else {
        ExhaustedIff(r.value, lo, hi, w[1..]);
        DemandKept(m, lo, hi, w, r.value);
      }
    }
  }

  /** In-block ports held for keys that are not wanted any more. */
  ghost function HeldUnwanted(m: map<Key, Port>, lo: Port, hi: Port, w: seq<Key>): set<Port> {
    set k | k in m && InBlock(m[k], lo, hi) && k !in w :: m[k]
  }

  lemma {:induction false} ImageSize(m: map<Key, Port>, ks: set<Key>)
    requires Injective(m) && ks <= m.Keys
    ensures |set k | k in ks :: m[k]| == |ks|
  {
    if ks == {} {
      assert (set k | k in ks :: m[k]) == {};
    } else {
      var x :| x in ks;
      ImageSize(m, ks - {x});
      var rest := set k | k in ks - {x} :: m[k];
      assert m[x] !in rest;
      assert (set k | k in ks :: m[k]) == rest + {m[x]};
    }
  }

  /** Wanted keys and in-block leftovers: the same count as needed plus held. */
  lemma DemandSplit(m: map<Key, Port>, lo: Port, hi: Port, w: seq<Key>)
    requires Injective(m) && Distinct(w)
    ensures |Missing(m, lo, hi, w)| + |Held(m, lo, hi)| == |w| + |HeldUnwanted(m, lo, hi, w)|
  {
    var settled := set k | k in w && Settled(m, lo, hi, k);
    var kept := set k | k in settled :: m[k];
    DistinctSize(w);
    assert Elements(w) == settled + Missing(m, lo, hi, w);
    ImageSize(m, settled);
    assert Held(m, lo, hi) == kept + HeldUnwanted(m, lo, hi, w);
    assert kept !! HeldUnwanted(m, lo, hi, w);
  }

  // ---------- which numbers are given ----------

  /** `k` can take its own number: its block port (if any) is that number and nobody else has or wants it. */
  ghost predicate OwnNumberFree(m: map<Key, Port>, lo: Port, hi: Port, w: seq<Key>, k: Key) {
    && (Settled(m, lo, hi, k) ==> m[k] == k.local)
    && (!Settled(m, lo, hi, k) ==> k.local !in Held(m, lo, hi))
    && (forall x :: x in w && x.local == k.local ==> x == k)
  }

  /** If the first `n` wanted keys lie in the block and none of them clashes, each keeps its own number. */
  lemma {:induction false} PrefixKeepsNumbers(m: map<Key, Port>, lo: Port, hi: Port, w: seq<Key>, n: nat)
    requires Injective(m) && Distinct(w) && n <= |w|
    requires forall i :: 0 <= i < n ==> InBlock(w[i].local, lo, hi) && OwnNumberFree(m, lo, hi, w[..n], w[i])
    requires AssignAll(m, lo, hi, w).Some?
    ensures var m' := AssignAll(m, lo, hi, w).value; forall i :: 0 <= i < n ==> w[i] in m' && m'[w[i]] == w[i].local
    decreases |w|
  {
    if n > 0 {
      var k := w[0];
      AssignStep(m, lo, hi, k);
      var m1 := Assign(m, lo, hi, k).value;
      assert OwnNumberFree(m, lo, hi, w[..n], k);
      assert m1[k] == k.local by {
        forall x | x in m && x != k && !Settled(m, lo, hi, k)
          ensures m[x] != k.local
        {
          assert InBlock(m[x], lo, hi) ==> m[x] in Held(m, lo, hi);
        }
      }
      var v := w[1..];
      forall i | 0 <= i < n - 1
        ensures InBlock(v[i].local, lo, hi) && OwnNumberFree(m1, lo, hi, v[..n - 1], v[i])
      {
        assert v[i] == w[i + 1] && w[i + 1] in w[..n] && k in w[..n];
        assert OwnNumberFree(m, lo, hi, w[..n], w[i + 1]);
        assert w[i + 1] != k;
        assert v[i].local != k.local;
        assert forall x :: x in v[..n - 1] ==> x in w[..n];
      }
      PrefixKeepsNumbers(m1, lo, hi, v, n - 1);
      AssignAllExtends(m1, lo, hi, v);
      var m' := AssignAll(m1, lo, hi, v).value;
      assert m'[k] == m1[k];
      forall i | 0 <= i < n
        ensures w[i] in m' && m'[w[i]] == w[i].local
      {
        if i > 0 {
          assert w[i] == v[i - 1];
        }
      }
    }
  }

  /** The length of the prefix on which a property holds that is only ever lost along the sequence. */
  lemma {:induction false} Prefix<T(!new)>(s: seq<T>, p: T -> bool) returns (n: nat)
    requires forall i, j :: 0 <= i < j < |s| && p(s[j]) ==> p(s[i])
    ensures n <= |s| && forall i :: 0 <= i < |s| ==> (p(s[i]) <==> i < n)
  {
    n := 0;
    while n < |s| && p(s[n])
      invariant n <= |s| && forall i :: 0 <= i < n ==> p(s[i])
    {
      n := n + 1;
    }
  }

  /** Every wanted key whose local port lies in the block gets that number. */
  ghost predicate AllKeepNumbers(lo: Port, hi: Port, w: seq<Key>, m': map<Key, Port>) {
    forall k :: k in w && InBlock(k.local, lo, hi) ==> k in m' && m'[k] == k.local
  }

  /** No wanted in-block local port clashes with a held port, its own older port or the other protocol. */
  ghost predicate NoClash(m: map<Key, Port>, lo: Port, hi: Port, w: seq<Key>) {
    forall k :: k in w && InBlock(k.local, lo, hi) ==> OwnNumberFree(m, lo, hi, w, k)
  }

  /** A local port inside the block keeps its number exactly when there is no clash. */
  lemma KeepsNumbersIff(m: map<Key, Port>, lo: Port, hi: Port, w: seq<Key>)
    requires Injective(m) && Distinct(w) && InOrder(lo, hi, w)
    requires AssignAll(m, lo, hi, w).Some?
    ensures AllKeepNumbers(lo, hi, w, AssignAll(m, lo, hi, w).value) <==> NoClash(m, lo, hi, w)
  {
    AssignAllExtends(m, lo, hi, w);
    if NoClash(m, lo, hi, w) {
      forall i, j | 0 <= i < j < |w| && InBlock(w[j].local, lo, hi)
        ensures InBlock(w[i].local, lo, hi)
      {
        assert Before(lo, hi, w[i], w[j]);
      }
      var n := Prefix(w, (k: Key) => InBlock(k.local, lo, hi));
      forall i | 0 <= i < n
        ensures InBlock(w[i].local, lo, hi) && OwnNumberFree(m, lo, hi, w[..n], w[i])
      {
        assert w[i] in w;
        assert OwnNumberFree(m, lo, hi, w, w[i]);
      }
      PrefixKeepsNumbers(m, lo, hi, w, n);
    }
  }

  /** A user that holds nothing in its block: every in-block TCP port keeps its number. */
  lemma TcpKeepsNumbers(m: map<Key, Port>, lo: Port, hi: Port, w: seq<Key>, p: Port)
    requires Injective(m) && Distinct(w) && InOrder(lo, hi, w)
    requires AssignAll(m, lo, hi, w).Some? && Held(m, lo, hi) == {}
    requires Key(Tcp, p) in w && InBlock(p, lo, hi)
    ensures Key(Tcp, p) in AssignAll(m, lo, hi, w).value && AssignAll(m, lo, hi, w).value[Key(Tcp, p)] == p
  {
    var own := (k: Key) => InBlock(k.local, lo, hi) && k.proto == Tcp;
    forall i, j | 0 <= i < j < |w| && own(w[j])
      ensures own(w[i])
    {
      assert Before(lo, hi, w[i], w[j]);
    }
    var n := Prefix(w, own);
    forall i | 0 <= i < n
      ensures InBlock(w[i].local, lo, hi) && OwnNumberFree(m, lo, hi, w[..n], w[i])
    {
      assert own(w[i]);
      HeldHas(m, lo, hi, w[i]);
      forall x | x in w[..n] && x.local == w[i].local
        ensures x == w[i]
      {
        var j :| 0 <= j < n && w[j] == x;
        assert own(w[j]);
      }
    }
    PrefixKeepsNumbers(m, lo, hi, w, n);
    var i :| 0 <= i < |w| && w[i] == Key(Tcp, p);
    assert own(w[i]);
  }

  /** A successful allocation, one key further. */
  lemma SettleFirst(m: map<Key, Port>, lo: Port, hi: Port, w: seq<Key>) returns (m1: map<Key, Port>)
    requires Injective(m) && w != [] && AssignAll(m, lo, hi, w).Some?
    ensures Some(m1) == Assign(m, lo, hi, w[0]) && Settles(m, lo, hi, w[0], m1)
    ensures AssignAll(m, lo, hi, w) == AssignAll(m1, lo, hi, w[1..])
    ensures Extends(m1, lo, hi, w[1..], AssignAll(m, lo, hi, w).value)
  {
    AssignStep(m, lo, hi, w[0]);
    m1 := Assign(m, lo, hi, w[0]).value;
    AssignAllExtends(m1, lo, hi, w[1..]);
  }

  lemma DistinctRest(w: seq<Key>, i: nat)
    requires Distinct(w) && i <= |w|
    ensures Distinct(w[i..])
  {
  }

  /** The allocation after its first `i` keys: nothing is settled that was not, from there on. */
  lemma {:induction false} SkipTo(m: map<Key, Port>, lo: Port, hi: Port, w: seq<Key>, m': map<Key, Port>, i: nat)
    returns (mi: map<Key, Port>)
    requires Injective(m) && Distinct(w) && i <= |w| && AssignAll(m, lo, hi, w) == Some(m')
    ensures Injective(mi) && AssignAll(mi, lo, hi, w[i..]) == Some(m')
    ensures forall j :: i <= j < |w| ==> (Settled(mi, lo, hi, w[j]) <==> Settled(m, lo, hi, w[j]))
    decreases i
  {
    if i == 0 {
      mi := m;
      assert w[0..] == w;
    } else {
      var mp := SkipTo(m, lo, hi, w, m', i - 1);
      var v := w[i - 1..];
      DistinctRest(w, i - 1);
      mi := SettleFirst(mp, lo, hi, v);
      assert v[1..] == w[i..];
      forall j | i <= j < |w|
        ensures Settled(mi, lo, hi, w[j]) <==> Settled(mp, lo, hi, w[j])
      {
        StillUnsettled(mp, lo, hi, v, mi, j - (i - 1));
      }
    }
  }

  /** Fallback ports given in one call strictly increase along the wanted order. */
  lemma FallbackIncreases(m: map<Key, Port>, lo: Port, hi: Port, w: seq<Key>, m': map<Key, Port>, i: nat, j: nat)
    requires Injective(m) && Distinct(w) && i < j < |w| && AssignAll(m, lo, hi, w) == Some(m')
    requires !InBlock(w[i].local, lo, hi) && !Settled(m, lo, hi, w[i]) && !Settled(m, lo, hi, w[j])
    ensures w[i] in m' && w[j] in m' && m'[w[i]] < m'[w[j]]
  {
    var mi := SkipTo(m, lo, hi, w, m', i);
    DistinctRest(w, i);
    assert w[i..][0] == w[i] && w[i..][j - i] == w[j];
    FirstFallback(mi, lo, hi, w[i..], m', j - i);
  }

  /** Settling the first key settles no other. */
  lemma StillUnsettled(m: map<Key, Port>, lo: Port, hi: Port, w: seq<Key>, m1: map<Key, Port>, i: nat)
    requires Distinct(w) && 0 < i < |w| && Settles(m, lo, hi, w[0], m1)
    ensures w[1..][i - 1] == w[i]
    ensures Settled(m1, lo, hi, w[i]) <==> Settled(m, lo, hi, w[i])
  {
  }

  lemma FirstFallback(m: map<Key, Port>, lo: Port, hi: Port, w: seq<Key>, m': map<Key, Port>, j: nat)
    requires Injective(m) && Distinct(w) && 0 < j < |w| && AssignAll(m, lo, hi, w) == Some(m')
    requires !InBlock(w[0].local, lo, hi) && !Settled(m, lo, hi, w[0]) && !Settled(m, lo, hi, w[j])
    ensures w[0] in m' && w[j] in m' && m'[w[0]] < m'[w[j]]
  {
    var m1 := SettleFirst(m, lo, hi, w);
    StillUnsettled(m, lo, hi, w, m1, j);
    FallbackIsLowest(m, lo, hi, w[0], m1);
    LaterIsHigher(m1, lo, hi, w[1..], m', w[0], w[j]);
  }

  lemma LaterIsHigher(m1: map<Key, Port>, lo: Port, hi: Port, v: seq<Key>, m': map<Key, Port>, a: Key, b: Key)
    requires Extends(m1, lo, hi, v, m') && Settled(m1, lo, hi, a) && b in v && !Settled(m1, lo, hi, b)
    requires forall p: Port :: lo <= p <= m1[a] ==> p in Held(m1, lo, hi)
    ensures a in m' && b in m' && m'[a] < m'[b]
  {
    assert m'[a] == m1[a];
    assert b in Elements(v);
    assert m'[b] !in Held(m1, lo, hi) && InBlock(m'[b], lo, hi);
  }

  /** A key that cannot keep its number takes the lowest free port: everything below it is held. */
  lemma FallbackIsLowest(m: map<Key, Port>, lo: Port, hi: Port, k: Key, m1: map<Key, Port>)
    requires !InBlock(k.local, lo, hi) && !Settled(m, lo, hi, k)
    requires Assign(m, lo, hi, k) == Some(m1) && k in m1
    ensures forall p: Port :: lo <= p <= m1[k] ==> p in Held(m1, lo, hi)
  {
    forall p: Port | lo <= p <= m1[k]
      ensures p in Held(m1, lo, hi)
    {
      if p < m1[k] {
        assert p in (m - {k}).Values;
        var x :| x in m - {k} && (m - {k})[x] == p;
        assert x in m1 && m1[x] == p;
      }
    }
  }

  ghost predicate TcpKeep(lo: Port, hi: Port, w: seq<Key>, m': map<Key, Port>) {
    forall k :: k in w && k.proto == Tcp && InBlock(k.local, lo, hi) ==> k in m' && m'[k] == k.local
  }

  ghost predicate NewPortsIncrease(m: map<Key, Port>, lo: Port, hi: Port, w: seq<Key>, m': map<Key, Port>) {
    forall a, b :: Relocated(m, lo, hi, w, a) && Relocated(m, lo, hi, w, b) &&
                   ((a.proto == Tcp && b.proto == Udp) || (a.proto == b.proto && a.local < b.local)) ==>
                     a in m' && b in m' && m'[a] < m'[b]
  }

  /** A wanted key that gets a new port other than its own number: its local port is outside the block. */
  ghost predicate Relocated(m: map<Key, Port>, lo: Port, hi: Port, w: seq<Key>, k: Key) {
    k in w && !InBlock(k.local, lo, hi) && !Settled(m, lo, hi, k)
  }

  /** Of two keys outside the block, the one that comes first in the wanted list is the smaller. */
  lemma OutsideOrder(lo: Port, hi: Port, w: seq<Key>, i: nat, j: nat)
    requires InOrder(lo, hi, w) && i < |w| && j < |w|
    requires !InBlock(w[i].local, lo, hi) && !InBlock(w[j].local, lo, hi)
    requires (w[i].proto == Tcp && w[j].proto == Udp) || (w[i].proto == w[j].proto && w[i].local < w[j].local)
    ensures i < j
  {
  }

  lemma RelocatedIncrease(m: map<Key, Port>, lo: Port, hi: Port, w: seq<Key>, m': map<Key, Port>, a: Key, b: Key)
    requires Injective(m) && Distinct(w) && InOrder(lo, hi, w)
    requires AssignAll(m, lo, hi, w) == Some(m')
    requires Relocated(m, lo, hi, w, a) && Relocated(m, lo, hi, w, b)
    requires (a.proto == Tcp && b.proto == Udp) || (a.proto == b.proto && a.local < b.local)
    ensures a in m' && b in m' && m'[a] < m'[b]
  {
    var i :| 0 <= i < |w| && w[i] == a;
    var j :| 0 <= j < |w| && w[j] == b;
    OutsideOrder(lo, hi, w, i, j);
    FallbackIncreases(m, lo, hi, w, m', i, j);
  }

  lemma FreshKeepsTcp(m: map<Key, Port>, lo: Port, hi: Port, w: seq<Key>)
    requires Injective(m) && Distinct(w) && InOrder(lo, hi, w) && Held(m, lo, hi) == {}
    requires AssignAll(m, lo, hi, w).Some?
    ensures TcpKeep(lo, hi, w, AssignAll(m, lo, hi, w).value)
  {
    var m' := AssignAll(m, lo, hi, w).value;
    forall k | k in w && k.proto == Tcp && InBlock(k.local, lo, hi)
      ensures k in m' && m'[k] == k.local
    {
      TcpKeepsNumbers(m, lo, hi, w, k.local);
    }
  }

  lemma NewIncrease(m: map<Key, Port>, lo: Port, hi: Port, w: seq<Key>, m': map<Key, Port>)
    requires Injective(m) && Distinct(w) && InOrder(lo, hi, w)
    requires AssignAll(m, lo, hi, w) == Some(m')
    ensures NewPortsIncrease(m, lo, hi, w, m')
  {
    forall a, b | Relocated(m, lo, hi, w, a) && Relocated(m, lo, hi, w, b) &&
                  ((a.proto == Tcp && b.proto == Udp) || (a.proto == b.proto && a.local < b.local))
      ensures a in m' && b in m' && m'[a] < m'[b]
    {
      RelocatedIncrease(m, lo, hi, w, m', a, b);
    }
  }

  lemma NumbersGiven(m: map<Key, Port>, lo: Port, hi: Port, w: seq<Key>)
    requires Injective(m) && Distinct(w) && InOrder(lo, hi, w)
    requires AssignAll(m, lo, hi, w).Some?
    ensures Held(m, lo, hi) == {} ==> TcpKeep(lo, hi, w, AssignAll(m, lo, hi, w).value)
    ensures NewPortsIncrease(m, lo, hi, w, AssignAll(m, lo, hi, w).value)
  {
    if Held(m, lo, hi) == {} {
      FreshKeepsTcp(m, lo, hi, w);
    }
    NewIncrease(m, lo, hi, w, AssignAll(m, lo, hi, w).value);
  }

  // ---------- the table ----------

  /** At most one row per key, and no remote port twice, for each user. */
  ghost predicate WellFormed(t: seq<Alloc>) {
    forall i, j :: 0 <= i < j < |t| && t[i].user == t[j].user ==> t[i].key != t[j].key && t[i].remote != t[j].remote
  }

  /** The first row of `user` for `k`. */
  function Position(t: seq<Alloc>, user: string, k: Key): (r: Option<nat>)
    ensures r.Some? ==> r.value < |t| && t[r.value].user == user && t[r.value].key == k
    ensures r.None? ==> forall i :: 0 <= i < |t| ==> t[i].user != user || t[i].key != k
  {
    if t == [] then None
    else if t[0].user == user && t[0].key == k then Some(0)
    else
      var r := Position(t[1..], user, k);
      if r.None? then None else Some(r.value + 1)
  }

  function UsedPorts(t: seq<Alloc>, user: string): set<Port> {
    set a | a in t && a.user == user :: a.remote
  }

  datatype Placing = Full | Placing(table: seq<Alloc>, changed: bool)

  /** The table without the row at `e`. */
  function Evict(t: seq<Alloc>, e: Option<nat>): seq<Alloc>
    requires e.Some? ==> e.value < |t|
  {
    if e.Some? then t[..e.value] + t[e.value + 1..] else t
  }

  /** The table with a new row for `k` at the port chosen for it. */
  function Append(rest: seq<Alloc>, user: string, lo: Port, hi: Port, k: Key): Placing {
    var r := Choose(k, lo, hi, UsedPorts(rest, user));
    if r.None? then Full else Placing(rest + [Alloc(user, k, r.value)], true)
  }

  /** One turn of the loop of `register`. */
  function Place(t: seq<Alloc>, changed: bool, user: string, lo: Port, hi: Port, k: Key): Placing {
    var e := Position(t, user, k);
    if e.Some? && InBlock(t[e.value].remote, lo, hi) then Placing(t, changed)
    else Append(Evict(t, e), user, lo, hi, k)
  }

  function PlaceAll(t: seq<Alloc>, changed: bool, user: string, lo: Port, hi: Port, w: seq<Key>): Placing
    decreases |w|
  {
    if w == [] then Placing(t, changed)
    else
      var r := Place(t, changed, user, lo, hi, w[0]);
      if r.Full? then Full else PlaceAll(r.table, r.changed, user, lo, hi, w[1..])
  }

  /** The assignment of one user. */
  ghost function Ports(t: seq<Alloc>, user: string): map<Key, Port>
    requires WellFormed(t)
  {
    map a | a in t && a.user == user :: a.key := a.remote
  }

  lemma PortsRows(t: seq<Alloc>, user: string)
    requires WellFormed(t)
    ensures forall k, p: Port :: k in Ports(t, user) && Ports(t, user)[k] == p <==> Alloc(user, k, p) in t
    ensures Injective(Ports(t, user))
    ensures UsedPorts(t, user) == Ports(t, user).Values
  {
    var m := Ports(t, user);
    forall k | k in m
      ensures Alloc(user, k, m[k]) in t
    {
      var a :| a in t && a.user == user && a.key == k && m[k] == a.remote;
      assert a == Alloc(user, k, m[k]);
    }
    forall k, p: Port | Alloc(user, k, p) in t
      ensures k in m && m[k] == p
    {
      var a := Alloc(user, k, p);
      assert a.key in m;
    }
    forall a, b | a in m && b in m && m[a] == m[b]
      ensures a == b
    {
      var i :| 0 <= i < |t| && t[i] == Alloc(user, a, m[a]);
      var j :| 0 <= j < |t| && t[j] == Alloc(user, b, m[b]);
    }
    forall p: Port
      ensures p in UsedPorts(t, user) <==> p in m.Values
    {
      if p in UsedPorts(t, user) {
        var a :| a in t && a.user == user && a.remote == p;
        assert a == Alloc(user, a.key, p);
        assert a.key in m && m[a.key] == p;
      }
      if p in m.Values {
        var k :| k in m && m[k] == p;
        assert Alloc(user, k, p) in t;
      }
    }
  }

  /** A table of one user's rows is determined, as a set of rows, by the assignments. */
  lemma SameRows(t: seq<Alloc>, t': seq<Alloc>, user: string)
    requires WellFormed(t) && WellFormed(t')
    requires forall a: Alloc :: a.user == user ==> (a in t <==> a in t')
    ensures Ports(t, user) == Ports(t', user)
  {
    PortsRows(t, user);
    PortsRows(t', user);
    var m, m' := Ports(t, user), Ports(t', user);
    forall k
      ensures k in m <==> k in m'
      ensures k in m ==> k in m' && m[k] == m'[k]
    {
      if k in m {
        assert Alloc(user, k, m[k]) in t;
        assert Alloc(user, k, m[k]) in t';
      }
      if k in m' {
        assert Alloc(user, k, m'[k]) in t';
        assert Alloc(user, k, m'[k]) in t;
      }
    }
  }

  lemma RemoveRowSet(t: seq<Alloc>, i: nat)
    requires WellFormed(t) && i < |t|
    ensures var r := t[..i] + t[i + 1..];
            WellFormed(r) && forall a :: a in r <==> a in t && a != t[i]
  {
    var r := t[..i] + t[i + 1..];
    forall x | 0 <= x < |r|
      ensures r[x] == t[if x < i then x else x + 1] && r[x] != t[i]
    {
    }
    forall a | a in t && a != t[i]
      ensures a in r
    {
      var x :| 0 <= x < |t| && t[x] == a;
      assert r[if x < i then x else x - 1] == a;
    }
  }

  lemma RemoveRow(t: seq<Alloc>, i: nat)
    requires WellFormed(t) && i < |t|
    ensures WellFormed(t[..i] + t[i + 1..])
    ensures Ports(t[..i] + t[i + 1..], t[i].user) == Ports(t, t[i].user) - {t[i].key}
    ensures forall v :: v != t[i].user ==> Ports(t[..i] + t[i + 1..], v) == Ports(t, v)
  {
    var r := t[..i] + t[i + 1..];
    RemoveRowSet(t, i);
    forall v | v != t[i].user
      ensures Ports(r, v) == Ports(t, v)
    {
      SameRows(t, r, v);
    }
    DropKey(t, r, t[i]);
  }

  lemma DropKey(t: seq<Alloc>, r: seq<Alloc>, a: Alloc)
    requires WellFormed(t) && WellFormed(r) && a in t
    requires forall b :: b in r <==> b in t && b != a
    ensures Ports(r, a.user) == Ports(t, a.user) - {a.key}
  {
    PortsRows(t, a.user);
    PortsRows(r, a.user);
    var m, m' := Ports(t, a.user), Ports(r, a.user);
    assert Alloc(a.user, a.key, a.remote) in t;
    forall k
      ensures k in m' <==> k in m && k != a.key
      ensures k in m' ==> k in m && m'[k] == m[k]
    {
      if k in m' {
        assert Alloc(a.user, k, m'[k]) in r;
      }
      if k in m && k != a.key {
        assert Alloc(a.user, k, m[k]) in r;
      }
    }
  }

  lemma AppendRow(t: seq<Alloc>, a: Alloc)
    requires WellFormed(t) && a.key !in Ports(t, a.user) && a.remote !in UsedPorts(t, a.user)
    ensures WellFormed(t + [a])
    ensures Ports(t + [a], a.user) == Ports(t, a.user)[a.key := a.remote]
    ensures forall v :: v != a.user ==> Ports(t + [a], v) == Ports(t, v)
  {
    var r := t + [a];
    PortsRows(t, a.user);
    assert WellFormed(r) by {
      forall x | 0 <= x < |t| && t[x].user == a.user
        ensures t[x].key != a.key && t[x].remote != a.remote
      {
        assert t[x] in t && t[x] == Alloc(a.user, t[x].key, t[x].remote);
      }
    }
    forall v | v != a.user
      ensures Ports(r, v) == Ports(t, v)
    {
      SameRows(t, r, v);
    }
    PortsRows(r, a.user);
    var m, m' := Ports(t, a.user), Ports(r, a.user);
    assert a in r && a == Alloc(a.user, a.key, a.remote);
    forall k
      ensures k in m' <==> k in m || k == a.key
      ensures k in m ==> k in m' && m'[k] == m[k]
    {
      if k in m {
        assert Alloc(a.user, k, m[k]) in t;
        assert Alloc(a.user, k, m[k]) in r;
      }
      if k in m' && k != a.key {
        assert Alloc(a.user, k, m'[k]) in r;
        assert Alloc(a.user, k, m'[k]) in t;
      }
    }
  }

  ghost predicate SameForOthers(t: seq<Alloc>, t': seq<Alloc>, user: string)
    requires WellFormed(t) && WellFormed(t')
  {
    forall v :: v != user ==> Ports(t', v) == Ports(t, v)
  }

  lemma PositionExact(t: seq<Alloc>, user: string, k: Key)
    requires WellFormed(t)
    ensures Position(t, user, k).Some? <==> k in Ports(t, user)
    ensures Position(t, user, k).Some? ==>
              t[Position(t, user, k).value] == Alloc(user, k, t[Position(t, user, k).value].remote)
              && Ports(t, user)[k] == t[Position(t, user, k).value].remote
  {
    PortsRows(t, user);
    var e := Position(t, user, k);
    if e.Some? {
      assert t[e.value] in t;
    } else {
      assert forall p: Port :: Alloc(user, k, p) !in t;
    }
  }

  lemma EvictRow(t: seq<Alloc>, user: string, k: Key)
    requires WellFormed(t)
    ensures var rest := Evict(t, Position(t, user, k));
            WellFormed(rest) && Ports(rest, user) == Ports(t, user) - {k} && SameForOthers(t, rest, user)
  {
    PositionExact(t, user, k);
    var e := Position(t, user, k);
    if e.Some? {
      RemoveRow(t, e.value);
    } else {
      assert Ports(t, user) - {k} == Ports(t, user);
    }
  }

  /** Appending the chosen port to the table is updating the assignment with it. */
  lemma AppendChosen(rest: seq<Alloc>, user: string, m: map<Key, Port>, lo: Port, hi: Port, k: Key)
    requires WellFormed(rest) && Ports(rest, user) == m - {k}
    ensures UsedPorts(rest, user) == (m - {k}).Values
    ensures var r := Choose(k, lo, hi, UsedPorts(rest, user));
            r.Some? ==>
              var t' := rest + [Alloc(user, k, r.value)];
              WellFormed(t') && Ports(t', user) == m[k := r.value] && SameForOthers(rest, t', user)
  {
    PortsRows(rest, user);
    var r := Choose(k, lo, hi, UsedPorts(rest, user));
    if r.Some? {
      AppendRow(rest, Alloc(user, k, r.value));
      assert (m - {k})[k := r.value] == m[k := r.value];
    }
  }

  lemma PlaceIsSettled(t: seq<Alloc>, changed: bool, user: string, lo: Port, hi: Port, k: Key)
    requires WellFormed(t)
    ensures if Settled(Ports(t, user), lo, hi, k) then Place(t, changed, user, lo, hi, k) == Placing(t, changed)
            else Place(t, changed, user, lo, hi, k) == Append(Evict(t, Position(t, user, k)), user, lo, hi, k)
  {
    PositionExact(t, user, k);
  }

  /** One turn on the table is one step on the user's assignment, and touches nobody else. */
  lemma PlaceRefines(t: seq<Alloc>, changed: bool, user: string, lo: Port, hi: Port, k: Key)
    requires WellFormed(t)
    ensures var r, m := Place(t, changed, user, lo, hi, k), Ports(t, user);
            && (r.Full? <==> Assign(m, lo, hi, k).None?)
            && (r.Placing? ==>
                  && WellFormed(r.table) && Some(Ports(r.table, user)) == Assign(m, lo, hi, k)
                  && SameForOthers(t, r.table, user)
                  && (r.changed <==> changed || !Settled(m, lo, hi, k))
                  && (Settled(m, lo, hi, k) ==> r.table == t))
  {
    var m := Ports(t, user);
    PlaceIsSettled(t, changed, user, lo, hi, k);
    if !Settled(m, lo, hi, k) {
      EvictRow(t, user, k);
      AppendChosen(Evict(t, Position(t, user, k)), user, m, lo, hi, k);
    }
  }

  ghost predicate AllSettled(m: map<Key, Port>, lo: Port, hi: Port, w: seq<Key>) {
    forall k :: k in w ==> Settled(m, lo, hi, k)
  }

  lemma AllSettledCons(m: map<Key, Port>, lo: Port, hi: Port, w: seq<Key>, m1: map<Key, Port>)
    requires w != [] && Settles(m, lo, hi, w[0], m1)
    ensures AllSettled(m, lo, hi, w) <==> Settled(m, lo, hi, w[0]) && AllSettled(m1, lo, hi, w[1..])
  {
    assert w == [w[0]] + w[1..];
    forall k | k != w[0]
      ensures k in w <==> k in w[1..]
      ensures Settled(m, lo, hi, k) <==> Settled(m1, lo, hi, k)
    {
    }
  }

  lemma {:induction false} PlaceAllRefines(t: seq<Alloc>, changed: bool, user: string, lo: Port, hi: Port, w: seq<Key>)
    requires WellFormed(t)
    ensures var r, m := PlaceAll(t, changed, user, lo, hi, w), Ports(t, user);
            && (r.Full? <==> AssignAll(m, lo, hi, w).None?)
            && (r.Placing? ==>
                  && WellFormed(r.table) && Some(Ports(r.table, user)) == AssignAll(m, lo, hi, w)
                  && SameForOthers(t, r.table, user)
                  && (r.changed <==> changed || !AllSettled(m, lo, hi, w))
                  && (AllSettled(m, lo, hi, w) ==> r.table == t))
    decreases |w|
  {
    if w != [] {
      PlaceRefines(t, changed, user, lo, hi, w[0]);
      var r := Place(t, changed, user, lo, hi, w[0]);
      if r.Placing? {
        PlaceAllRefines(r.table, r.changed, user, lo, hi, w[1..]);
        PortsRows(t, user);
        AssignStep(Ports(t, user), lo, hi, w[0]);
        AllSettledCons(Ports(t, user), lo, hi, w, Ports(r.table, user));
      }
    }
  }
}

/** How many bytes a directory takes on the wire, and whether it fits a frame. */
module DirectorySize {
  import opened Types
  import opened Sorting
  import opened Allocator
  import opened Bytes
  import opened Wire
  import Registry
  import RegistryRuns

  /** `write_frame` accepts the directory. */
  ghost predicate Fits(dir: seq<Mapping>) {
    Frame(ControlCmdCodec(), Directory(dir)).Some?
  }

  function RowSize(user: string): nat {
    17 + |Utf8(user)|
  }

  function RowsSize(dir: seq<Mapping>): nat {
    if dir == [] then 0 else RowSize(dir[0].user) + RowsSize(dir[1..])
  }

  function TableSize(t: seq<Alloc>): nat {
    if t == [] then 0 else RowSize(t[0].user) + TableSize(t[1..])
  }

  lemma MappingSize(m: Mapping)
    ensures |EncMapping(m)| == RowSize(m.user)
  {
  }

  lemma {:induction false} ItemsOfRows(dir: seq<Mapping>)
    ensures |EncItems(MappingCodec(), dir)| == RowsSize(dir)
  {
    if dir != [] {
      MappingSize(dir[0]);
      ItemsOfRows(dir[1..]);
    }
  }

  /** A directory fits exactly when twelve bytes and its rows are no more than a frame. */
  lemma FitsIff(dir: seq<Mapping>)
    ensures |EncControlCmd(Directory(dir))| == 12 + RowsSize(dir)
    ensures Fits(dir) <==> 12 + RowsSize(dir) <= 1048576
  {
    ItemsOfRows(dir);
    DirectoryCmdSize(dir, RowsSize(dir));
  }

  lemma DirectoryCmdSize(dir: seq<Mapping>, n: nat)
    requires |EncItems(MappingCodec(), dir)| == n
    ensures |EncControlCmd(Directory(dir))| == 12 + n
  {
  }

  // ---------- the size of a table's directory ----------

  lemma {:induction false} InsertSize(x: Mapping, s: seq<Mapping>, leq: (Mapping, Mapping) -> bool)
    ensures RowsSize(Insert(x, s, leq)) == RowSize(x.user) + RowsSize(s)
  {
    if s == [] || leq(x, s[0]) {
      assert ([x] + s)[1..] == s;
    } else {
      InsertSize(x, s[1..], leq);
      assert ([s[0]] + Insert(x, s[1..], leq))[1..] == Insert(x, s[1..], leq);
    }
  }

  lemma {:induction false} SortSize(s: seq<Mapping>, leq: (Mapping, Mapping) -> bool)
    ensures RowsSize(SortBy(s, leq)) == RowsSize(s)
  {
    if s != [] {
      SortSize(s[1..], leq);
      InsertSize(s[0], SortBy(s[1..], leq), leq);
    }
  }

  lemma {:induction false} RowsOfTable(t: seq<Alloc>, online: map<string, Registry.Session>)
    ensures RowsSize(Registry.Rows(t, online)) == TableSize(t)
  {
    if t != [] {
      RowsOfTable(t[1..], online);
      assert Registry.Rows(t, online)[1..] == Registry.Rows(t[1..], online);
    }
  }

  /** Whoever is online, a table's directory has one size. */
  lemma SizeOfDirectory(t: seq<Alloc>, online: map<string, Registry.Session>)
    ensures RowsSize(Registry.Directory(t, online)) == TableSize(t)
  {
    SortSize(Registry.Rows(t, online), Registry.MappingLeq);
    RowsOfTable(t, online);
  }

  // ---------- it never shrinks ----------

  lemma {:induction false} SizeOfSum(a: seq<Alloc>, b: seq<Alloc>)
    ensures TableSize(a + b) == TableSize(a) + TableSize(b)
  {
    if a == [] {
      assert a + b == b;
    } else {
      assert (a + b)[1..] == a[1..] + b;
      SizeOfSum(a[1..], b);
    }
  }

  lemma EvictSize(t: seq<Alloc>, i: nat)
    requires i < |t|
    ensures TableSize(Evict(t, Some(i))) == TableSize(t) - RowSize(t[i].user)
  {
    SizeOfSum(t[..i], t[i..]);
    SizeOfSum(t[..i], t[i + 1..]);
    assert t[..i] + t[i..] == t && t[i..][1..] == t[i + 1..];
  }

  lemma AppendSize(t: seq<Alloc>, a: Alloc)
    ensures TableSize(t + [a]) == TableSize(t) + RowSize(a.user)
  {
    SizeOfSum(t, [a]);
  }

  /** One turn of the loop replaces a row of the user or adds one. */
  lemma PlaceSize(t: seq<Alloc>, changed: bool, user: string, lo: Port, hi: Port, k: Key)
    ensures var r := Place(t, changed, user, lo, hi, k); r.Placing? ==> TableSize(r.table) >= TableSize(t)
  {
    var e := Position(t, user, k);
    var rest := Evict(t, e);
    if e.Some? {
      EvictSize(t, e.value);
    }
    var r := Choose(k, lo, hi, UsedPorts(rest, user));
    if r.Some? {
      AppendSize(rest, Alloc(user, k, r.value));
    }
  }

  lemma {:induction false} PlaceAllSize(t: seq<Alloc>, changed: bool, user: string, lo: Port, hi: Port, w: seq<Key>)
    ensures var r := PlaceAll(t, changed, user, lo, hi, w); r.Placing? ==> TableSize(r.table) >= TableSize(t)
    decreases |w|
  {
    if w != [] {
      PlaceSize(t, changed, user, lo, hi, w[0]);
      var r := Place(t, changed, user, lo, hi, w[0]);
      if r.Placing? {
        PlaceAllSize(r.table, r.changed, user, lo, hi, w[1..]);
      }
    }
  }

  /** No operation shrinks the table; a reload keeps it, as the file equals it. */
  lemma ApplySize(s: Registry.State, op: RegistryRuns.Op)
    requires RegistryRuns.Consistent(s)
    ensures TableSize(RegistryRuns.Apply(s, op).allocs) >= TableSize(s.allocs)
  {
    if op.Register? {
      PlaceAllSize(s.allocs, false, op.cfg.name, op.cfg.lo, op.cfg.hi, Wanted(op.cfg));
    }
  }

  lemma {:induction false} RunSize(s: Registry.State, ops: seq<RegistryRuns.Op>)
    requires RegistryRuns.Consistent(s)
    ensures TableSize(RegistryRuns.Run(s, ops).allocs) >= TableSize(s.allocs)
    decreases |ops|
  {
    if ops != [] {
      ApplySize(s, ops[0]);
      RegistryRuns.ApplyConsistent(s, ops[0]);
      RunSize(RegistryRuns.Apply(s, ops[0]), ops[1..]);
    }
  }

  /** Whether the published directory fits depends on the table alone. */
  lemma CurrentFitsIff(s: Registry.State)
    requires RegistryRuns.Consistent(s)
    ensures Fits(Registry.Current(s)) <==> 12 + TableSize(s.allocs) <= MAX_FRAME
  {
    FitsIff(Registry.Current(s));
    SizeOfDirectory(s.allocs, s.online);
  }

  /** Once too large for a frame, the directory stays too large, over any operations and even a restart. */
  lemma TooLargeForever(s: Registry.State, ops: seq<RegistryRuns.Op>)
    requires RegistryRuns.Consistent(s) && !Fits(Registry.Current(s))
    ensures RegistryRuns.Run(s, ops).log != [] && !Fits(Registry.Current(RegistryRuns.Run(s, ops)))
  {
    RunSize(s, ops);
    RegistryRuns.RunConsistent(s, ops);
    CurrentFitsIff(s);
    CurrentFitsIff(RegistryRuns.Run(s, ops));
  }

  /** A directory without rows fits. */
  lemma EmptyFits()
    ensures Fits([])
  {
    FitsIff([]);
  }

  /** A report, by contrast, always fits: at most 65536 ports of two bytes. */
  lemma ReportFits(ports: seq<Port>)
    requires StrictlyIncreasing(ports)
    ensures Frame(ClientCmdCodec(), Disabled(ports)).Some?
  {
    IncreasingLength(ports);
    PortsLayout(ports);
    DisabledSize(ports, |EncItems(PortCodec(), ports)|);
  }

  lemma DisabledSize(ports: seq<Port>, n: nat)
    requires |EncItems(PortCodec(), ports)| == n
    ensures |EncClientCmd(Disabled(ports))| == 12 + n
  {
  }

  lemma {:induction false} IncreasingLength(ports: seq<Port>)
    requires StrictlyIncreasing(ports)
    ensures |ports| <= 65536 && (ports != [] ==> |ports| <= ports[|ports| - 1] as int + 1)
  {
    if |ports| > 1 {
      var init := ports[..|ports| - 1];
      IncreasingLength(init);
      assert init[|init| - 1] == ports[|ports| - 2] < ports[|ports| - 1];
    }
  }
}

/** A configuration that validation accepts and whose directory no frame can carry. */
module OversizedDirectory {
  import opened Types
  import opened Sorting
  import opened Decimals
  import opened Allocator
  import opened DirectorySize
  import opened Config
  import opened Server
  import Registry
  import RegistryRuns
  import SessionEnds
  import Wire

  // ---------- a user with many rows ----------

  ghost function UserKeys(t: seq<Alloc>, user: string): set<Key> {
    set a | a in t && a.user == user :: a.key
  }

  lemma UserKeysCons(t: seq<Alloc>, user: string)
    requires t != []
    ensures UserKeys(t, user) == (if t[0].user == user then {t[0].key} else {}) + UserKeys(t[1..], user)
  {
    assert t == [t[0]] + t[1..];
    forall k
      ensures k in UserKeys(t, user) <==> k in UserKeys(t[1..], user) || (t[0].user == user && k == t[0].key)
    {
      if a :| a in t && a.user == user && a.key == k {
        assert a == t[0] || a in t[1..];
      }
    }
  }

  lemma OneMoreKey(ks: set<Key>, k: Key)
    ensures |{k} + ks| <= 1 + |ks|
  {
    if k in ks {
      assert {k} + ks == ks;
    }
  }

  /** Every key of a user takes at least one row. */
  lemma {:induction false} RowsOfUser(t: seq<Alloc>, user: string, size: nat)
    requires size == RowSize(user)
    ensures size * |UserKeys(t, user)| <= TableSize(t)
  {
    if t == [] {
      assert UserKeys(t, user) == {};
    } else {
      RowsOfUser(t[1..], user, size);
      UserKeysCons(t, user);
      if t[0].user == user {
        OneMoreKey(UserKeys(t[1..], user), t[0].key);
        OneRowMore(size, |UserKeys(t, user)|, |UserKeys(t[1..], user)|, TableSize(t[1..]));
      } else {
        assert UserKeys(t, user) == UserKeys(t[1..], user);
      }
    }
  }

  lemma OneRowMore(size: nat, a: nat, b: nat, total: nat)
    requires a <= 1 + b && size * b <= total
    ensures size * a <= size + total
  {
    Grows(size, a, 1 + b);
    assert size * (1 + b) == size + size * b;
  }

  lemma Grows(size: nat, a: nat, b: nat)
    requires a <= b
    ensures size * a <= size * b
  {
  }

  lemma WantedHaveRows(reg: Registry.State, cfg: UserConfig, n: Registry.Nonce, diskOk: bool)
    requires RegistryRuns.Consistent(reg) && Registry.DoRegister(reg, cfg, n, diskOk).1.Registered?
    ensures Elements(Wanted(cfg)) <= UserKeys(Registry.DoRegister(reg, cfg, n, diskOk).0.allocs, cfg.name)
  {
    var reg' := Registry.DoRegister(reg, cfg, n, diskOk).0;
    Registry.RegisterEffect(reg, cfg, n, diskOk);
    PortsRows(reg'.allocs, cfg.name);
    forall k | k in Wanted(cfg)
      ensures k in UserKeys(reg'.allocs, cfg.name)
    {
      assert k in Elements(Wanted(cfg));
      assert Alloc(cfg.name, k, Ports(reg'.allocs, cfg.name)[k]) in reg'.allocs;
    }
  }

  /** Registering a user whose own rows exceed a frame leaves a directory that does not fit. */
  lemma BigUserDoesNotFit(reg: Registry.State, cfg: UserConfig, n: Registry.Nonce, diskOk: bool)
    requires RegistryRuns.Consistent(reg) && Registry.DoRegister(reg, cfg, n, diskOk).1.Registered?
    requires 12 + RowSize(cfg.name) * |Wanted(cfg)| > Wire.MAX_FRAME
    ensures var reg' := Registry.DoRegister(reg, cfg, n, diskOk).0; reg'.log != [] && !Fits(Registry.Current(reg'))
  {
    var reg' := Registry.DoRegister(reg, cfg, n, diskOk).0;
    WantedHaveRows(reg, cfg, n, diskOk);
    WantedOrder(cfg);
    DistinctSize(Wanted(cfg));
    SubsetSize(Elements(Wanted(cfg)), UserKeys(reg'.allocs, cfg.name));
    RowsOfUser(reg'.allocs, cfg.name, RowSize(cfg.name));
    Grows(RowSize(cfg.name), |Wanted(cfg)|, |UserKeys(reg'.allocs, cfg.name)|);
    RegistryRuns.ApplyConsistent(reg, RegistryRuns.Register(cfg, n, diskOk));
    CurrentFitsIff(reg');
  }

  /** So such a user is stuck from its registration on, before anything has failed. */
  lemma BigUserIsStuck(s: State, u: string, n: Nonce, diskOk: bool)
    requires Inv(s) && Enabled(s, Register(u, n, diskOk)) && At(Next(s, Register(u, n, diskOk)), n, Registered)
    requires 12 + RowSize(u) * |Wanted(s.users[u])| > Wire.MAX_FRAME
    ensures SessionEnds.Stuck(Next(s, Register(u, n, diskOk)), u)
  {
    NextInv(s, Register(u, n, diskOk));
    RegisterOnline(s, u, n, diskOk);
    BigUserDoesNotFit(s.reg, s.users[u], n, diskOk);
    SessionEnds.StuckIff(Next(s, Register(u, n, diskOk)), u);
  }

  // ---------- one that validation accepts ----------

  /** A range alone in a list of specs expands to each of its ports. */
  lemma WholeRange(spec: string, lo: Port, hi: Port)
    requires ParsePortRange(spec) == Some((lo, hi))
    ensures ExpandPorts([spec]).Some?
    ensures Distinct(ExpandPorts([spec]).value) && |ExpandPorts([spec]).value| == hi + 1 - lo
  {
    ExpandPortsExact([spec]);
    var v := ExpandPorts([spec]).value;
    forall p: Port
      ensures p in v <==> lo <= p <= hi
    {
      assert Ranges([spec])[0] == Some((lo, hi));
      assert CoveredBy(Ranges([spec]), p) <==> lo <= p <= hi by {
        if lo <= p <= hi {
          assert RangeHas(Ranges([spec])[0], p);
        }
      }
    }
    assert Elements(v) == Range(lo, hi);
    DistinctSize(v);
    RangeSize(lo, hi);
  }

  lemma WholeUser(name: string, spec: string, lo: Port, hi: Port)
    requires ParsePortRange(spec) == Some((lo, hi))
    ensures ParseUser(name, RawUser(spec, [spec], [])).Some?
    ensures var u := ParseUser(name, RawUser(spec, [spec], [])).value;
            u == UserConfig(name, lo, hi, u.tcpPorts, []) && Distinct(u.tcpPorts) && |u.tcpPorts| == hi + 1 - lo
  {
    WholeRange(spec, lo, hi);
    assert ExpandPorts([]) == Some([]);
  }

  /** With no row in the table, a user that fits its block registers, every port a wanted key. */
  lemma WholeRegisters(cfg: UserConfig, n: Registry.Nonce)
    requires Distinct(cfg.tcpPorts) && cfg.udpPorts == [] && |cfg.tcpPorts| <= BlockSize(cfg.lo, cfg.hi)
    ensures |Wanted(cfg)| == |cfg.tcpPorts|
    ensures Registry.DoRegister(Registry.LoadState([]), cfg, n, true).1.Registered?
  {
    var w, tcp := Wanted(cfg), Keys(Tcp, cfg.tcpPorts);
    WantedOrder(cfg);
    forall k
      ensures k in w <==> k in tcp
    {
      KeysHas(Tcp, cfg.tcpPorts, k);
    }
    assert Elements(w) == Elements(tcp);
    DistinctSize(w);
    DistinctSize(tcp);
    Registry.RegisterOutcome(Registry.LoadState([]), cfg, n, true);
    assert HeldUnwanted(Ports([], cfg.name), cfg.lo, cfg.hi, w) == {};
  }

  lemma LargestPort()
    ensures Decimal(1) == "1" && Decimal(65535) == "65535"
  {
    assert Decimal(65) == "65";
    assert Decimal(6553) == "6553";
  }

  lemma PlainRange(l: string, h: string, lo: Port, hi: Port)
    requires l == Decimal(lo) && h == Decimal(hi) && 1 <= lo <= hi
    ensures ParsePortRange(l + "-" + h) == Some((lo, hi))
  {
    ParsePrintedRange("", lo, "", "", hi, "");
    assert "" + l + "" + "-" + "" + h + "" == l + "-" + h;
  }

  lemma AllPortsText()
    ensures ParsePortRange("1-65535") == Some((1, 65535))
  {
    LargestPort();
    PlainRange("1", "65535", 1, 65535);
    assert "1" + "-" + "65535" == "1-65535";
  }

  function Alone(name: string, spec: string): map<string, RawUser> {
    map[name := RawUser(spec, [spec], [])]
  }

  /** A configuration with a single user that parses is accepted. */
  lemma AloneIsAcceptable(name: string, spec: string, cfg: UserConfig)
    requires ParseUser(name, RawUser(spec, [spec], [])) == Some(cfg)
    ensures Acceptable(Alone(name, spec)) && Validated(map[name := cfg])
  {
    ParseUserIff(name, RawUser(spec, [spec], []));
  }

  /**
   * The registration succeeds, no early return happens, and yet the user cannot be taken offline:
   * `write_frame` refuses the first directory.
   */
  ghost predicate StuckAtOnce(cfg: UserConfig) {
    var s, steps := Init(map[cfg.name := cfg], []), [Register(cfg.name, 1, true)];
    && CanRun(s, steps)
    && var e := Run(s, steps);
       && At(e, 1, Registered) && e.reg.log != []
       && Wire.Frame(Wire.ControlCmdCodec(), Wire.Directory(Registry.Current(e.reg))).None?
       && SessionEnds.Stuck(e, cfg.name) && !SessionEnds.LostLast(s, steps, cfg.name, false)
  }

  /** One user exposing every port, which validation accepts. */
  lemma OversizedRun() returns (cfg: UserConfig)
    ensures Acceptable(Alone("ann", "1-65535")) && ParseUser("ann", RawUser("1-65535", ["1-65535"], [])) == Some(cfg)
    ensures StuckAtOnce(cfg)
  {
    AllPortsText();
    WholeUser("ann", "1-65535", 1, 65535);
    cfg := ParseUser("ann", RawUser("1-65535", ["1-65535"], [])).value;
    AloneIsAcceptable("ann", "1-65535", cfg);
    AllOfOne(cfg);
  }

  lemma AllOfOne(cfg: UserConfig)
    requires cfg == UserConfig(cfg.name, 1, 65535, cfg.tcpPorts, [])
    requires Distinct(cfg.tcpPorts) && |cfg.tcpPorts| == 65535
    ensures StuckAtOnce(cfg)
  {
    var s := Init(map[cfg.name := cfg], []);
    InitInv(s.users, []);
    WholeRegisters(cfg, 1);
    BigEnough(cfg.name, |Wanted(cfg)|);
    BigUserDoesNotFit(s.reg, cfg, 1, true);
    BigUserIsStuck(s, cfg.name, 1, true);
    OneStep(s, Register(cfg.name, 1, true));
  }

  lemma BigEnough(u: string, n: nat)
    requires n == 65535
    ensures 12 + RowSize(u) * n > Wire.MAX_FRAME
  {
    Grows(n, 17, RowSize(u));
  }

  lemma OneStep(s: State, step: Step)
    requires Enabled(s, step) && step.Register?
    ensures CanRun(s, [step]) && Run(s, [step]) == Next(s, step)
    ensures !SessionEnds.LostLast(s, [step], step.user, false)
  {
    assert [step][1..] == [];
  }
}

/** Port specifications and the validation of `[server.users]`. */
module Config {
  import opened Types
  import opened Sorting
  import opened Decimals
  import opened Texts

  // ---------- port ranges ----------

  function ParsePortRange(spec: string): (r: Option<(Port, Port)>)
    ensures r.Some? ==> 1 <= r.value.0 <= r.value.1
  {
    var s := Trim(spec);
    var split := SplitOnce(s, '-');
    var lo := ParseU16(if split.Some? then Trim(split.value.0) else s);
    var hi := ParseU16(if split.Some? then Trim(split.value.1) else s);
    if lo.None? || hi.None? || lo.value == 0 || lo.value > hi.value then None else Some((lo.value, hi.value))
  }

  /** Parsing inverts printing a range, with any white space around either number. */
  lemma ParsePrintedRange(a: string, lo: Port, b: string, c: string, hi: Port, d: string)
    requires AllWhite(a) && AllWhite(b) && AllWhite(c) && AllWhite(d) && 1 <= lo <= hi
    ensures ParsePortRange(a + Decimal(lo) + b + "-" + c + Decimal(hi) + d) == Some((lo, hi))
  {
    ParseDecimal(lo);
    ParseDecimal(hi);
    assert Tight(Decimal(lo)) && Tight(Decimal(hi));
    ParseTwoNumbers(a, Decimal(lo), b, c, Decimal(hi), d);
  }

  lemma ParseTwoNumbers(a: string, l: string, b: string, c: string, h: string, d: string)
    requires AllWhite(a) && AllWhite(b) && AllWhite(c) && AllWhite(d) && Tight(l) && Tight(h) && '-' !in l
    requires ParseU16(l).Some? && ParseU16(h).Some? && 1 <= ParseU16(l).value <= ParseU16(h).value
    ensures ParsePortRange(a + l + b + "-" + c + h + d) == Some((ParseU16(l).value, ParseU16(h).value))
  {
    var left, right := l + b, c + h;
    var mid := left + ['-'] + right;
    assert a + l + b + "-" + c + h + d == a + mid + d;
    assert mid[0] == l[0] && mid[|mid| - 1] == h[|h| - 1];
    TrimPadded(a, mid, d);
    assert forall i :: 0 <= i < |b| ==> b[i] != '-' by {
      assert forall i :: 0 <= i < |b| ==> IsWhite(b[i]);
    }
    SplitAt(left, '-', right);
    assert [] + l + b == left && c + h + [] == right;
    TrimPadded([], l, b);
    TrimPadded(c, h, []);
  }

  /** A single port is the range of itself. */
  lemma ParsePrintedPort(a: string, p: Port, b: string)
    requires AllWhite(a) && AllWhite(b) && 1 <= p
    ensures ParsePortRange(a + Decimal(p) + b) == Some((p, p))
  {
    TrimPadded(a, Decimal(p), b);
    NoSplit(Decimal(p));
    ParseDecimal(p);
  }

  lemma {:induction false} NoSplit(s: string)
    requires AllDigits(s)
    ensures SplitOnce(s, '-').None?
  {
    if s != [] {
      NoSplit(s[1..]);
    }
  }

  /** Only such texts parse: one number, or two around the first dash, with white space around them. */
  lemma ParsedRangeParts(spec: string) returns (a: string, l: string, b: string, c: string, h: string, d: string)
    requires ParsePortRange(spec).Some?
    ensures AllWhite(a) && AllWhite(b) && AllWhite(c) && AllWhite(d)
    ensures ParseU16(l) == Some(ParsePortRange(spec).value.0) && ParseU16(h) == Some(ParsePortRange(spec).value.1)
    ensures spec == a + l + b + "-" + c + h + d || (l == h && spec == a + l + d)
  {
    var s := Trim(spec);
    SplitParts(s, '-');
    var split := SplitOnce(s, '-');
    if split.None? {
      a, d := TrimParts(spec);
      l, b, c, h := s, [], [], s;
    } else {
      var a1, d1 := TrimParts(spec);
      var a2, b2 := TrimParts(split.value.0);
      var c2, d2 := TrimParts(split.value.1);
      a, l, b, c, h, d := a1 + a2, Trim(split.value.0), b2, c2, Trim(split.value.1), d2 + d1;
      Regroup(a1, a2, l, b2, c2, h, d2, d1);
    }
  }

  lemma Regroup(a1: string, a2: string, l: string, b: string, c: string, h: string, d2: string, d1: string)
    ensures a1 + ((a2 + l + b) + ['-'] + (c + h + d2)) + d1 == (a1 + a2) + l + b + "-" + c + h + (d2 + d1)
  {
  }

  ghost predicate Shape(spec: string, a: string, l: string, b: string, c: string, h: string, d: string) {
    && AllWhite(a) && AllWhite(b) && AllWhite(c) && AllWhite(d)
    && (spec == a + l + b + "-" + c + h + d || (l == h && spec == a + l + d))
  }

  /** A text that parses as a number is tight and has no dash. */
  lemma NumberText(l: string)
    requires ParseU16(l).Some?
    ensures Tight(l) && '-' !in l
  {
    ParseU16Exact(l);
    assert forall i :: 0 <= i < |l| ==> l[i] == '+' || IsDigit(l[i]) by {
      assert forall i :: 0 <= i < |Unsigned(l)| ==> IsDigit(Unsigned(l)[i]);
      assert l[0] == '+' ==> forall i :: 1 <= i < |l| ==> l[i] == Unsigned(l)[i - 1];
    }
  }

  /** A spec parses exactly when it is one number, or two around a dash, in order and not zero, with any white space. */
  lemma ParsePortRangeIff(spec: string, lo: Port, hi: Port)
    ensures ParsePortRange(spec) == Some((lo, hi)) <==>
            1 <= lo <= hi
            && exists a, l, b, c, h, d ::
                 Shape(spec, a, l, b, c, h, d) && ParseU16(l) == Some(lo) && ParseU16(h) == Some(hi)
  {
    if ParsePortRange(spec) == Some((lo, hi)) {
      var a, l, b, c, h, d := ParsedRangeParts(spec);
      assert Shape(spec, a, l, b, c, h, d);
    }
    if 1 <= lo <= hi {
      if a, l, b, c, h, d :| Shape(spec, a, l, b, c, h, d) && ParseU16(l) == Some(lo) && ParseU16(h) == Some(hi) {
        ShapeParses(spec, a, l, b, c, h, d);
      }
    }
  }

  lemma ShapeParses(spec: string, a: string, l: string, b: string, c: string, h: string, d: string)
    requires Shape(spec, a, l, b, c, h, d) && ParseU16(l).Some? && ParseU16(h).Some?
    requires 1 <= ParseU16(l).value <= ParseU16(h).value
    ensures ParsePortRange(spec) == Some((ParseU16(l).value, ParseU16(h).value))
  {
    NumberText(l);
    NumberText(h);
    if spec == a + l + b + "-" + c + h + d {
      ParseTwoNumbers(a, l, b, c, h, d);
    } else {
      TrimPadded(a, l, d);
      SplitParts(l, '-');
    }
  }

  // ---------- port lists ----------

  function PortsOf(lo: nat, hi: Port): seq<Port>
    decreases hi + 1 - lo
  {
    if lo > hi then [] else [lo] + PortsOf(lo + 1, hi)
  }

  lemma {:induction false} PortsOfExact(lo: nat, hi: Port)
    ensures forall p :: p in PortsOf(lo, hi) <==> lo <= p <= hi
    decreases hi + 1 - lo
  {
    if lo <= hi {
      PortsOfExact(lo + 1, hi);
    }
  }

  type PortRange = Option<(Port, Port)>

  function Ranges(specs: seq<string>): (rs: seq<PortRange>)
    ensures |rs| == |specs| && forall i :: 0 <= i < |rs| ==> rs[i] == ParsePortRange(specs[i])
  {
    seq(|specs|, i requires 0 <= i < |specs| => ParsePortRange(specs[i]))
  }

  function AllPorts(rs: seq<PortRange>): Option<seq<Port>>
    decreases |rs|
  {
    if rs == [] then Some([])
    else
      var init, r := AllPorts(rs[..|rs| - 1]), rs[|rs| - 1];
      if init.None? || r.None? then None else Some(init.value + PortsOf(r.value.0, r.value.1))
  }

  function ExpandPorts(specs: seq<string>): Option<seq<Port>> {
    var v := AllPorts(Ranges(specs));
    if v.None? then None else Some(Dedup(SortBy(v.value, PortLeq)))
  }

  lemma {:induction false} AllPortsParse(rs: seq<PortRange>)
    ensures AllPorts(rs).Some? <==> forall i :: 0 <= i < |rs| ==> rs[i].Some?
    decreases |rs|
  {
    if rs != [] {
      AllPortsParse(rs[..|rs| - 1]);
      assert forall i :: 0 <= i < |rs| - 1 ==> rs[..|rs| - 1][i] == rs[i];
    }
  }

  method ExpandPortList(specs: seq<string>) returns (r: Option<seq<Port>>)
    ensures r == ExpandPorts(specs)
  {
    var v: seq<Port> := [];
    ghost var rs := Ranges(specs);
    for i := 0 to |specs|
      invariant AllPorts(rs[..i]) == Some(v)
    {
      assert rs[..i + 1][..i] == rs[..i] && rs[..i + 1][i] == rs[i];
      var range := ParsePortRange(specs[i]);
      if range.None? {
        AllPortsParse(rs);
        return None;
      }
      v := v + PortsOf(range.value.0, range.value.1);
    }
    assert rs[..|specs|] == rs;
    v := SortBy(v, PortLeq);
    v := Dedup(v);
    return Some(v);
  }

  ghost predicate RangeHas(r: PortRange, p: Port) {
    r.Some? && r.value.0 <= p <= r.value.1
  }

  ghost predicate CoveredBy(rs: seq<PortRange>, p: Port) {
    exists r :: r in rs && RangeHas(r, p)
  }

  lemma CoveredBySnoc(rs: seq<PortRange>, r: PortRange, p: Port)
    ensures CoveredBy(rs + [r], p) <==> CoveredBy(rs, p) || RangeHas(r, p)
  {
    assert r in rs + [r];
  }

  lemma {:induction false} AllPortsExact(rs: seq<PortRange>)
    requires AllPorts(rs).Some?
    ensures forall p :: p in AllPorts(rs).value <==> CoveredBy(rs, p)
    decreases |rs|
  {
    if rs != [] {
      var init, r := rs[..|rs| - 1], rs[|rs| - 1];
      AllPortsExact(init);
      PortsOfExact(r.value.0, r.value.1);
      assert init + [r] == rs;
      forall p
        ensures p in AllPorts(rs).value <==> CoveredBy(rs, p)
      {
        CoveredBySnoc(init, r, p);
      }
    }
  }

  /** The strictly increasing list of exactly the ports some spec covers; it fails iff a spec does not parse. */
  lemma ExpandPortsExact(specs: seq<string>)
    ensures ExpandPorts(specs).Some? <==> forall i :: 0 <= i < |specs| ==> ParsePortRange(specs[i]).Some?
    ensures ExpandPorts(specs).Some? ==>
              && StrictlyIncreasing(ExpandPorts(specs).value)
              && (forall p :: p in ExpandPorts(specs).value <==> CoveredBy(Ranges(specs), p))
  {
    var rs := Ranges(specs);
    AllPortsParse(rs);
    if AllPorts(rs).Some? {
      AllPortsExact(rs);
      var v := AllPorts(rs).value;
      PortLeqOrder();
      SortSorted(v, PortLeq);
      SortElements(v, PortLeq);
      DedupSorted(SortBy(v, PortLeq), PortLeq);
    }
  }

  // ---------- users ----------

  /** A user as written in the configuration. */
  datatype RawUser = RawUser(portBlock: string, tcp: seq<string>, udp: seq<string>)

  /** The parsed user, if everything parses and the block has room for the exposed ports. */
  function ParseUser(name: string, raw: RawUser): Option<UserConfig> {
    var block, tcp, udp := ParsePortRange(raw.portBlock), ExpandPorts(raw.tcp), ExpandPorts(raw.udp);
    if block.None? || tcp.None? || udp.None? then None
    else if |tcp.value| + |udp.value| > BlockSize(block.value.0, block.value.1) then None
    else Some(UserConfig(name, block.value.0, block.value.1, tcp.value, udp.value))
  }

  /** The ports that some spec of a list covers. */
  ghost function PortsIn(specs: seq<string>): set<Port> {
    set p: Port | 0 <= p <= 65535 && CoveredBy(Ranges(specs), p)
  }

  /** The block and all specs parse, and the block has a port for every TCP and every UDP port. */
  ghost predicate Usable(raw: RawUser) {
    && (forall i :: 0 <= i < |raw.tcp| ==> ParsePortRange(raw.tcp[i]).Some?)
    && (forall i :: 0 <= i < |raw.udp| ==> ParsePortRange(raw.udp[i]).Some?)
    && match ParsePortRange(raw.portBlock)
       case None => false
       case Some((lo, hi)) => |PortsIn(raw.tcp)| + |PortsIn(raw.udp)| <= hi - lo + 1
  }

  lemma ExpandedSize(specs: seq<string>)
    requires ExpandPorts(specs).Some?
    ensures |ExpandPorts(specs).value| == |PortsIn(specs)|
  {
    ExpandPortsExact(specs);
    var v := ExpandPorts(specs).value;
    DistinctSize(v);
    assert Elements(v) == PortsIn(specs);
  }

  /** A user is accepted exactly when it is usable, under its name, with its block and exactly its ports. */
  lemma ParseUserIff(name: string, raw: RawUser)
    ensures ParseUser(name, raw).Some? <==> Usable(raw)
    ensures ParseUser(name, raw).Some? ==>
              var u := ParseUser(name, raw).value;
              && u.name == name && ParsePortRange(raw.portBlock) == Some((u.lo, u.hi)) && 1 <= u.lo <= u.hi
              && StrictlyIncreasing(u.tcpPorts) && StrictlyIncreasing(u.udpPorts)
              && (forall p :: p in u.tcpPorts <==> p in PortsIn(raw.tcp))
              && (forall p :: p in u.udpPorts <==> p in PortsIn(raw.udp))
  {
    ExpandPortsExact(raw.tcp);
    ExpandPortsExact(raw.udp);
    if ExpandPorts(raw.tcp).Some? && ExpandPorts(raw.udp).Some? {
      ExpandedSize(raw.tcp);
      ExpandedSize(raw.udp);
    }
  }

  predicate BlockLeq(a: UserConfig, b: UserConfig) {
    a.lo < b.lo || (a.lo == b.lo && a.hi <= b.hi)
  }

  predicate Disjoint(a: UserConfig, b: UserConfig) {
    a.hi < b.lo || b.hi < a.lo
  }

  ghost predicate NeighboursClear(b: seq<UserConfig>) {
    forall i, k :: 0 <= i && k == i + 1 && k < |b| ==> b[i].hi < b[k].lo
  }

  ghost predicate PairsClear(b: seq<UserConfig>) {
    forall i, j :: 0 <= i < j < |b| ==> Disjoint(b[i], b[j])
  }

  /** On blocks sorted by `(lo, hi)` checking neighbours is checking all pairs. */
  lemma AdjacentIsPairwise(b: seq<UserConfig>)
    requires Sorted(b, BlockLeq) && forall i :: 0 <= i < |b| ==> b[i].lo <= b[i].hi
    ensures NeighboursClear(b) <==>
            PairsClear(b)
  {
    if NeighboursClear(b) {
      forall i, j | 0 <= i < j < |b|
        ensures b[i].hi < b[j].lo
      {
        assert b[i].hi < b[i + 1].lo;
        assert i + 1 < j ==> BlockLeq(b[i + 1], b[j]);
      }
    }
    if PairsClear(b) {
      forall i, k | 0 <= i && k == i + 1 && k < |b|
        ensures b[i].hi < b[k].lo
      {
        assert Disjoint(b[i], b[k]) && BlockLeq(b[i], b[k]);
      }
    }
  }

  ghost predicate AllParse(raw: map<string, RawUser>) {
    forall u :: u in raw ==> ParseUser(u, raw[u]).Some?
  }

  ghost predicate PairwiseDisjoint(users: map<string, UserConfig>) {
    forall u, v :: u in users && v in users && u != v ==> Disjoint(users[u], users[v])
  }

  /** The first loop: every user parsed, in whatever order the map is iterated. */
  method ParseUsers(raw: map<string, RawUser>) returns (r: Option<map<string, UserConfig>>)
    ensures r.Some? <==> AllParse(raw)
    ensures r.Some? ==> r.value.Keys == raw.Keys && forall u :: u in raw ==> Some(r.value[u]) == ParseUser(u, raw[u])
  {
    var users: map<string, UserConfig> := map[];
    var todo := raw.Keys;
    while todo != {}
      invariant todo <= raw.Keys && users.Keys == raw.Keys - todo
      invariant forall u :: u in users ==> Some(users[u]) == ParseUser(u, raw[u])
      decreases todo
    {
      var name :| name in todo;
      var u := raw[name];
      var block := ParsePortRange(u.portBlock);
      if block.None? {
        return None;
      }
      var tcp := ExpandPortList(u.tcp);
      if tcp.None? {
        return None;
      }
      var udp := ExpandPortList(u.udp);
      if udp.None? {
        return None;
      }
      if |tcp.value| + |udp.value| > BlockSize(block.value.0, block.value.1) {
        return None;
      }
      users := users[name := UserConfig(name, block.value.0, block.value.1, tcp.value, udp.value)];
      todo := todo - {name};
    }
    return Some(users);
  }

  method Values(users: map<string, UserConfig>) returns (blocks: seq<UserConfig>)
    requires forall u :: u in users ==> users[u].name == u
    ensures Distinct(blocks) && forall b :: b in blocks <==> b.name in users && users[b.name] == b
  {
    blocks := [];
    var todo := users.Keys;
    while todo != {}
      invariant todo <= users.Keys && Distinct(blocks)
      invariant forall b :: b in blocks <==> b.name in users && b.name !in todo && users[b.name] == b
      decreases todo
    {
      var name :| name in todo;
      blocks := blocks + [users[name]];
      todo := todo - {name};
    }
  }

  /** Pairs of list positions and pairs of users are the same pairs. */
  lemma PairsOfUsers(users: map<string, UserConfig>, b: seq<UserConfig>)
    requires forall u :: u in users ==> users[u].name == u
    requires Distinct(b) && forall x :: x in b <==> x.name in users && users[x.name] == x
    ensures PairsClear(b) <==> PairwiseDisjoint(users)
  {
    if PairsClear(b) {
      forall u, v | u in users && v in users && u != v
        ensures Disjoint(users[u], users[v])
      {
        assert users[u] in b && users[v] in b;
        var i :| 0 <= i < |b| && b[i] == users[u];
        var j :| 0 <= j < |b| && b[j] == users[v];
        assert i != j;
      }
    }
    if PairwiseDisjoint(users) {
      forall i, j | 0 <= i < j < |b|
        ensures Disjoint(b[i], b[j])
      {
        assert b[i] in b && b[j] in b && b[i] != b[j];
      }
    }
  }

  /** The scan of sorted neighbours. */
  method BlocksDisjoint(users: map<string, UserConfig>) returns (ok: bool)
    requires forall u :: u in users ==> users[u].name == u && users[u].lo <= users[u].hi
    ensures ok <==> PairwiseDisjoint(users)
  {
    var blocks := Values(users);
    PairsOfSorted(users, blocks);
    blocks := SortBy(blocks, BlockLeq);
    var i := 0;
    while i + 1 < |blocks|
      invariant forall x, k :: 0 <= x && k == x + 1 && k <= i && k < |blocks| ==> blocks[x].hi < blocks[k].lo
    {
      if blocks[i].hi >= blocks[i + 1].lo {
        return false;
      }
      i := i + 1;
    }
    return true;
  }

  /** Every user is usable, and no port lies in the blocks of two. */
  ghost predicate Acceptable(raw: map<string, RawUser>) {
    && (forall u :: u in raw ==> Usable(raw[u]))
    && forall u, v, p: Port :: u in raw && v in raw && u != v ==>
                                 !(RangeHas(ParsePortRange(raw[u].portBlock), p)
                                   && RangeHas(ParsePortRange(raw[v].portBlock), p))
  }

  /** Validation succeeds exactly on acceptable configurations, and returns their parsed users. */
  method ValidateUsers(raw: map<string, RawUser>) returns (r: Option<map<string, UserConfig>>)
    ensures r.Some? <==> Acceptable(raw)
    ensures r.Some? ==> r.value.Keys == raw.Keys && forall u :: u in raw ==> Some(r.value[u]) == ParseUser(u, raw[u])
    ensures r.Some? ==> Validated(r.value)
  {
    r := ParseUsers(raw);
    if r.None? {
      UnusableRefused(raw);
      return;
    }
    AcceptableIff(raw, r.value);
    var ok := BlocksDisjoint(r.value);
    if !ok {
      r := None;
    }
  }

  lemma UnusableRefused(raw: map<string, RawUser>)
    requires !AllParse(raw)
    ensures !Acceptable(raw)
  {
    var u :| u in raw && ParseUser(u, raw[u]).None?;
    ParseUserIff(u, raw[u]);
  }

  lemma AcceptableIff(raw: map<string, RawUser>, users: map<string, UserConfig>)
    requires AllParse(raw) && users.Keys == raw.Keys && forall u :: u in raw ==> Some(users[u]) == ParseUser(u, raw[u])
    ensures forall u :: u in users ==> users[u].name == u && 1 <= users[u].lo <= users[u].hi
    ensures Acceptable(raw) <==> PairwiseDisjoint(users)
  {
    forall u | u in raw
      ensures Usable(raw[u]) && users[u].name == u && 1 <= users[u].lo <= users[u].hi
      ensures ParsePortRange(raw[u].portBlock) == Some((users[u].lo, users[u].hi))
    {
      ParseUserIff(u, raw[u]);
      assert Some(users[u]) == ParseUser(u, raw[u]);
    }
    BlocksApart(raw, users);
  }

  lemma BlocksApart(raw: map<string, RawUser>, users: map<string, UserConfig>)
    requires users.Keys == raw.Keys && forall u :: u in users ==> users[u].lo <= users[u].hi
    requires forall u :: u in raw ==> ParsePortRange(raw[u].portBlock) == Some((users[u].lo, users[u].hi))
    requires forall u :: u in raw ==> Usable(raw[u])
    ensures Acceptable(raw) <==> PairwiseDisjoint(users)
  {
    if Acceptable(raw) {
      forall u, v | u in users && v in users && u != v
        ensures Disjoint(users[u], users[v])
      {
        assert !(RangeHas(ParsePortRange(raw[u].portBlock), users[u].lo)
                 && RangeHas(ParsePortRange(raw[v].portBlock), users[u].lo));
        assert !(RangeHas(ParsePortRange(raw[u].portBlock), users[v].lo)
                 && RangeHas(ParsePortRange(raw[v].portBlock), users[v].lo));
      }
    }
  }

  lemma PairsOfSorted(users: map<string, UserConfig>, blocks: seq<UserConfig>)
    requires forall u :: u in users ==> users[u].name == u && users[u].lo <= users[u].hi
    requires Distinct(blocks) && forall x :: x in blocks <==> x.name in users && users[x.name] == x
    ensures var b := SortBy(blocks, BlockLeq);
            NeighboursClear(b) <==> PairwiseDisjoint(users)
  {
    var b := SortBy(blocks, BlockLeq);
    SortSorted(blocks, BlockLeq);
    SortElements(blocks, BlockLeq);
    SortDistinct(blocks, BlockLeq);
    forall i | 0 <= i < |b|
      ensures b[i].lo <= b[i].hi
    {
      assert b[i] in b;
    }
    AdjacentIsPairwise(b);
    PairsOfUsers(users, b);
  }

  /** What the allocator relies on: validated port lists have no repetition and fit their block. */
  lemma ValidatedUserFits(name: string, raw: RawUser)
    requires ParseUser(name, raw).Some?
    ensures var u := ParseUser(name, raw).value;
            && Distinct(u.tcpPorts) && Distinct(u.udpPorts)
            && |u.tcpPorts| + |u.udpPorts| <= BlockSize(u.lo, u.hi)
            && (forall p :: p in u.tcpPorts <==> CoveredBy(Ranges(raw.tcp), p))
            && (forall p :: p in u.udpPorts <==> CoveredBy(Ranges(raw.udp), p))
  {
    ExpandPortsExact(raw.tcp);
    ExpandPortsExact(raw.udp);
  }
}

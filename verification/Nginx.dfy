/** The nginx map rendered from the directory: host names are its keys. */
module Nginx {
  import opened Types
  import opened Decimals
  import opened Allocator
  import opened Texts
  import Registry
  import Sorting
  import Server

  /** `<local_port>-<user>.<domain>` */
  function Host(m: Mapping, domain: string): string {
    Decimal(m.key.local) + "-" + m.user + "." + domain
  }

  /** The map's entries in order: host name and remote port of every TCP row. */
  function Entries(dir: seq<Mapping>, domain: string): seq<(string, Port)> {
    if dir == [] then []
    else (if dir[0].key.proto == Tcp then [(Host(dir[0], domain), dir[0].remote)] else []) + Entries(dir[1..], domain)
  }

  function Lines(entries: seq<(string, Port)>): string {
    if entries == [] then [] else entries[0].0 + " " + Decimal(entries[0].1) + ";\n" + Lines(entries[1..])
  }

  function RenderNginxMap(dir: seq<Mapping>, domain: string): string {
    Lines(Entries(dir, domain))
  }

  /** The first dash ends the port number, so the host name determines the port and the user, whatever its name. */
  lemma HostInjective(a: Mapping, b: Mapping, domain: string)
    ensures Host(a, domain) == Host(b, domain) <==> a.key.local == b.key.local && a.user == b.user
  {
    if Host(a, domain) == Host(b, domain) {
      var p, q := Decimal(a.key.local), Decimal(b.key.local);
      var x, y := a.user + "." + domain, b.user + "." + domain;
      assert Host(a, domain) == p + ['-'] + x && Host(b, domain) == q + ['-'] + y;
      SplitAt(p, '-', x);
      SplitAt(q, '-', y);
      assert p == q && x == y;
      ValueOfDecimal(a.key.local);
      ValueOfDecimal(b.key.local);
      assert |a.user| == |b.user|;
      assert a.user == x[..|a.user|] && b.user == y[..|b.user|];
    }
  }

  lemma {:induction false} EntryHasRow(dir: seq<Mapping>, domain: string, e: (string, Port)) returns (m: Mapping)
    requires e in Entries(dir, domain)
    ensures m in dir && m.key.proto == Tcp && e == (Host(m, domain), m.remote)
  {
    if dir[0].key.proto == Tcp && e == (Host(dir[0], domain), dir[0].remote) {
      m := dir[0];
    } else {
      m := EntryHasRow(dir[1..], domain, e);
    }
  }

  lemma {:induction false} RowHasEntry(dir: seq<Mapping>, domain: string, m: Mapping)
    requires m in dir && m.key.proto == Tcp
    ensures (Host(m, domain), m.remote) in Entries(dir, domain)
  {
    if m != dir[0] {
      RowHasEntry(dir[1..], domain, m);
    }
  }

  lemma {:induction false} DistinctHosts(dir: seq<Mapping>, domain: string)
    requires Distinct(dir)
    requires forall a, b :: a in dir && b in dir && a.user == b.user && a.key == b.key ==> a == b
    ensures DistinctKeys(Entries(dir, domain))
  {
    if dir != [] {
      assert forall m :: m in dir[1..] ==> m in dir;
      DistinctHosts(dir[1..], domain);
      var rest := Entries(dir[1..], domain);
      if dir[0].key.proto == Tcp {
        forall j | 0 <= j < |rest|
          ensures rest[j].0 != Host(dir[0], domain)
        {
          var m := EntryHasRow(dir[1..], domain, rest[j]);
          var k :| 0 <= k < |dir[1..]| && dir[1..][k] == m;
          assert dir[k + 1] == m && m != dir[0];
          HostInjective(dir[0], m, domain);
        }
      }
    }
  }

  // ---------- the rendered text ----------

  /** What ends a word of the map file. */
  predicate IsSeparator(c: char) {
    c == ' ' || c == '\t' || c == '\r' || c == '\n' || c == ';' || c == '{'
  }

  ghost predicate OneWord(s: string) {
    forall i :: 0 <= i < |s| ==> !IsSeparator(s[i])
  }

  /** The leading word. */
  function Word(s: string): (w: string)
    ensures w <= s && OneWord(w) && (w != s ==> IsSeparator(s[|w|]))
  {
    if s == [] || IsSeparator(s[0]) then [] else [s[0]] + Word(s[1..])
  }

  /** One line off the front: host, blank, port, semicolon, line break. */
  function ReadLine(s: string): Option<(string, string, string)> {
    var host := Word(s);
    var s1 := s[|host|..];
    if s1 == [] || s1[0] != ' ' then None
    else
      var port := Word(s1[1..]);
      var s2 := s1[1..][|port|..];
      if |s2| < 2 || s2[..2] != ";\n" then None else Some((host, port, s2[2..]))
  }

  /** The lines of a map file: host name and port. */
  function ReadMap(s: string): Option<seq<(string, string)>>
    decreases |s|
  {
    if s == [] then Some([])
    else
      var line := ReadLine(s);
      if line.None? || |line.value.2| >= |s| then None
      else
        var rest := ReadMap(line.value.2);
        if rest.None? then None else Some([(line.value.0, line.value.1)] + rest.value)
  }

  function Printed(entries: seq<(string, Port)>): seq<(string, string)> {
    if entries == [] then [] else [(entries[0].0, Decimal(entries[0].1))] + Printed(entries[1..])
  }

  lemma {:induction false} WordStops(w: string, s: string)
    requires OneWord(w) && s != [] && IsSeparator(s[0])
    ensures Word(w + s) == w
  {
    if w == [] {
      assert w + s == s;
    } else {
      WordStops(w[1..], s);
      assert (w + s)[1..] == w[1..] + s;
      assert w == [w[0]] + w[1..];
    }
  }

  lemma LineReadsBack(host: string, port: string, rest: string)
    requires OneWord(host) && OneWord(port)
    ensures ReadLine(host + " " + port + ";\n" + rest) == Some((host, port, rest))
  {
    var tail := port + (";\n" + rest);
    var s := host + (" " + tail);
    assert s == host + " " + port + ";\n" + rest;
    WordStops(host, " " + tail);
    assert s[|host|..] == " " + tail && (" " + tail)[1..] == tail;
    WordStops(port, ";\n" + rest);
    assert tail[|port|..] == ";\n" + rest && (";\n" + rest)[2..] == rest;
  }

  /** A host that is not one word cannot be read back as itself. */
  lemma BrokenHost(host: string, s: string)
    requires !OneWord(host)
    ensures ReadLine(host + s).Some? ==> ReadLine(host + s).value.0 != host
  {
    assert OneWord(Word(host + s));
  }

  lemma FirstLine(h: string, p: string, rest: string)
    requires OneWord(h) && OneWord(p)
    ensures var r := ReadMap(h + " " + p + ";\n" + rest);
            if ReadMap(rest).None? then r.None? else r == Some([(h, p)] + ReadMap(rest).value)
  {
    LineReadsBack(h, p, rest);
  }

  lemma BrokenFirstLine(h: string, s: string)
    requires !OneWord(h)
    ensures ReadMap(h + s).Some? ==> ReadMap(h + s).value != [] && ReadMap(h + s).value[0].0 != h
  {
    BrokenHost(h, s);
    assert h != [];
  }

  ghost predicate AllWords(es: seq<(string, Port)>) {
    forall i :: 0 <= i < |es| ==> OneWord(es[i].0)
  }

  lemma AllWordsCons(es: seq<(string, Port)>)
    requires es != []
    ensures AllWords(es) <==> OneWord(es[0].0) && AllWords(es[1..])
  {
    assert forall i :: 0 <= i < |es[1..]| ==> es[1..][i] == es[i + 1];
    assert forall i :: 1 <= i < |es| ==> es[i] == es[1..][i - 1];
  }

  /** The lines read back exactly when every host is one word. */
  lemma {:induction false} LinesReadBackIff(es: seq<(string, Port)>)
    ensures ReadMap(Lines(es)) == Some(Printed(es)) <==> AllWords(es)
  {
    if es != [] {
      var h, p, rest := es[0].0, Decimal(es[0].1), Lines(es[1..]);
      AllWordsCons(es);
      if OneWord(h) {
        LinesReadBackIff(es[1..]);
        DecimalIsWord(es[0].1);
        FirstLine(h, p, rest);
        assert ReadMap(rest).Some? ==> ([(h, p)] + ReadMap(rest).value)[1..] == ReadMap(rest).value;
        assert Printed(es)[1..] == Printed(es[1..]);
      } else {
        assert Lines(es) == h + (" " + p + ";\n" + rest);
        BrokenFirstLine(h, " " + p + ";\n" + rest);
      }
    }
  }

  lemma DecimalIsWord(p: Port)
    ensures OneWord(Decimal(p))
  {
    assert forall i :: 0 <= i < |Decimal(p)| ==> IsDigit(Decimal(p)[i]);
  }

  lemma HostIsWordIff(m: Mapping, domain: string)
    ensures OneWord(Host(m, domain)) <==> OneWord(m.user) && OneWord(domain)
  {
    var d, h := Decimal(m.key.local), Host(m, domain);
    DecimalIsWord(m.key.local);
    assert forall i :: 0 <= i < |m.user| ==> h[|d| + 1 + i] == m.user[i];
    assert forall i :: 0 <= i < |domain| ==> h[|d| + 1 + |m.user| + 1 + i] == domain[i];
  }

  /** No TCP row's user, nor the domain of one, holds a separator. */
  ghost predicate NoSeparators(dir: seq<Mapping>, domain: string) {
    forall m :: m in dir && m.key.proto == Tcp ==> OneWord(m.user) && OneWord(domain)
  }

  lemma {:induction false} HostsAreWordsIff(dir: seq<Mapping>, domain: string)
    ensures AllWords(Entries(dir, domain)) <==> NoSeparators(dir, domain)
  {
    var es := Entries(dir, domain);
    if AllWords(es) {
      forall m | m in dir && m.key.proto == Tcp
        ensures OneWord(m.user) && OneWord(domain)
      {
        RowHasEntry(dir, domain, m);
        var i :| 0 <= i < |es| && es[i] == (Host(m, domain), m.remote);
        HostIsWordIff(m, domain);
      }
    }
    if NoSeparators(dir, domain) {
      forall i | 0 <= i < |es|
        ensures OneWord(es[i].0)
      {
        var m := EntryHasRow(dir, domain, es[i]);
        HostIsWordIff(m, domain);
      }
    }
  }

  /** The file reads back as its entries exactly when no TCP row's user, nor the domain, holds a separator. */
  lemma RenderedReadsBackIff(dir: seq<Mapping>, domain: string)
    ensures ReadMap(RenderNginxMap(dir, domain)) == Some(Printed(Entries(dir, domain))) <==> NoSeparators(dir, domain)
  {
    LinesReadBackIff(Entries(dir, domain));
    HostsAreWordsIff(dir, domain);
  }

  lemma {:induction false} PrintedAt(es: seq<(string, Port)>)
    ensures |Printed(es)| == |es| && forall i :: 0 <= i < |es| ==> Printed(es)[i] == (es[i].0, Decimal(es[i].1))
  {
    if es != [] {
      PrintedAt(es[1..]);
    }
  }

  /** Every host that is read is one word. */
  lemma {:induction false} ReadHostsAreWords(s: string)
    ensures ReadMap(s).Some? ==> forall i :: 0 <= i < |ReadMap(s).value| ==> OneWord(ReadMap(s).value[i].0)
    decreases |s|
  {
    if s != [] && ReadMap(s).Some? {
      var line := ReadLine(s).value;
      ReadHostsAreWords(line.2);
      assert OneWord(line.0);
    }
  }

  ghost predicate DistinctKeys<T(!new)>(es: seq<(string, T)>) {
    forall i, j :: 0 <= i < j < |es| ==> es[i].0 != es[j].0
  }

  /**
   * For every reachable directory the entries have pairwise distinct hosts and every TCP row has its entry;
   * and the rendered text says the same, line by line, exactly when no user name nor the domain of a TCP row
   * holds a separator.
   */
  lemma HostsUnique(users: map<string, UserConfig>, disk: seq<Alloc>, steps: seq<Server.Step>, domain: string)
    requires Validated(users) && WellFormed(disk) && Server.CanRun(Server.Init(users, disk), steps)
    ensures Server.Run(Server.Init(users, disk), steps).reg.log != []
    ensures var dir := Registry.Current(Server.Run(Server.Init(users, disk), steps).reg);
            var es, text := Entries(dir, domain), ReadMap(RenderNginxMap(dir, domain));
            && DistinctKeys(es)
            && (forall m :: m in dir && m.key.proto == Tcp ==> (Host(m, domain), m.remote) in es)
            && (NoSeparators(dir, domain) <==>
                  && text.Some? && DistinctKeys(text.value)
                  && forall m :: m in dir && m.key.proto == Tcp ==> (Host(m, domain), Decimal(m.remote)) in text.value)
  {
    Server.InitInv(users, disk);
    Server.RunInv(Server.Init(users, disk), steps);
    var s := Server.Run(Server.Init(users, disk), steps);
    var dir := Registry.Current(s.reg);
    var es := Entries(dir, domain);
    Registry.DirectoryDistinct(s.reg.allocs, s.reg.online);
    DistinctHosts(dir, domain);
    RenderedReadsBackIff(dir, domain);
    PrintedAt(es);
    forall m | m in dir && m.key.proto == Tcp
      ensures (Host(m, domain), m.remote) in es && (Host(m, domain), Decimal(m.remote)) in Printed(es)
    {
      RowHasEntry(dir, domain, m);
      var i :| 0 <= i < |es| && es[i] == (Host(m, domain), m.remote);
      assert Printed(es)[i] == (Host(m, domain), Decimal(m.remote));
    }
    if ReadMap(RenderNginxMap(dir, domain)).Some?
       && forall m :: m in dir && m.key.proto == Tcp ==>
                        (Host(m, domain), Decimal(m.remote)) in ReadMap(RenderNginxMap(dir, domain)).value
    {
      WordsFromText(dir, domain);
    }
  }

  /** A text that reads and holds every TCP row's host has none with a separator. */
  lemma WordsFromText(dir: seq<Mapping>, domain: string)
    requires var text := ReadMap(RenderNginxMap(dir, domain));
             && text.Some?
             && forall m :: m in dir && m.key.proto == Tcp ==> (Host(m, domain), Decimal(m.remote)) in text.value
    ensures NoSeparators(dir, domain)
  {
    var text := ReadMap(RenderNginxMap(dir, domain)).value;
    ReadHostsAreWords(RenderNginxMap(dir, domain));
    forall m | m in dir && m.key.proto == Tcp
      ensures OneWord(m.user) && OneWord(domain)
    {
      var i :| 0 <= i < |text| && text[i] == (Host(m, domain), Decimal(m.remote));
      HostIsWordIff(m, domain);
    }
  }

  function Line(h: string, p: Port): string {
    h + " " + Decimal(p) + ";\n"
  }

  lemma LinesCons(h: string, p: Port, es: seq<(string, Port)>)
    ensures Lines([(h, p)] + es) == Line(h, p) + Lines(es)
  {
    var all: seq<(string, Port)> := [(h, p)] + es;
    assert all[1..] == es;
  }

  /** A host that holds a whole line of its own prints as two lines. */
  lemma TwoInOne(x: string, p: Port, h: string, q: Port)
    ensures Line(x + " " + Decimal(p) + ";\n" + h, q) == Line(x, p) + Line(h, q)
  {
  }

  lemma OddText(a: Mapping, b: Mapping)
    requires a == Mapping("bob", Key(Tcp, 8), 2, false) && b == Mapping("x.d 1;\n8-bob", Key(Tcp, 8), 3, false)
    ensures ReadMap(RenderNginxMap([a, b], "d")) == Some([("8-bob.d", "2"), ("8-x.d", "1"), ("8-bob.d", "3")])
  {
    OddEntries(a, b);
    var none: seq<(string, Port)> := [];
    var bob: seq<(string, Port)> := [("8-bob.d", 3)] + none;
    var seen: seq<(string, Port)> := [("8-bob.d", 2)] + ([("8-x.d", 1)] + bob);
    var odd := "8-x.d 1;\n8-bob.d";
    assert Decimal(1) == "1";
    assert odd == "8-x.d" + " " + Decimal(1) + ";\n" + "8-bob.d";
    TwoInOne("8-x.d", 1, "8-bob.d", 3);
    LinesCons("8-bob.d", 2, [(odd, 3)] + none);
    LinesCons(odd, 3, none);
    LinesCons("8-bob.d", 2, [("8-x.d", 1)] + bob);
    LinesCons("8-x.d", 1, bob);
    LinesCons("8-bob.d", 3, none);
    assert Lines(seen) == RenderNginxMap([a, b], "d");
    LinesReadBackIff(seen);
    OddPrinted(seen);
  }

  lemma OddEntries(a: Mapping, b: Mapping)
    requires a == Mapping("bob", Key(Tcp, 8), 2, false) && b == Mapping("x.d 1;\n8-bob", Key(Tcp, 8), 3, false)
    ensures Entries([a, b], "d") == [("8-bob.d", 2)] + ([("8-x.d 1;\n8-bob.d", 3)] + [])
  {
    assert Decimal(8) == "8";
    assert Host(a, "d") == "8-bob.d" && Host(b, "d") == "8-x.d 1;\n8-bob.d";
    assert [a, b][1..] == [b] && [b][1..] == [];
    assert Entries([b], "d") == [(Host(b, "d"), 3)] + Entries([], "d");
  }

  lemma OddPrinted(seen: seq<(string, Port)>)
    requires seen == [("8-bob.d", 2), ("8-x.d", 1), ("8-bob.d", 3)]
    ensures AllWords(seen) && Printed(seen) == [("8-bob.d", "2"), ("8-x.d", "1"), ("8-bob.d", "3")]
  {
    PrintedAt(seen);
    assert Decimal(1) == "1" && Decimal(2) == "2" && Decimal(3) == "3";
  }

  function TwoUsers(u: string, v: string): map<string, UserConfig> {
    map[u := UserConfig(u, 2, 2, [8], []), v := UserConfig(v, 3, 3, [8], [])]
  }

  function TwoRows(u: string, v: string): seq<Alloc> {
    [Alloc(u, Key(Tcp, 8), 2), Alloc(v, Key(Tcp, 8), 3)]
  }

  lemma TwoValidated(u: string, v: string)
    requires u != v
    ensures Validated(TwoUsers(u, v)) && WellFormed(TwoRows(u, v))
  {
  }

  lemma TwoDirectory(u: string, v: string)
    requires u != v && StringLeq(u, v)
    ensures Registry.Directory(TwoRows(u, v), map[])
         == [Mapping(u, Key(Tcp, 8), 2, false), Mapping(v, Key(Tcp, 8), 3, false)]
  {
    var a, b := Mapping(u, Key(Tcp, 8), 2, false), Mapping(v, Key(Tcp, 8), 3, false);
    assert TwoRows(u, v)[1..] == [Alloc(v, Key(Tcp, 8), 3)] && TwoRows(u, v)[1..][1..] == [];
    assert Registry.Rows(TwoRows(u, v), map[]) == [a, b];
    assert Registry.MappingLeq(a, b);
    assert [a, b][1..] == [b] && [b][1..] == [];
    assert Sorting.SortBy([b], Registry.MappingLeq) == [b];
  }

  /** A user name with a line break: two validated users, and a directory whose text names one host twice. */
  lemma RenderedHostCanRepeat()
    ensures var odd := "x.d 1;\n8-bob";
            && Validated(TwoUsers("bob", odd)) && WellFormed(TwoRows("bob", odd))
            && Server.Init(TwoUsers("bob", odd), TwoRows("bob", odd)).reg.log != []
            && var dir := Registry.Current(Server.Init(TwoUsers("bob", odd), TwoRows("bob", odd)).reg);
               ReadMap(RenderNginxMap(dir, "d")) == Some([("8-bob.d", "2"), ("8-x.d", "1"), ("8-bob.d", "3")])
  {
    var odd := "x.d 1;\n8-bob";
    assert odd[0] == 'x';
    TwoValidated("bob", odd);
    TwoDirectory("bob", odd);
    OddText(Mapping("bob", Key(Tcp, 8), 2, false), Mapping(odd, Key(Tcp, 8), 3, false));
  }

  // ---------- keys that a map compares without their case ----------

  function LowerChar(c: char): char {
    if 'A' <= c <= 'Z' then (c as int + 32) as char else c
  }

  function Lower(s: string): (r: string)
    ensures |r| == |s| && forall i :: 0 <= i < |s| ==> r[i] == LowerChar(s[i])
  {
    seq(|s|, i requires 0 <= i < |s| => LowerChar(s[i]))
  }

  /** Lowering a host lowers its user and its domain. */
  lemma LowerHost(m: Mapping, domain: string)
    ensures Lower(Host(m, domain)) == Host(m.(user := Lower(m.user)), Lower(domain))
  {
    var d := Decimal(m.key.local);
    assert forall i :: 0 <= i < |d| ==> IsDigit(d[i]);
    assert Lower(d) == d;
    LowerParts(d, m.user, domain);
  }

  lemma LowerParts(d: string, user: string, domain: string)
    ensures Lower(d + "-" + user + "." + domain) == Lower(d) + "-" + Lower(user) + "." + Lower(domain)
  {
  }

  ghost predicate DistinctLowered(es: seq<(string, Port)>) {
    forall i, j :: 0 <= i < |es| && 0 <= j < |es| && i != j ==> Lower(es[i].0) != Lower(es[j].0)
  }

  /** Two TCP rows on one local port whose users are told apart only by case. */
  ghost predicate ClashInCase(a: Mapping, b: Mapping) {
    a.key == b.key && a.key.proto == Tcp && a.user != b.user && Lower(a.user) == Lower(b.user)
  }

  /** The entries of a directory stay distinct without their case exactly when no two users clash on a local port. */
  lemma LoweredHostsIff(dir: seq<Mapping>, domain: string)
    requires Distinct(dir)
    requires forall a, b :: a in dir && b in dir && a.user == b.user && a.key == b.key ==> a == b
    ensures DistinctLowered(Entries(dir, domain)) <==> forall a, b :: a in dir && b in dir ==> !ClashInCase(a, b)
  {
    var es := Entries(dir, domain);
    DistinctHosts(dir, domain);
    if DistinctLowered(es) {
      forall a, b | a in dir && b in dir
        ensures !ClashInCase(a, b)
      {
        if ClashInCase(a, b) {
          ClashRepeats(dir, domain, a, b);
        }
      }
    }
    if forall a, b :: a in dir && b in dir ==> !ClashInCase(a, b) {
      forall i, j | 0 <= i < |es| && 0 <= j < |es| && i != j
        ensures Lower(es[i].0) != Lower(es[j].0)
      {
        var a := EntryHasRow(dir, domain, es[i]);
        var b := EntryHasRow(dir, domain, es[j]);
        LowerHost(a, domain);
        LowerHost(b, domain);
        HostInjective(a.(user := Lower(a.user)), b.(user := Lower(b.user)), Lower(domain));
        assert !ClashInCase(a, b);
      }
    }
  }

  lemma ClashRepeats(dir: seq<Mapping>, domain: string, a: Mapping, b: Mapping)
    requires a in dir && b in dir && ClashInCase(a, b)
    ensures !DistinctLowered(Entries(dir, domain))
  {
    var es := Entries(dir, domain);
    RowHasEntry(dir, domain, a);
    RowHasEntry(dir, domain, b);
    var i :| 0 <= i < |es| && es[i] == (Host(a, domain), a.remote);
    var j :| 0 <= j < |es| && es[j] == (Host(b, domain), b.remote);
    HostInjective(a, b, domain);
    LowerHost(a, domain);
    LowerHost(b, domain);
  }

  /** And validation accepts two users that do. */
  lemma CaseCanClash()
    ensures Validated(TwoUsers("Bob", "bob")) && WellFormed(TwoRows("Bob", "bob"))
    ensures Server.Init(TwoUsers("Bob", "bob"), TwoRows("Bob", "bob")).reg.log != []
    ensures var dir := Registry.Current(Server.Init(TwoUsers("Bob", "bob"), TwoRows("Bob", "bob")).reg);
            exists a, b :: a in dir && b in dir && ClashInCase(a, b)
  {
    BobAndBob();
    TwoValidated("Bob", "bob");
    TwoDirectory("Bob", "bob");
    var a, b := Mapping("Bob", Key(Tcp, 8), 2, false), Mapping("bob", Key(Tcp, 8), 3, false);
    assert a == [a, b][0] && b == [a, b][1];
    assert ClashInCase(a, b);
  }

  lemma BobAndBob()
    ensures "Bob" != "bob" && StringLeq("Bob", "bob") && Lower("Bob") == Lower("bob")
  {
    assert "Bob"[0] == 'B' && "bob"[0] == 'b';
  }
}

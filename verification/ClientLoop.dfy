/** The client's control loop: each turn, run on the client's fields, is the client's side of one `Reports` step. */
module ClientLoop {
  import opened Types
  import opened Client
  import opened Aliases
  import Reports

  /** `probe_listening`, when exactly the local ports in `up` accept connections. */
  method ProbeListening(dir: seq<Mapping>, me: string, up: set<Port>) returns (v: seq<Port>)
    ensures v == Probe(dir, me, up, [])
  {
    v := [];
    for i := 0 to |dir|
      invariant Probe(dir[i..], me, up, v) == Probe(dir, me, up, [])
    {
      assert dir[i..][1..] == dir[i + 1..];
      var m := dir[i];
      if OwnTcp(m, me) && m.key.local !in v && m.key.local in up {
        v := v + [m.key.local];
      }
    }
  }

  class ControlLoop {
    var st: ClientState
    var reported: seq<Port>

    /** This client is the client end of `l`. */
    ghost predicate EndOf(l: Reports.Link)
      reads this
    {
      st == l.st && reported == l.reported
    }

    /** The report a step sends, given the link before and after it. */
    ghost predicate Sends(l: Reports.Link, l': Reports.Link, sent: Option<seq<Port>>)
      reads this
    {
      EndOf(l') && l'.toServer == l.toServer + if sent.Some? then [sent.value] else []
    }

    /** The stored probe result are the own TCP ports of the directory that accept connections. */
    ghost predicate AcceptingOwn(up: set<Port>)
      reads this
    {
      forall p :: p in st.listening <==> p in up && ExposesTcp(st.directory, st.user, p)
    }

    /** A report goes out exactly when the list is not the one sent before. */
    ghost predicate SentIffChanged(before: seq<Port>, sent: Option<seq<Port>>)
      reads this
    {
      && reported == Unavailable(st)
      && sent == if reported == before then None else Some(reported)
    }

    /** A new session: empty directory and probe, the ports turned off, and nothing reported yet. */
    constructor (user: string, disabled: seq<Port>)
      ensures st == ClientState(user, [], [], disabled) && reported == []
    {
      st := ClientState(user, [], [], disabled);
      reported := [];
    }

    /** `report_unavailable` */
    method ReportUnavailable(ghost l: Reports.Link) returns (sent: Option<seq<Port>>)
      requires EndOf(l)
      modifies this`reported
      ensures Sends(l, Reports.SendReport(l), sent) && SentIffChanged(old(reported), sent)
    {
      var want := UnavailablePorts(st);
      if want != reported {
        reported := want;
        return Some(want);
      }
      assert l.toServer + [] == l.toServer;
      return None;
    }

    /** A directory frame: probe, reconcile the aliases, store, report. */
    method OnDirectory(dir: seq<Mapping>, up: set<Port>, aliases: Aliases, ghost l: Reports.Link)
      returns (sent: Option<seq<Port>>)
      requires EndOf(l) && l.toClient != [] && dir == l.toClient[0]
      requires Accounted(aliases.Model()) && aliases.me == st.user
      modifies this, aliases
      ensures Sends(l, Reports.Next(l, Reports.HandleDirectory(up)), sent) && SentIffChanged(old(reported), sent)
      ensures st == old(st).(directory := dir, listening := st.listening) && AcceptingOwn(up)
      ensures Accounted(aliases.Model())
      ensures Reconciled(old(aliases.Model()), WantedAliases(aliases.bindHost, dir, st.user), aliases.Model())
    {
      var listening := ProbeListening(dir, st.user, up);
      ProbeExact(dir, st.user, up, []);
      aliases.Apply(dir);
      st := st.(directory := dir, listening := listening);
      sent := ReportUnavailable(l.(toClient := l.toClient[1..], st := st));
    }

    method OnProbe(up: set<Port>, ghost l: Reports.Link) returns (sent: Option<seq<Port>>)
      requires EndOf(l)
      modifies this
      ensures Sends(l, Reports.Next(l, Reports.ProbeTick(up)), sent)
      ensures st == old(st).(listening := st.listening) && AcceptingOwn(up)
    {
      ProbeExact(st.directory, st.user, up, []);
      var listening := ProbeListening(st.directory, st.user, up);
      if listening != st.listening {
        st := st.(listening := listening);
        sent := ReportUnavailable(l.(st := st));
      } else {
        assert l.toServer + [] == l.toServer;
        sent := None;
      }
    }

    method OnDisabled(ports: seq<Port>, ghost l: Reports.Link) returns (sent: Option<seq<Port>>)
      requires EndOf(l) && StrictlyIncreasing(ports)
      modifies this
      ensures Sends(l, Reports.Next(l, Reports.DisabledChanged(ports)), sent) && SentIffChanged(old(reported), sent)
      ensures st == old(st).(disabled := ports)
    {
      st := st.(disabled := ports);
      sent := ReportUnavailable(l.(st := st));
    }
  }
}

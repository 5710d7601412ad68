/**
  The panel's registry of reverse sessions: two indexes changed by one handler per connection
  (go/panel/reverse/server.go).

  The methods of class Registry are the sections that run under the mutex.  A handler runs them in
  order with other work between them, so a run is a schedule that advances one handler at a time.
  */
module Registry {
  import opened Wrappers

  /** A session; the id stands for its identity, as two sessions may agree in name and address. */
  datatype Session = Session(id: nat, hostname: string, peerIP: string)

  datatype Tables = Tables(byHost: map<string, Session>, byIP: map<string, Session>)

  function Lookup(m: map<string, Session>, key: string): Option<Session> {
    if key in m then Some(m[key]) else None
  }

  predicate Displaced(t: Tables, sess: Session, ip: string)
    requires ip in t.byIP
  {
    var existing := t.byIP[ip];
    Lookup(t.byHost, sess.hostname) == Some(existing) || (existing.hostname == sess.hostname && existing != sess)
  }

  function Registered(t: Tables, sess: Session): Tables {
    Tables(t.byHost[sess.hostname := sess],
           (map ip | ip in t.byIP && !Displaced(t, sess, ip) :: t.byIP[ip])[sess.peerIP := sess])
  }

  function Unregistered(t: Tables, sess: Session): Tables {
    Tables(if Lookup(t.byHost, sess.hostname) == Some(sess) then t.byHost - {sess.hostname} else t.byHost,
           if Lookup(t.byIP, sess.peerIP) == Some(sess) then t.byIP - {sess.peerIP} else t.byIP)
  }

  class Registry {
    var byHost: map<string, Session>
    var byIP: map<string, Session>

    function Contents(): Tables
      reads this
    {
      Tables(byHost, byIP)
    }

    constructor ()
      ensures Contents() == Tables(map[], map[])
    {
      byHost, byIP := map[], map[];
    }

    /** The part of register under the mutex; the caller closes the session it displaced. */
    method Register(sess: Session) returns (previous: Option<Session>)
      modifies this
      ensures Contents() == Registered(old(Contents()), sess)
      ensures previous == Lookup(old(byHost), sess.hostname)
    {
      previous := Lookup(byHost, sess.hostname);
      var ips := byIP.Keys;
      while ips != {}
        invariant byHost == old(byHost)
        invariant ips <= old(byIP).Keys
        invariant forall ip :: ip in byIP ==> ip in old(byIP) && byIP[ip] == old(byIP)[ip]
        invariant forall ip :: ip in old(byIP) ==>
                    (ip in byIP <==> ip in ips || !Displaced(old(Contents()), sess, ip))
      {
        var ip :| ip in ips;
        var existing := byIP[ip];
        if previous == Some(existing) || (existing.hostname == sess.hostname && existing != sess) {
          byIP := byIP - {ip};
        }
        ips := ips - {ip};
      }
      byHost := byHost[sess.hostname := sess];
      byIP := byIP[sess.peerIP := sess];
    }

    method Unregister(sess: Session)
      modifies this
      ensures Contents() == Unregistered(old(Contents()), sess)
    {
      if sess.hostname in byHost && byHost[sess.hostname] == sess {
        byHost := byHost - {sess.hostname};
      }
      if sess.peerIP in byIP && byIP[sess.peerIP] == sess {
        byIP := byIP - {sess.peerIP};
      }
    }
  }

  // ------------------------------------------------------------------------------------------
  // Runs
  // ------------------------------------------------------------------------------------------

  /** What a handler does next. */
  datatype Phase =
    | Displacing(previous: Option<Session>)
    | Reporting
    | Serving
    | Closing
    | Checking
    | Leaving
    | Finished

  /** What the panel is told, in order. */
  datatype Report = Status(session: Session) | Gone(session: Session)

  datatype State = State(
    tables: Tables,
    phases: map<Session, Phase>,
    closed: set<Session>,
    joins: seq<Session>,
    reports: seq<Report>)

  datatype Move = Advance(session: Session) | Refresh(session: Session)

  const START := State(Tables(map[], map[]), map[], {}, [], [])

  function Next(s: State, x: Session): State {
    if x !in s.phases then
      s.(tables := Registered(s.tables, x), joins := s.joins + [x],
         phases := s.phases[x := Displacing(Lookup(s.tables.byHost, x.hostname))])
    else
      match s.phases[x]
      case Displacing(previous) =>
        s.(closed := if previous.Some? && previous.value != x then s.closed + {previous.value} else s.closed,
           phases := s.phases[x := Reporting])
      case Reporting => s.(reports := s.reports + [Status(x)], phases := s.phases[x := Serving])
      case Serving => s.(tables := Unregistered(s.tables, x), phases := s.phases[x := Closing])
      case Closing => s.(closed := s.closed + {x}, phases := s.phases[x := Checking])
      case Checking => s.(phases := s.phases[x := if x.hostname in s.tables.byHost then Finished else Leaving])
      case Leaving => s.(reports := s.reports + [Gone(x)], phases := s.phases[x := Finished])
      case Finished => s
  }

  function Apply(s: State, m: Move): State {
    match m
    case Advance(x) => Next(s, x)
    case Refresh(x) =>
      if x in s.phases && s.phases[x].Serving? then s.(reports := s.reports + [Status(x)]) else s
  }

  function Run(s: State, moves: seq<Move>): State
    decreases |moves|
  {
    if moves == [] then s else Run(Apply(s, moves[0]), moves[1..])
  }

  // ------------------------------------------------------------------------------------------
  // The indexes are the newest sessions
  // ------------------------------------------------------------------------------------------

  datatype Key = Host(name: string) | Address(ip: string)

  predicate Has(x: Session, k: Key) {
    match k
    case Host(name) => x.hostname == name
    case Address(ip) => x.peerIP == ip
  }

  /** The last session to register under a key. */
  function Newest(joins: seq<Session>, k: Key): (r: Option<Session>)
    ensures r.Some? ==> r.value in joins && Has(r.value, k)
  {
    if joins == [] then None
    else
      var x := joins[|joins| - 1];
      if Has(x, k) then Some(x) else Newest(joins[..|joins| - 1], k)
  }

  lemma NewestAppend(joins: seq<Session>, x: Session, k: Key)
    ensures Newest(joins + [x], k) == if Has(x, k) then Some(x) else Newest(joins, k)
  {
    assert (joins + [x])[..|joins|] == joins;
  }

  /** Registered, and not yet unregistered. */
  predicate Listed(s: State, x: Session) {
    x in s.phases && (s.phases[x].Displacing? || s.phases[x].Reporting? || s.phases[x].Serving?)
  }

  predicate IsNewest(s: State, x: Session) {
    Newest(s.joins, Host(x.hostname)) == Some(x)
  }

  function HostEntry(s: State, host: string): Option<Session> {
    var n := Newest(s.joins, Host(host));
    if n.Some? && Listed(s, n.value) then n else None
  }

  function AddressEntry(s: State, ip: string): Option<Session> {
    var n := Newest(s.joins, Address(ip));
    if n.Some? && Listed(s, n.value) && IsNewest(s, n.value) then n else None
  }

  ghost predicate TablesHold(s: State) {
    && (forall x :: x in s.joins <==> x in s.phases)
    && (forall host :: Lookup(s.tables.byHost, host) == HostEntry(s, host))
    && (forall ip :: Lookup(s.tables.byIP, ip) == AddressEntry(s, ip))
  }

  lemma RegisterChangesNewest(s: State, x: Session)
    requires x !in s.phases
    ensures var t := Next(s, x);
            && t.tables == Registered(s.tables, x)
            && t.phases == s.phases[x := Displacing(Lookup(s.tables.byHost, x.hostname))]
            && t.closed == s.closed
            && (forall y :: y in t.joins <==> y in s.joins || y == x)
            && forall k :: Newest(t.joins, k) == if Has(x, k) then Some(x) else Newest(s.joins, k)
  {
    forall k ensures Newest(s.joins + [x], k) == if Has(x, k) then Some(x) else Newest(s.joins, k) {
      NewestAppend(s.joins, x, k);
    }
  }

  lemma RegisterKeepsTables(s: State, x: Session)
    requires TablesHold(s) && x !in s.phases
    ensures TablesHold(Next(s, x))
  {
    hide Newest, Next;
    RegisterChangesNewest(s, x);
    var t := Next(s, x);
    forall host ensures Lookup(t.tables.byHost, host) == HostEntry(t, host) {
      assert Lookup(s.tables.byHost, host) == HostEntry(s, host);
    }
    forall ip ensures Lookup(t.tables.byIP, ip) == AddressEntry(t, ip) {
      assert Lookup(s.tables.byIP, ip) == AddressEntry(s, ip);
      assert Lookup(s.tables.byHost, x.hostname) == HostEntry(s, x.hostname);
    }
  }

  lemma UnregisterKeepsTables(s: State, x: Session)
    requires TablesHold(s) && x in s.phases && s.phases[x].Serving?
    ensures TablesHold(Next(s, x))
  {
    hide Newest;
    var t := Next(s, x);
    forall host ensures Lookup(t.tables.byHost, host) == HostEntry(t, host) {
      assert Lookup(s.tables.byHost, host) == HostEntry(s, host);
    }
    forall ip ensures Lookup(t.tables.byIP, ip) == AddressEntry(t, ip) {
      assert Lookup(s.tables.byIP, ip) == AddressEntry(s, ip);
    }
  }

  lemma OtherMovesKeepTables(s: State, m: Move)
    requires TablesHold(s)
    requires m.Advance? ==> m.session in s.phases && !s.phases[m.session].Serving?
    ensures TablesHold(Apply(s, m))
  {
    hide Newest;
    var t := Apply(s, m);
    assert t.tables == s.tables && t.joins == s.joins && t.phases.Keys == s.phases.Keys;
    assert forall x :: Listed(t, x) == Listed(s, x);
    assert forall host :: HostEntry(t, host) == HostEntry(s, host);
    assert forall ip :: AddressEntry(t, ip) == AddressEntry(s, ip);
  }

  lemma TablesKept(s: State, m: Move)
    requires TablesHold(s)
    ensures TablesHold(Apply(s, m))
  {
    hide TablesHold;
    if m.Advance? && m.session !in s.phases {
      RegisterKeepsTables(s, m.session);
    } else if m.Advance? && s.phases[m.session].Serving? {
      UnregisterKeepsTables(s, m.session);
    } else {
      OtherMovesKeepTables(s, m);
    }
  }

  // ------------------------------------------------------------------------------------------
  // Replaced sessions are closed
  // ------------------------------------------------------------------------------------------

  /** Handler y has replaced x, and is about to close it. */
  predicate Closes(s: State, y: Session, x: Session) {
    y != x && y in s.phases && s.phases[y] == Displacing(Some(x))
  }

  ghost predicate BeingClosed(s: State, x: Session) {
    exists y :: Closes(s, y, x)
  }

  ghost predicate ClosedHold(s: State) {
    && (forall x :: Listed(s, x) && !IsNewest(s, x) ==> x in s.closed || BeingClosed(s, x))
    && (forall x :: x in s.closed || BeingClosed(s, x) ==> x in s.phases && !(Listed(s, x) && IsNewest(s, x)))
  }

  lemma RegisterKeepsClosed(s: State, x: Session)
    requires TablesHold(s) && ClosedHold(s) && x !in s.phases
    ensures ClosedHold(Next(s, x))
  {
    hide Newest, Next, Registered, AddressEntry, Lookup;
    RegisterChangesNewest(s, x);
    var t := Next(s, x);
    var previous := Lookup(s.tables.byHost, x.hostname);
    assert previous == HostEntry(s, x.hostname);
    assert forall z :: IsNewest(t, z) <==> z == x || (IsNewest(s, z) && z.hostname != x.hostname);
    assert previous.Some? ==> previous.value in s.phases && Closes(t, x, previous.value);
    assert forall y, z :: Closes(s, y, z) ==> Closes(t, y, z);
    assert forall y, z :: Closes(t, y, z) ==> Closes(s, y, z) || (y == x && previous == Some(z));
  }

  lemma PhaseChanges(s: State, m: Move)
    requires m.Advance? ==> m.session in s.phases
    ensures var t := Apply(s, m);
            && t.joins == s.joins && t.phases.Keys == s.phases.Keys && s.closed <= t.closed
            && (forall x :: Listed(t, x) ==> Listed(s, x))
            && (forall y, x :: Closes(t, y, x) ==> Closes(s, y, x))
            && (forall y, x :: Closes(s, y, x) ==> Closes(t, y, x) || x in t.closed)
            && (forall x :: x in t.closed ==> x in s.closed || (x in t.phases && !Listed(t, x)) || Closes(s, m.session, x))
  {}

  lemma OtherMovesKeepClosed(s: State, m: Move)
    requires ClosedHold(s)
    requires m.Advance? ==> m.session in s.phases
    ensures ClosedHold(Apply(s, m))
  {
    hide Newest, Apply, Closes, Listed;
    PhaseChanges(s, m);
    var t := Apply(s, m);
    assert forall x :: IsNewest(t, x) == IsNewest(s, x);
  }

  // ------------------------------------------------------------------------------------------
  // The last report
  // ------------------------------------------------------------------------------------------

  /** The last thing the panel was told about a host. */
  function LastReport(reports: seq<Report>, host: string): (r: Option<Report>)
    ensures r.Some? ==> r.value in reports && r.value.session.hostname == host
  {
    if reports == [] then None
    else
      var r := reports[|reports| - 1];
      if r.session.hostname == host then Some(r) else LastReport(reports[..|reports| - 1], host)
  }

  lemma ReportAppend(reports: seq<Report>, r: Report, host: string)
    ensures LastReport(reports + [r], host) == if r.session.hostname == host then Some(r) else LastReport(reports, host)
  {
    assert (reports + [r])[..|reports|] == reports;
  }

  predicate RunningAs(s: State, x: Session, host: string) {
    x in s.phases && x.hostname == host && !s.phases[x].Finished?
  }

  /** Some handler of the host still has something to do. */
  ghost predicate Running(s: State, host: string) {
    exists x :: RunningAs(s, x, host)
  }

  predicate SaidGone(s: State, host: string) {
    var r := LastReport(s.reports, host);
    r.Some? && r.value.Gone?
  }

  ghost predicate ReportsHold(s: State) {
    forall x :: x in s.phases ==> Running(s, x.hostname) || SaidGone(s, x.hostname)
  }

  /** A handler that reports a status keeps running; one that ends has just reported its host gone, or
      has seen the host listed. */
  lemma ReportChanges(s: State, m: Move)
    ensures var t := Apply(s, m);
            var x := m.session;
            && (|| t.reports == s.reports
                || (t.reports == s.reports + [Status(x)] && RunningAs(t, x, x.hostname))
                || t.reports == s.reports + [Gone(x)])
            && (forall y :: y in t.phases ==> y in s.phases || RunningAs(t, y, y.hostname))
            && (forall y, host :: RunningAs(s, y, host) ==>
                  || RunningAs(t, y, host)
                  || (y == x && s.phases[x].Checking? && Lookup(s.tables.byHost, host).Some?)
                  || (y == x && t.reports == s.reports + [Gone(x)]))
  {}

  lemma ReportsKept(s: State, m: Move)
    requires TablesHold(s) && ReportsHold(s)
    ensures ReportsHold(Apply(s, m))
  {
    hide Newest, LastReport, Apply;
    ReportChanges(s, m);
    var t := Apply(s, m);
    forall x | x in t.phases ensures Running(t, x.hostname) || SaidGone(t, x.hostname) {
      var host := x.hostname;
      ReportAppend(s.reports, Status(m.session), host);
      ReportAppend(s.reports, Gone(m.session), host);
      if Running(s, host) && !Running(t, host) {
        var y :| RunningAs(s, y, host);
        var listed := Lookup(s.tables.byHost, host);
        assert listed == HostEntry(s, host);
        assert listed.Some? ==> RunningAs(s, listed.value, host);
      }
    }
  }

  // ------------------------------------------------------------------------------------------
  // Disconnects that come too late
  // ------------------------------------------------------------------------------------------

  predicate LeavingHost(s: State, y: Session, host: string) {
    y in s.phases && y.hostname == host && s.phases[y].Leaving?
  }

  /** The move registers a session of a host that some handler has already found gone, but not yet
      reported: the check and the report are not one step. */
  ghost predicate Overtakes(s: State, m: Move) {
    m.Advance? && m.session !in s.phases && exists y :: LeavingHost(s, y, m.session.hostname)
  }

  ghost predicate Calm(s: State, moves: seq<Move>)
    decreases |moves|
  {
    moves == [] || (!Overtakes(s, moves[0]) && Calm(Apply(s, moves[0]), moves[1..]))
  }

  /** A host with a listed session has no disconnect pending, and once that session has reported its
      status, none is the last thing said of it. */
  ghost predicate CalmHolds(s: State) {
    forall x :: Listed(s, x) && IsNewest(s, x) ==>
      && (forall y :: !LeavingHost(s, y, x.hostname))
      && (s.phases[x].Serving? ==> !SaidGone(s, x.hostname))
  }

  lemma CalmRegister(s: State, x: Session)
    requires CalmHolds(s) && x !in s.phases && !Overtakes(s, Advance(x))
    ensures CalmHolds(Next(s, x))
  {
    hide Newest, LastReport, Registered;
    RegisterChangesNewest(s, x);
    var t := Next(s, x);
    assert forall z, host :: LeavingHost(t, z, host) ==> LeavingHost(s, z, host);
    assert forall z :: Listed(t, z) && IsNewest(t, z) && z != x ==> Listed(s, z) && IsNewest(s, z);
  }

  /** A handler goes on to report a disconnect only when its host has no entry. */
  lemma LeavingChanges(s: State, m: Move)
    requires m.Advance? ==> m.session in s.phases
    ensures var t := Apply(s, m);
            && t.joins == s.joins
            && (forall x :: Listed(t, x) ==> Listed(s, x))
            && (forall y, host :: LeavingHost(t, y, host) ==> LeavingHost(s, y, host) || host !in s.tables.byHost)
            && (|| t.reports == s.reports
                || t.reports == s.reports + [Status(m.session)]
                || (t.reports == s.reports + [Gone(m.session)] && LeavingHost(s, m.session, m.session.hostname)))
            && (forall x :: Listed(t, x) && t.phases[x].Serving? ==>
                  s.phases[x].Serving? || t.reports == s.reports + [Status(x)])
  {}

  lemma CalmOther(s: State, m: Move)
    requires TablesHold(s) && CalmHolds(s) && (m.Advance? ==> m.session in s.phases)
    ensures CalmHolds(Apply(s, m))
  {
    hide Newest, LastReport, Apply, LeavingHost;
    LeavingChanges(s, m);
    var t := Apply(s, m);
    forall x | Listed(t, x) && IsNewest(t, x)
      ensures (forall y :: !LeavingHost(t, y, x.hostname)) && (t.phases[x].Serving? ==> !SaidGone(t, x.hostname))
    {
      assert Listed(s, x) && IsNewest(s, x);
      assert Lookup(s.tables.byHost, x.hostname) == HostEntry(s, x.hostname);
      ReportAppend(s.reports, Status(m.session), x.hostname);
      ReportAppend(s.reports, Gone(m.session), x.hostname);
      ReportAppend(s.reports, Status(x), x.hostname);
      assert !LeavingHost(s, m.session, x.hostname);
    }
  }

  lemma CalmKept(s: State, m: Move)
    requires TablesHold(s) && CalmHolds(s) && !Overtakes(s, m)
    ensures CalmHolds(Apply(s, m))
  {
    hide TablesHold, CalmHolds, Overtakes, Next;
    if m.Advance? && m.session !in s.phases {
      CalmRegister(s, m.session);
    } else {
      CalmOther(s, m);
    }
  }

  lemma {:induction false} CalmRun(s: State, moves: seq<Move>)
    requires TablesHold(s) && CalmHolds(s) && Calm(s, moves)
    ensures TablesHold(Run(s, moves)) && CalmHolds(Run(s, moves))
    decreases |moves|
  {
    hide TablesHold, CalmHolds, Apply, Overtakes;
    if moves != [] {
      TablesKept(s, moves[0]);
      CalmKept(s, moves[0]);
      CalmRun(Apply(s, moves[0]), moves[1..]);
    }
  }

  // ------------------------------------------------------------------------------------------
  // Main results
  // ------------------------------------------------------------------------------------------

  ghost predicate Holds(s: State) {
    TablesHold(s) && ClosedHold(s) && ReportsHold(s)
  }

  lemma StartHolds()
    ensures Holds(START) && CalmHolds(START)
  {}

  lemma {:induction false} RunHolds(s: State, moves: seq<Move>)
    requires Holds(s)
    ensures Holds(Run(s, moves))
    decreases |moves|
  {
    hide TablesHold, ClosedHold, ReportsHold, Apply;
    if moves != [] {
      var m := moves[0];
      TablesKept(s, m);
      ClosedMoves(s, m);
      ReportsKept(s, m);
      RunHolds(Apply(s, m), moves[1..]);
    }
  }

  lemma ClosedMoves(s: State, m: Move)
    requires TablesHold(s) && ClosedHold(s)
    ensures ClosedHold(Apply(s, m))
  {
    hide TablesHold, ClosedHold, Next;
    if m.Advance? && m.session !in s.phases {
      RegisterKeepsClosed(s, m.session);
    } else {
      OtherMovesKeepClosed(s, m);
    }
  }

  /** In every interleaving a host's entry is the last session to register under that name, if that
      one has not unregistered; an address's entry is the last to register from it, if it is also its
      host's entry.  So every address entry has its own address as key and is its host's entry. */
  lemma IndexesNameTheNewest(moves: seq<Move>, host: string, ip: string)
    ensures var s := Run(START, moves);
            && Lookup(s.tables.byHost, host) == HostEntry(s, host)
            && Lookup(s.tables.byIP, ip) == AddressEntry(s, ip)
            && (ip in s.tables.byIP ==>
                  var x := s.tables.byIP[ip];
                  x.peerIP == ip && Lookup(s.tables.byHost, x.hostname) == Some(x))
  {
    hide ClosedHold, ReportsHold, Newest, Run;
    StartHolds();
    RunHolds(START, moves);
    var s := Run(START, moves);
    assert Lookup(s.tables.byHost, host) == HostEntry(s, host);
    assert Lookup(s.tables.byIP, ip) == AddressEntry(s, ip);
    if ip in s.tables.byIP {
      var x := s.tables.byIP[ip];
      assert Lookup(s.tables.byHost, x.hostname) == HostEntry(s, x.hostname);
    }
  }

  /** A session that is still registered has been closed, or is about to be, exactly if a later session
      has taken its name. */
  lemma OnlyReplacedAreClosed(moves: seq<Move>, x: Session)
    requires Listed(Run(START, moves), x)
    ensures var s := Run(START, moves);
            (x in s.closed || BeingClosed(s, x)) <==> Lookup(s.tables.byHost, x.hostname) != Some(x)
  {
    hide ReportsHold, Newest, Run, Listed, BeingClosed;
    StartHolds();
    RunHolds(START, moves);
    var s := Run(START, moves);
    assert Lookup(s.tables.byHost, x.hostname) == HostEntry(s, x.hostname);
  }

  /** Every session that is served, or has been, was reported with its status, and every one whose handler
      is past that is closed. */
  ghost predicate StatusTold(s: State) {
    && (forall x :: x in s.phases && !s.phases[x].Displacing? && !s.phases[x].Reporting? ==> Status(x) in s.reports)
    && (forall x :: x in s.phases && (s.phases[x].Checking? || s.phases[x].Leaving? || s.phases[x].Finished?) ==> x in s.closed)
  }

  lemma StatusKept(s: State, m: Move)
    requires StatusTold(s)
    ensures StatusTold(Apply(s, m))
  {
    assert forall x :: x in Apply(s, m).phases && x != m.session ==> x in s.phases && Apply(s, m).phases[x] == s.phases[x];
  }

  lemma {:induction false} StatusRun(s: State, moves: seq<Move>)
    requires StatusTold(s)
    ensures StatusTold(Run(s, moves))
    decreases |moves|
  {
    hide StatusTold, Apply;
    if moves != [] {
      StatusKept(s, moves[0]);
      StatusRun(Apply(s, moves[0]), moves[1..]);
    }
  }

  /** Once every handler has finished, both indexes are empty, every session is closed and was reported with
      its status, and the last thing the panel was told about every host that ever registered is that it
      is gone. */
  lemma EveryHostSeenOff(moves: seq<Move>)
    requires forall x :: x in Run(START, moves).phases ==> Run(START, moves).phases[x].Finished?
    ensures var s := Run(START, moves);
            && s.tables == Tables(map[], map[])
            && forall x :: x in s.phases ==> SaidGone(s, x.hostname) && x in s.closed && Status(x) in s.reports
  {
    hide ClosedHold, Newest, Run, LastReport;
    StartHolds();
    RunHolds(START, moves);
    StatusRun(START, moves);
    var s := Run(START, moves);
    forall host ensures host !in s.tables.byHost {
      assert Lookup(s.tables.byHost, host) == HostEntry(s, host);
    }
    forall ip ensures ip !in s.tables.byIP {
      assert Lookup(s.tables.byIP, ip) == AddressEntry(s, ip);
    }
  }

  predicate ServesHost(s: State, host: string) {
    host in s.tables.byHost && s.tables.byHost[host] in s.phases && s.phases[s.tables.byHost[host]].Serving?
  }

  lemma {:induction false} SomethingTold(reports: seq<Report>, r: Report)
    requires r in reports
    ensures LastReport(reports, r.session.hostname).Some?
  {
    if reports[|reports| - 1] != r {
      SomethingTold(reports[..|reports| - 1], r);
    }
  }

  /** A host whose entry is being served was last reported with a status, never gone, if no registration
      overtakes a disconnect that is found but not yet reported ... */
  lemma ServedHostIsNotGone(moves: seq<Move>, host: string)
    requires Calm(START, moves)
    requires ServesHost(Run(START, moves), host)
    ensures var last := LastReport(Run(START, moves).reports, host); last.Some? && last.value.Status?
  {
    hide ClosedHold, ReportsHold, Newest, Run, LastReport;
    StartHolds();
    CalmRun(START, moves);
    StatusRun(START, moves);
    var s := Run(START, moves);
    assert Lookup(s.tables.byHost, host) == HostEntry(s, host);
    SomethingTold(s.reports, Status(s.tables.byHost[host]));
  }

  /** A refresh of a session being served is what is last told of its host. */
  lemma RefreshIsTold(s: State, x: Session)
    requires x in s.phases && s.phases[x].Serving?
    ensures LastReport(Apply(s, Refresh(x)).reports, x.hostname) == Some(Status(x))
  {
    ReportAppend(s.reports, Status(x), x.hostname);
  }

  /** ... and from any state where a registration does overtake one, the handlers can go on so that the
      new session is served and its host was last reported gone. */
  lemma OvertakenDisconnect(s: State, x: Session, y: Session)
    requires x !in s.phases && LeavingHost(s, y, x.hostname)
    ensures var t := Run(s, [Advance(x), Advance(x), Advance(x), Advance(y)]);
            ServesHost(t, x.hostname) && t.tables.byHost[x.hostname] == x && SaidGone(t, x.hostname)
  {
    var s1 := Next(s, x);
    var s2 := Next(s1, x);
    var s3 := Next(s2, x);
    var s4 := Next(s3, y);
    assert s3.phases[x] == Serving && s3.phases[y] == Leaving && s3.tables.byHost[x.hostname] == x;
    assert s4.tables == s3.tables && s4.phases[x] == Serving;
    assert s4.reports == s3.reports + [Gone(y)] && y.hostname == x.hostname;
    ReportAppend(s3.reports, Gone(y), x.hostname);
    assert SaidGone(s4, x.hostname);
    RunFour(s, Advance(x), Advance(x), Advance(x), Advance(y));
  }

  lemma RunFour(s: State, a: Move, b: Move, c: Move, d: Move)
    ensures Run(s, [a, b, c, d]) == Apply(Apply(Apply(Apply(s, a), b), c), d)
  {
    hide Apply;
    assert [a, b, c, d][1..] == [b, c, d] && [b, c, d][1..] == [c, d] && [c, d][1..] == [d] && [d][1..] == [];
    assert Run(s, [a, b, c, d]) == Run(Apply(s, a), [b, c, d]);
    var s1 := Apply(s, a);
    assert Run(s1, [b, c, d]) == Run(Apply(s1, b), [c, d]);
    var s2 := Apply(s1, b);
    assert Run(s2, [c, d]) == Run(Apply(s2, c), [d]);
  }

  lemma {:induction false} RunAppend(s: State, a: seq<Move>, b: seq<Move>)
    ensures Run(s, a + b) == Run(Run(s, a), b)
    decreases |a|
  {
    hide Apply;
    if a == [] {
      assert a + b == b;
    } else {
      assert (a + b)[1..] == a[1..] + b;
      RunAppend(Apply(s, a[0]), a[1..], b);
    }
  }

  /** A handler alone, up to the point where it has found its host gone. */
  lemma AloneUntilLeaving(y: Session)
    ensures var s := Run(START, [Advance(y), Advance(y), Advance(y), Advance(y)] + [Advance(y), Advance(y)]);
            LeavingHost(s, y, y.hostname) && s.phases.Keys == {y}
  {
    hide Run;
    var m := Advance(y);
    RunAppend(START, [m, m, m, m], [m, m]);
    RunFour(START, m, m, m, m);
    var s4 := Run(START, [m, m, m, m]);
    assert s4.phases == map[y := Closing] && s4.tables.byHost == map[];
    RunTwo(s4, m, m);
  }

  lemma RunTwo(s: State, a: Move, b: Move)
    ensures Run(s, [a, b]) == Apply(Apply(s, a), b)
  {
    hide Apply;
    assert [a, b][1..] == [b] && [b][1..] == [];
    assert Run(s, [a, b]) == Run(Apply(s, a), [b]);
  }

  /** It happens from the start: one session of a host comes and goes, and another registers between
      the check and the report. */
  lemma OvertakenFromStart(x: Session, y: Session)
    requires x != y && x.hostname == y.hostname
    ensures var moves := [Advance(y), Advance(y), Advance(y), Advance(y)] + [Advance(y), Advance(y)]
                         + [Advance(x), Advance(x), Advance(x), Advance(y)];
            ServesHost(Run(START, moves), x.hostname) && SaidGone(Run(START, moves), x.hostname)
  {
    hide Run, Apply, SaidGone;
    var before := [Advance(y), Advance(y), Advance(y), Advance(y)] + [Advance(y), Advance(y)];
    AloneUntilLeaving(y);
    RunAppend(START, before, [Advance(x), Advance(x), Advance(x), Advance(y)]);
    OvertakenDisconnect(Run(START, before), x, y);
  }
}

/**
  The agent's rotating log file (go/agent/logging.go).

  The directory is a map from a file's index to its bytes: 0 is the log itself and i is backup i.  Any
  remove, rename or open may fail: `faults` names the calls of one Write that do.
  */
module RotatingFile {
  import opened Text

  datatype Call = Remove(index: int) | Rename(index: int) | Open(attempt: int)

  /** One remove and rename: what was at the target is gone if either succeeds. */
  function Moved<T>(disk: map<int, T>, from: int, faults: set<Call>): map<int, T> {
    var removed := if Remove(from + 1) in faults then disk else disk - {from + 1};
    if from !in disk || Rename(from) in faults then removed
    else (removed - {from})[from + 1 := disk[from]]
  }

  /** The loop of rollover, from backup i down to backup 1. */
  function Shifted<T>(disk: map<int, T>, i: int, faults: set<Call>): map<int, T>
    decreases i
  {
    if i < 1 then disk else Shifted(if i in disk then Moved(disk, i, faults) else disk, i - 1, faults)
  }

  function Rolled<T>(disk: map<int, T>, backups: int, faults: set<Call>): map<int, T> {
    Moved(Shifted(disk, backups - 1, faults), 0, faults)
  }

  datatype Files = Files(disk: map<int, string>, open: bool, size: int)

  function Opened(f: Files, attempt: int, faults: set<Call>): Files {
    if Open(attempt) in faults then f.(open := false)
    else
      var disk := if 0 in f.disk then f.disk else f.disk[0 := ""];
      Files(disk, true, |disk[0]|)
  }

  datatype Limits = Limits(maxBytes: int, backups: int)

  predicate RolloverDue(f: Files, p: string, limits: Limits) {
    limits.maxBytes > 0 && limits.backups > 0 && f.size > 0 && f.size + |p| >= limits.maxBytes
  }

  /** The file a write goes to: opened if it was not, and rolled over if it is due. */
  function Ready(f: Files, p: string, limits: Limits, faults: set<Call>): Files {
    var a := if f.open then f else Opened(f, 0, faults);
    if !a.open || !RolloverDue(a, p, limits) then a
    else
      var b := Opened(a.(disk := Rolled(a.disk, limits.backups, faults), open := false), 1, faults);
      if b.open then b else Opened(b, 2, faults)
  }

  /** The system accepts the first `accepted` bytes of p. */
  function Written(f: Files, p: string, accepted: nat, limits: Limits, faults: set<Call>): Files
    requires accepted <= |p|
  {
    var r := Ready(f, p, limits, faults);
    if !r.open || 0 !in r.disk then r
    else r.(disk := r.disk[0 := r.disk[0] + p[..accepted]], size := r.size + accepted)
  }

  /** The open file exists, and its size is the one kept. */
  predicate SizeHolds(f: Files) {
    f.open ==> 0 in f.disk && f.size == |f.disk[0]|
  }

  lemma WrittenKeepsSize(f: Files, p: string, accepted: nat, limits: Limits, faults: set<Call>)
    requires SizeHolds(f) && accepted <= |p|
    ensures SizeHolds(Ready(f, p, limits, faults)) && SizeHolds(Written(f, p, accepted, limits, faults))
  {
    hide Rolled;
  }

  class RotatingFile {
    const limits: Limits
    var disk: map<int, string>
    var open: bool
    var size: int

    function State(): Files
      reads this
    {
      Files(disk, open, size)
    }

    constructor (limits: Limits, disk: map<int, string>, faults: set<Call>)
      ensures this.limits == limits
      ensures State() == Opened(Files(disk, false, 0), 0, faults) && SizeHolds(State())
    {
      this.limits := limits;
      this.disk, this.open, this.size := disk, false, 0;
      new;
      OpenFile(0, faults);
    }

    method OpenFile(attempt: int, faults: set<Call>)
      modifies this
      ensures State() == Opened(old(State()), attempt, faults)
    {
      if Open(attempt) in faults {
        open := false;
        return;
      }
      if 0 !in disk {
        disk := disk[0 := ""];
      }
      open, size := true, |disk[0]|;
    }

    method Move(from: int, faults: set<Call>)
      modifies this`disk
      ensures disk == Moved(old(disk), from, faults)
    {
      if Remove(from + 1) !in faults {
        disk := disk - {from + 1};
      }
      if from in disk && Rename(from) !in faults {
        disk := (disk - {from})[from + 1 := disk[from]];
      }
    }

    method Rollover(faults: set<Call>)
      modifies this
      ensures State() == Opened(old(State()).(disk := Rolled(old(disk), limits.backups, faults), open := false), 1, faults)
    {
      open := false;
      var i := limits.backups - 1;
      while i >= 1
        invariant !open && size == old(size)
        invariant Shifted(disk, i, faults) == Shifted(old(disk), limits.backups - 1, faults)
      {
        if i in disk {
          Move(i, faults);
        }
        i := i - 1;
      }
      Move(0, faults);
      OpenFile(1, faults);
    }

    method Write(p: string, accepted: nat, faults: set<Call>) returns (n: nat, ok: bool)
      requires SizeHolds(State()) && accepted <= |p|
      modifies this
      ensures State() == Written(old(State()), p, accepted, limits, faults) && SizeHolds(State())
      ensures n == (if open then accepted else 0) && (ok <==> open && accepted == |p|)
    {
      ghost var before := State();
      WrittenKeepsSize(before, p, accepted, limits, faults);
      if !open {
        OpenFile(0, faults);
        if !open {
          return 0, false;
        }
      }
      if limits.maxBytes > 0 && limits.backups > 0 && size > 0 && size + |p| >= limits.maxBytes {
        Rollover(faults);
        if !open {
          OpenFile(2, faults);
          if !open {
            return 0, false;
          }
        }
      }
      disk := disk[0 := disk[0] + p[..accepted]];
      size := size + accepted;
      return accepted, accepted == |p|;
    }

    method Close()
      modifies this`open
      ensures State() == old(State()).(open := false)
    {
      open := false;
    }
  }

  // ------------------------------------------------------------------------------------------
  // What one rollover moves and loses
  // ------------------------------------------------------------------------------------------

  /** Backup or log i is renamed away. */
  predicate Moves<T>(disk: map<int, T>, i: int, backups: int, faults: set<Call>) {
    0 <= i < backups && i in disk && Rename(i) !in faults
  }

  /** File i is removed or overwritten where it is: its own rename failed, or it is the last, and the
      one before it comes along. */
  predicate Lost<T>(disk: map<int, T>, i: int, backups: int, faults: set<Call>) {
    && i in disk && 1 <= i <= backups
    && !Moves(disk, i, backups, faults)
    && (i == 1 || i - 1 in disk)
    && (Remove(i) !in faults || Moves(disk, i - 1, backups, faults))
  }

  predicate Stays<T>(disk: map<int, T>, i: int, backups: int, faults: set<Call>) {
    i in disk && !Moves(disk, i, backups, faults) && !Lost(disk, i, backups, faults)
  }

  /** The file that is number m after a rollover. */
  function Origin<T>(disk: map<int, T>, m: int, backups: int, faults: set<Call>): int {
    if Moves(disk, m - 1, backups, faults) then m - 1 else m
  }

  /** Where each file of the directory is after a rollover. */
  ghost predicate RolledFrom<T>(disk: map<int, T>, after: map<int, T>, backups: int, faults: set<Call>) {
    && (forall m :: m in after <==> Moves(disk, m - 1, backups, faults) || Stays(disk, m, backups, faults))
    && (forall m :: m in after ==> Origin(disk, m, backups, faults) in disk
                                   && after[m] == disk[Origin(disk, m, backups, faults)])
  }

  predicate ShiftKeeps<T>(disk: map<int, T>, i: int, faults: set<Call>, m: int) {
    m in disk && !(1 <= m <= i && Rename(m) !in faults) && !(2 <= m <= i + 1 && m - 1 in disk && Remove(m) !in faults)
  }

  lemma {:induction false} ShiftedAt<T>(disk: map<int, T>, i: int, faults: set<Call>, m: int)
    ensures var after := Shifted(disk, i, faults);
            if 2 <= m <= i + 1 && m - 1 in disk && Rename(m - 1) !in faults then m in after && after[m] == disk[m - 1]
            else if ShiftKeeps(disk, i, faults, m) then m in after && after[m] == disk[m]
            else m !in after
    decreases i
  {
    if i >= 1 {
      ShiftedAt(if i in disk then Moved(disk, i, faults) else disk, i - 1, faults, m);
    }
  }

  lemma RolledMoves<T>(disk: map<int, T>, backups: int, faults: set<Call>)
    requires 0 < backups
    ensures RolledFrom(disk, Rolled(disk, backups, faults), backups, faults)
  {
    hide Shifted;
    var after := Rolled(disk, backups, faults);
    ShiftedAt(disk, backups - 1, faults, 0);
    forall m
      ensures m in after <==> Moves(disk, m - 1, backups, faults) || Stays(disk, m, backups, faults)
      ensures m in after ==> Origin(disk, m, backups, faults) in disk
                             && after[m] == disk[Origin(disk, m, backups, faults)]
    {
      ShiftedAt(disk, backups - 1, faults, m);
    }
  }

  /** If no remove or rename fails, only the last backup is lost, and only to make room for the one
      before it. */
  lemma QuietLoss<T>(disk: map<int, T>, backups: int, faults: set<Call>, i: int)
    requires forall j :: Remove(j) !in faults && Rename(j) !in faults
    ensures Lost(disk, i, backups, faults) <==> i == backups >= 1 && i in disk && (i == 1 || i - 1 in disk)
  {}

  // ------------------------------------------------------------------------------------------
  // Which writes each file holds
  // ------------------------------------------------------------------------------------------

  /** The writes lo, lo + 1, ..., hi - 1. */
  datatype Span = Span(lo: nat, hi: nat)

  /** Everything accepted so far, one entry a write, and the writes each file holds. */
  datatype Trace = Trace(history: seq<string>, spans: map<int, Span>)

  function TraceOpened(f: Files, t: Trace, attempt: int, faults: set<Call>): Trace {
    if Open(attempt) in faults || 0 in f.disk then t
    else t.(spans := t.spans[0 := Span(|t.history|, |t.history|)])
  }

  function TraceReady(f: Files, t: Trace, p: string, limits: Limits, faults: set<Call>): Trace {
    var a := if f.open then f else Opened(f, 0, faults);
    var u := if f.open then t else TraceOpened(f, t, 0, faults);
    if !a.open || !RolloverDue(a, p, limits) then u
    else
      var rolled := a.(disk := Rolled(a.disk, limits.backups, faults), open := false);
      var b := Opened(rolled, 1, faults);
      var v := TraceOpened(rolled, u.(spans := Rolled(u.spans, limits.backups, faults)), 1, faults);
      if b.open then v else TraceOpened(b, v, 2, faults)
  }

  function TraceWritten(f: Files, t: Trace, p: string, accepted: nat, limits: Limits, faults: set<Call>): Trace
    requires accepted <= |p|
  {
    var u := TraceReady(f, t, p, limits, faults);
    if !Ready(f, p, limits, faults).open || 0 !in u.spans then u
    else Trace(u.history + [p[..accepted]], u.spans[0 := Span(u.spans[0].lo, |u.history| + 1)])
  }

  /** Every file is a run of whole writes; the runs do not overlap, and a higher backup is older. */
  ghost predicate TraceHolds(disk: map<int, string>, t: Trace, limits: Limits) {
    && disk.Keys == t.spans.Keys
    && (forall i :: i in t.spans ==> i == 0 || 1 <= i <= limits.backups)
    && (forall i :: i in t.spans ==> t.spans[i].lo <= t.spans[i].hi <= |t.history|)
    && (forall i :: i in t.spans ==> disk[i] == Concat(t.history[t.spans[i].lo..t.spans[i].hi]))
    && (forall i, j :: i in t.spans && j in t.spans && i > j ==> t.spans[i].hi <= t.spans[j].lo)
    && (0 in t.spans ==> t.spans[0].hi == |t.history|)
  }

  /** A rollover moves two maps over the same files alike. */
  lemma RollsAlike<T, U>(a: map<int, T>, b: map<int, U>, backups: int, faults: set<Call>)
    requires a.Keys == b.Keys && 0 < backups
    ensures var after := Rolled(b, backups, faults);
            && Rolled(a, backups, faults).Keys == after.Keys
            && forall m :: m in after ==>
                 var i := Origin(b, m, backups, faults);
                 i in a && i in b && Rolled(a, backups, faults)[m] == a[i] && after[m] == b[i]
  {
    hide Rolled;
    RolledMoves(a, backups, faults);
    RolledMoves(b, backups, faults);
    forall m ensures Moves(a, m - 1, backups, faults) == Moves(b, m - 1, backups, faults)
                  && Stays(a, m, backups, faults) == Stays(b, m, backups, faults)
                  && Origin(a, m, backups, faults) == Origin(b, m, backups, faults) {}
    forall m ensures m in Rolled(a, backups, faults) <==> m in Rolled(b, backups, faults) {}
  }

  /** A rollover keeps the order of the files. */
  lemma RollKeepsOrder<T>(disk: map<int, T>, backups: int, faults: set<Call>)
    requires 0 < backups
    ensures var after := Rolled(disk, backups, faults);
            && (forall m :: m in after ==> m == Origin(disk, m, backups, faults) || 1 <= m <= backups)
            && forall i, j :: i in after && j in after && i > j ==>
                 Origin(disk, i, backups, faults) > Origin(disk, j, backups, faults)
  {
    hide Rolled;
    RolledMoves(disk, backups, faults);
  }

  lemma RollKeepsTrace(disk: map<int, string>, t: Trace, limits: Limits, faults: set<Call>)
    requires TraceHolds(disk, t, limits) && limits.backups > 0
    ensures TraceHolds(Rolled(disk, limits.backups, faults), t.(spans := Rolled(t.spans, limits.backups, faults)), limits)
  {
    hide Rolled, Origin, Concat;
    RollsAlike(disk, t.spans, limits.backups, faults);
    RollKeepsOrder(t.spans, limits.backups, faults);
  }

  lemma OpenKeepsTrace(f: Files, t: Trace, limits: Limits, attempt: int, faults: set<Call>)
    requires TraceHolds(f.disk, t, limits)
    ensures TraceHolds(Opened(f, attempt, faults).disk, TraceOpened(f, t, attempt, faults), limits)
  {
    ConcatNothing();
    assert t.history[|t.history|..|t.history|] == [];
  }

  lemma ReadyKeepsTrace(f: Files, t: Trace, p: string, limits: Limits, faults: set<Call>)
    requires TraceHolds(f.disk, t, limits)
    ensures TraceHolds(Ready(f, p, limits, faults).disk, TraceReady(f, t, p, limits, faults), limits)
  {
    hide TraceHolds, Rolled, Opened, TraceOpened;
    var a := if f.open then f else Opened(f, 0, faults);
    var u := if f.open then t else TraceOpened(f, t, 0, faults);
    OpenKeepsTrace(f, t, limits, 0, faults);
    if a.open && RolloverDue(a, p, limits) {
      RollKeepsTrace(a.disk, u, limits, faults);
      var rolled := a.(disk := Rolled(a.disk, limits.backups, faults), open := false);
      var v := u.(spans := Rolled(u.spans, limits.backups, faults));
      OpenKeepsTrace(rolled, v, limits, 1, faults);
      OpenKeepsTrace(Opened(rolled, 1, faults), TraceOpened(rolled, v, 1, faults), limits, 2, faults);
    }
  }

  lemma AppendKeepsTrace(disk: map<int, string>, t: Trace, chunk: string, limits: Limits)
    requires TraceHolds(disk, t, limits) && 0 in disk
    ensures TraceHolds(disk[0 := disk[0] + chunk],
                       Trace(t.history + [chunk], t.spans[0 := Span(t.spans[0].lo, |t.history| + 1)]), limits)
  {
    hide Concat;
    var h := t.history + [chunk];
    forall i | i in t.spans ensures h[t.spans[i].lo..t.spans[i].hi] == t.history[t.spans[i].lo..t.spans[i].hi] {}
    var lo := t.spans[0].lo;
    assert h[lo..|t.history| + 1] == t.history[lo..|t.history|] + [chunk];
    assert [chunk] + [] == [chunk];
    ConcatAppend(t.history[lo..|t.history|], [chunk]);
    ConcatStep(chunk, []);
    ConcatNothing();
  }

  lemma WrittenKeepsTrace(f: Files, t: Trace, p: string, accepted: nat, limits: Limits, faults: set<Call>)
    requires TraceHolds(f.disk, t, limits) && accepted <= |p|
    ensures TraceHolds(Written(f, p, accepted, limits, faults).disk, TraceWritten(f, t, p, accepted, limits, faults), limits)
  {
    hide Ready, TraceReady, Concat;
    ReadyKeepsTrace(f, t, p, limits, faults);
    var r := Ready(f, p, limits, faults);
    if r.open && 0 in r.disk {
      AppendKeepsTrace(r.disk, TraceReady(f, t, p, limits, faults), p[..accepted], limits);
    }
  }

  // ------------------------------------------------------------------------------------------
  // No gaps
  // ------------------------------------------------------------------------------------------

  predicate Holding(spans: map<int, Span>, i: int, h: int) {
    i in spans && spans[i].lo <= h < spans[i].hi
  }

  ghost predicate Kept(spans: map<int, Span>, h: int) {
    exists i :: Holding(spans, i, h)
  }

  /** If a write is still on disk, every later one is. */
  ghost predicate NoGaps(t: Trace) {
    forall h, g :: Kept(t.spans, h) && h <= g < |t.history| ==> Kept(t.spans, g)
  }

  /** Everything lost is older than everything left. */
  ghost predicate LosesOldest(spans: map<int, Span>, backups: int, faults: set<Call>) {
    forall j, k ::
      (&& j in spans && spans[j].lo < spans[j].hi && Lost(spans, j, backups, faults)
       && k in spans && spans[k].lo < spans[k].hi && k > j) ==> Lost(spans, k, backups, faults)
  }

  lemma KeptAfterRoll(disk: map<int, string>, t: Trace, limits: Limits, faults: set<Call>, h: int)
    requires TraceHolds(disk, t, limits) && limits.backups > 0
    ensures Kept(Rolled(t.spans, limits.backups, faults), h) <==>
            exists i :: Holding(t.spans, i, h) && !Lost(t.spans, i, limits.backups, faults)
  {
    hide Rolled, Concat;
    var spans, b := t.spans, limits.backups;
    var after := Rolled(spans, b, faults);
    RolledMoves(spans, b, faults);
    forall i | Holding(spans, i, h) && !Lost(spans, i, b, faults) ensures Kept(after, h) {
      var m := if Moves(spans, i, b, faults) then i + 1 else i;
      assert Origin(spans, m, b, faults) == i;
      assert Holding(after, m, h);
    }
    forall m | Holding(after, m, h) ensures exists i :: Holding(spans, i, h) && !Lost(spans, i, b, faults) {
      var i := Origin(spans, m, b, faults);
      assert Holding(spans, i, h) && !Lost(spans, i, b, faults);
    }
  }

  lemma RollFillsGaps(disk: map<int, string>, t: Trace, limits: Limits, faults: set<Call>)
    requires TraceHolds(disk, t, limits) && limits.backups > 0 && NoGaps(t)
    requires LosesOldest(t.spans, limits.backups, faults)
    ensures NoGaps(t.(spans := Rolled(t.spans, limits.backups, faults)))
  {
    hide Rolled, Concat, Lost, Kept;
    var spans, b := t.spans, limits.backups;
    var after := Rolled(spans, b, faults);
    forall h, g | Kept(after, h) && h <= g < |t.history| ensures Kept(after, g) {
      KeptAfterRoll(disk, t, limits, faults, h);
      KeptAfterRoll(disk, t, limits, faults, g);
      var k :| Holding(spans, k, h) && !Lost(spans, k, b, faults);
      KeptBy(spans, k, h);
      var j := HolderOf(spans, g);
      assert Holding(spans, j, g) && !Lost(spans, j, b, faults);
    }
  }

  lemma RollLeavesGap(disk: map<int, string>, t: Trace, limits: Limits, faults: set<Call>, j: int, k: int)
    requires TraceHolds(disk, t, limits) && limits.backups > 0
    requires j in t.spans && t.spans[j].lo < t.spans[j].hi && Lost(t.spans, j, limits.backups, faults)
    requires k in t.spans && t.spans[k].lo < t.spans[k].hi && k > j && !Lost(t.spans, k, limits.backups, faults)
    ensures !NoGaps(t.(spans := Rolled(t.spans, limits.backups, faults)))
  {
    hide Rolled, Concat, Lost, Kept;
    var spans := t.spans;
    var h, g := spans[k].lo, spans[j].lo;
    KeptAfterRoll(disk, t, limits, faults, h);
    KeptAfterRoll(disk, t, limits, faults, g);
    assert Holding(spans, k, h);
    assert forall i :: Holding(spans, i, g) ==> i == j;
  }

  /** A rollover that finds no gaps leaves none exactly if everything it loses is older than everything
      it leaves. */
  lemma RollLeavesNoGaps(disk: map<int, string>, t: Trace, limits: Limits, faults: set<Call>)
    requires TraceHolds(disk, t, limits) && limits.backups > 0 && NoGaps(t)
    ensures NoGaps(t.(spans := Rolled(t.spans, limits.backups, faults))) <==> LosesOldest(t.spans, limits.backups, faults)
  {
    hide Rolled, Lost, NoGaps, TraceHolds;
    var spans, b := t.spans, limits.backups;
    if LosesOldest(spans, b, faults) {
      RollFillsGaps(disk, t, limits, faults);
    } else {
      var j, k :| && j in spans && spans[j].lo < spans[j].hi && Lost(spans, j, b, faults)
                  && k in spans && spans[k].lo < spans[k].hi && k > j && !Lost(spans, k, b, faults);
      RollLeavesGap(disk, t, limits, faults, j, k);
    }
  }

  lemma KeptBy(spans: map<int, Span>, i: int, h: int)
    requires Holding(spans, i, h)
    ensures Kept(spans, h)
  {}

  ghost function HolderOf(spans: map<int, Span>, h: int): (i: int)
    requires Kept(spans, h)
    ensures Holding(spans, i, h)
  {
    var i :| Holding(spans, i, h); i
  }

  /** If no remove or rename fails, only the oldest is lost. */
  lemma QuietLosesOldest(disk: map<int, string>, t: Trace, limits: Limits, faults: set<Call>)
    requires TraceHolds(disk, t, limits)
    requires forall i :: Remove(i) !in faults && Rename(i) !in faults
    ensures LosesOldest(t.spans, limits.backups, faults)
  {
    hide Concat, Lost;
    forall j | j in t.spans && Lost(t.spans, j, limits.backups, faults) ensures j == limits.backups {
      QuietLoss(t.spans, limits.backups, faults, j);
    }
  }

  lemma OpenLeavesNoGaps(f: Files, t: Trace, limits: Limits, attempt: int, faults: set<Call>)
    requires TraceHolds(f.disk, t, limits) && NoGaps(t)
    ensures NoGaps(TraceOpened(f, t, attempt, faults))
  {
    hide Concat;
    var u := TraceOpened(f, t, attempt, faults);
    forall h, g | Kept(u.spans, h) && h <= g < |t.history| ensures Kept(u.spans, g) {
      KeptBy(t.spans, HolderOf(u.spans, h), h);
      KeptBy(u.spans, HolderOf(t.spans, g), g);
    }
  }

  lemma AppendLeavesNoGaps(disk: map<int, string>, t: Trace, chunk: string, limits: Limits)
    requires TraceHolds(disk, t, limits) && NoGaps(t) && 0 in t.spans
    ensures NoGaps(Trace(t.history + [chunk], t.spans[0 := Span(t.spans[0].lo, |t.history| + 1)]))
  {
    hide Concat;
    var n := |t.history|;
    var after := t.spans[0 := Span(t.spans[0].lo, n + 1)];
    forall h, g | Kept(after, h) && h <= g < n + 1 ensures Kept(after, g) {
      if g == n {
        KeptBy(after, 0, n);
      } else {
        KeptBy(t.spans, HolderOf(after, h), h);
        KeptBy(after, HolderOf(t.spans, g), g);
      }
    }
  }

  // ------------------------------------------------------------------------------------------
  // Runs
  // ------------------------------------------------------------------------------------------

  datatype Op = Write(p: string, accepted: nat, faults: set<Call>) | Close

  predicate Possible(op: Op) {
    op.Write? ==> op.accepted <= |op.p|
  }

  datatype Logged = Logged(files: Files, trace: Trace)

  /** An empty directory. */
  const FRESH := Logged(Files(map[], false, 0), Trace([], map[]))

  function Step(s: Logged, op: Op, limits: Limits): Logged
    requires Possible(op)
  {
    match op
    case Write(p, accepted, faults) =>
      Logged(Written(s.files, p, accepted, limits, faults), TraceWritten(s.files, s.trace, p, accepted, limits, faults))
    case Close => s.(files := s.files.(open := false))
  }

  function Run(s: Logged, ops: seq<Op>, limits: Limits): Logged
    requires forall op :: op in ops ==> Possible(op)
    decreases |ops|
  {
    if ops == [] then s else Run(Step(s, ops[0], limits), ops[1..], limits)
  }

  ghost predicate Holds(s: Logged, limits: Limits) {
    SizeHolds(s.files) && TraceHolds(s.files.disk, s.trace, limits)
  }

  /** No remove or rename fails; the opens may, and the system may accept only part of the write. */
  ghost predicate Quiet(op: Op) {
    op.Write? ==> forall i :: Remove(i) !in op.faults && Rename(i) !in op.faults
  }

  lemma StepHolds(s: Logged, op: Op, limits: Limits)
    requires Possible(op) && Holds(s, limits)
    ensures Holds(Step(s, op, limits), limits)
  {
    hide Written, TraceWritten, TraceHolds;
    if op.Write? {
      WrittenKeepsSize(s.files, op.p, op.accepted, limits, op.faults);
      WrittenKeepsTrace(s.files, s.trace, op.p, op.accepted, limits, op.faults);
    }
  }

  lemma ReadyLeavesNoGaps(f: Files, t: Trace, p: string, limits: Limits, faults: set<Call>)
    requires TraceHolds(f.disk, t, limits) && NoGaps(t)
    requires forall i :: Remove(i) !in faults && Rename(i) !in faults
    ensures NoGaps(TraceReady(f, t, p, limits, faults))
  {
    hide TraceHolds, NoGaps, Rolled, Opened, TraceOpened;
    var a := if f.open then f else Opened(f, 0, faults);
    var u := if f.open then t else TraceOpened(f, t, 0, faults);
    OpenKeepsTrace(f, t, limits, 0, faults);
    OpenLeavesNoGaps(f, t, limits, 0, faults);
    if a.open && RolloverDue(a, p, limits) {
      QuietLosesOldest(a.disk, u, limits, faults);
      RollKeepsTrace(a.disk, u, limits, faults);
      RollLeavesNoGaps(a.disk, u, limits, faults);
      var rolled := a.(disk := Rolled(a.disk, limits.backups, faults), open := false);
      var v := u.(spans := Rolled(u.spans, limits.backups, faults));
      OpenKeepsTrace(rolled, v, limits, 1, faults);
      OpenLeavesNoGaps(rolled, v, limits, 1, faults);
      OpenLeavesNoGaps(Opened(rolled, 1, faults), TraceOpened(rolled, v, 1, faults), limits, 2, faults);
    }
  }

  lemma StepLeavesNoGaps(s: Logged, op: Op, limits: Limits)
    requires Possible(op) && Holds(s, limits) && NoGaps(s.trace) && Quiet(op)
    ensures NoGaps(Step(s, op, limits).trace)
  {
    hide TraceReady, Ready, NoGaps, TraceHolds;
    if op.Write? {
      ReadyKeepsTrace(s.files, s.trace, op.p, limits, op.faults);
      ReadyLeavesNoGaps(s.files, s.trace, op.p, limits, op.faults);
      var r := Ready(s.files, op.p, limits, op.faults);
      var u := TraceReady(s.files, s.trace, op.p, limits, op.faults);
      if r.open && 0 in u.spans {
        AppendLeavesNoGaps(r.disk, u, op.p[..op.accepted], limits);
      }
    }
  }

  lemma {:induction false} RunHolds(s: Logged, ops: seq<Op>, limits: Limits)
    requires (forall op :: op in ops ==> Possible(op)) && Holds(s, limits)
    ensures Holds(Run(s, ops, limits), limits)
    ensures NoGaps(s.trace) && (forall op :: op in ops ==> Quiet(op)) ==> NoGaps(Run(s, ops, limits).trace)
    decreases |ops|
  {
    hide Step, Holds, NoGaps, Quiet, Possible;
    if ops != [] {
      StepHolds(s, ops[0], limits);
      if NoGaps(s.trace) && Quiet(ops[0]) {
        StepLeavesNoGaps(s, ops[0], limits);
      }
      RunHolds(Step(s, ops[0], limits), ops[1..], limits);
    }
  }

  // ------------------------------------------------------------------------------------------
  // Main results
  // ------------------------------------------------------------------------------------------

  /** The backups from number i down to 1, and then the log itself, end to end. */
  function FilesFrom(disk: map<int, string>, i: int): string {
    if i < 0 then "" else (if i in disk then disk[i] else "") + FilesFrom(disk, i - 1)
  }

  /** The files from i on are everything written since the first write they hold. */
  lemma {:induction false} FilesAreSuffix(disk: map<int, string>, t: Trace, limits: Limits, i: int) returns (k: nat)
    requires TraceHolds(disk, t, limits) && NoGaps(t) && i >= -1
    ensures k <= |t.history| && FilesFrom(disk, i) == Concat(t.history[k..])
    ensures forall j, h :: j <= i && Holding(t.spans, j, h) ==> k <= h
    ensures k < |t.history| ==> exists j :: j <= i && Holding(t.spans, j, k)
    decreases i
  {
    hide Concat;
    ConcatNothing();
    var n := |t.history|;
    if i < 0 {
      k := n;
      assert t.history[n..] == [];
      return;
    }
    k := FilesAreSuffix(disk, t, limits, i - 1);
    if i in t.spans && t.spans[i].lo < t.spans[i].hi {
      var lo, hi := t.spans[i].lo, t.spans[i].hi;
      assert Holding(t.spans, i, lo) && Holding(t.spans, i, hi - 1);
      if hi < n {
        KeptBy(t.spans, i, hi - 1);
        var j := HolderOf(t.spans, hi);
        assert j < i;
      }
      assert hi == k;
      ConcatAppend(t.history[lo..hi], t.history[hi..]);
      assert t.history[lo..hi] + t.history[hi..] == t.history[lo..];
      k := lo;
    } else if i in t.spans {
      var lo := t.spans[i].lo;
      assert t.history[lo..lo] == [];
    }
  }

  /** What the system accepts of a write is recorded exactly when Write reports it. */
  lemma StepRecords(s: Logged, op: Op, limits: Limits)
    requires Possible(op) && Holds(s, limits)
    ensures var t := Step(s, op, limits);
            t.trace.history ==
            s.trace.history + if op.Write? && t.files.open then [op.p[..op.accepted]] else []
  {
    hide Ready, Rolled, TraceHolds, Concat;
    if op.Write? {
      ReadyKeepsTrace(s.files, s.trace, op.p, limits, op.faults);
      WrittenKeepsSize(s.files, op.p, op.accepted, limits, op.faults);
      ReadyRecords(s.files, s.trace, op.p, limits, op.faults);
      SameFiles(Ready(s.files, op.p, limits, op.faults).disk, TraceReady(s.files, s.trace, op.p, limits, op.faults), limits);
    }
  }

  lemma ReadyRecords(f: Files, t: Trace, p: string, limits: Limits, faults: set<Call>)
    ensures TraceReady(f, t, p, limits, faults).history == t.history
  {
    hide Rolled;
  }

  lemma SameFiles(disk: map<int, string>, t: Trace, limits: Limits)
    requires TraceHolds(disk, t, limits)
    ensures disk.Keys == t.spans.Keys
  {
    hide Concat;
  }

  /** The highest backup. */
  function Top(limits: Limits): nat {
    if limits.backups > 0 then limits.backups else 0
  }

  /** The log and its backups only; other files of the directory are never touched. */
  predicate OwnFiles(disk: map<int, string>, limits: Limits) {
    forall i :: i in disk ==> 0 <= i <= Top(limits)
  }

  /** What is found on the disk from file i up, each file counted as one write, the oldest first. */
  function Found(disk: map<int, string>, i: int, top: int): Trace
    decreases top - i
  {
    if i > top then Trace([], map[])
    else
      var older := Found(disk, i + 1, top);
      if i in disk then
        Trace(older.history + [disk[i]], older.spans[i := Span(|older.history|, |older.history| + 1)])
      else older
  }

  /** A directory as an earlier run, or no run at all, has left it. */
  function Existing(disk: map<int, string>, limits: Limits): Logged {
    Logged(Files(disk, false, 0), Found(disk, 0, Top(limits)))
  }

  function From(disk: map<int, string>, i: int): map<int, string> {
    map j | j in disk && j >= i :: disk[j]
  }

  lemma {:induction false} FoundHolds(disk: map<int, string>, i: int, limits: Limits)
    requires OwnFiles(disk, limits) && 0 <= i <= Top(limits) + 1
    ensures var t := Found(disk, i, Top(limits));
            && TraceHolds(From(disk, i), t, limits)
            && (forall h :: 0 <= h < |t.history| ==> Kept(t.spans, h))
    decreases Top(limits) - i
  {
    hide Concat, Kept, TraceHolds, Found;
    FoundStep(disk, i, Top(limits));
    if i > Top(limits) {
      assert From(disk, i) == map[];
      NothingTraced(limits);
    } else {
      var older := Found(disk, i + 1, Top(limits));
      FoundHolds(disk, i + 1, limits);
      if i in disk {
        assert From(disk, i) == From(disk, i + 1)[i := disk[i]];
        FoundFile(From(disk, i + 1), older, i, disk[i], limits);
      } else {
        assert From(disk, i) == From(disk, i + 1);
      }
    }
  }

  lemma FoundStep(disk: map<int, string>, i: int, top: int)
    ensures Found(disk, i, top)
         == if i > top then Trace([], map[])
            else
              var older := Found(disk, i + 1, top);
              if i in disk then
                Trace(older.history + [disk[i]], older.spans[i := Span(|older.history|, |older.history| + 1)])
              else older
  {}

  lemma NothingTraced(limits: Limits)
    ensures TraceHolds(map[], Trace([], map[]), limits)
  {}

  lemma FoundFile(disk: map<int, string>, t: Trace, i: int, content: string, limits: Limits)
    requires TraceHolds(disk, t, limits) && (i == 0 || 1 <= i <= limits.backups) && forall j :: j in disk ==> j > i
    requires forall h :: 0 <= h < |t.history| ==> Kept(t.spans, h)
    ensures var n := |t.history|;
            var after := Trace(t.history + [content], t.spans[i := Span(n, n + 1)]);
            && TraceHolds(disk[i := content], after, limits)
            && (forall h :: 0 <= h < n + 1 ==> Kept(after.spans, h))
  {
    hide Concat;
    var n := |t.history|;
    var h := t.history + [content];
    forall j | j in t.spans ensures h[t.spans[j].lo..t.spans[j].hi] == t.history[t.spans[j].lo..t.spans[j].hi] {}
    assert h[n..n + 1] == [content] && [content] + [] == [content];
    ConcatStep(content, []);
    ConcatNothing();
    var spans := t.spans[i := Span(n, n + 1)];
    forall g | 0 <= g < n + 1 ensures Kept(spans, g) {
      if g == n {
        KeptBy(spans, i, n);
      } else {
        KeptBy(spans, HolderOf(t.spans, g), g);
      }
    }
  }

  lemma ExistingHolds(disk: map<int, string>, limits: Limits)
    requires OwnFiles(disk, limits)
    ensures Holds(Existing(disk, limits), limits) && NoGaps(Existing(disk, limits).trace)
  {
    hide TraceHolds;
    FoundHolds(disk, 0, limits);
    assert From(disk, 0) == disk;
  }

  /** After any run on any directory, whatever failed, every file is a run of whole writes; the runs do
      not overlap and are in order.  What was there before counts as one write a file. */
  lemma WholeWritesInOrder(disk: map<int, string>, ops: seq<Op>, limits: Limits)
    requires OwnFiles(disk, limits) && forall op :: op in ops ==> Possible(op)
    ensures var s := Run(Existing(disk, limits), ops, limits);
            TraceHolds(s.files.disk, s.trace, limits) && SizeHolds(s.files)
  {
    hide Run, Concat, Existing;
    ExistingHolds(disk, limits);
    RunHolds(Existing(disk, limits), ops, limits);
  }

  /** If no remove or rename has failed, the backups and the log end to end are a suffix of what was there
      before and everything written since, whole writes only. */
  lemma FilesAreTheLastWrites(disk: map<int, string>, ops: seq<Op>, limits: Limits)
    requires OwnFiles(disk, limits) && forall op :: op in ops ==> Possible(op) && Quiet(op)
    ensures var s := Run(Existing(disk, limits), ops, limits);
            exists k :: 0 <= k <= |s.trace.history| && FilesFrom(s.files.disk, Top(limits)) == Concat(s.trace.history[k..])
  {
    hide Run, Concat, FilesFrom, TraceHolds, Existing;
    ExistingHolds(disk, limits);
    RunHolds(Existing(disk, limits), ops, limits);
    var s := Run(Existing(disk, limits), ops, limits);
    var k := FilesAreSuffix(s.files.disk, s.trace, limits, Top(limits));
  }

  /** In an empty directory that is everything written. */
  lemma EmptyDirectory(limits: Limits)
    ensures Existing(map[], limits) == FRESH
  {
    NothingFound(0, Top(limits));
  }

  lemma {:induction false} NothingFound(i: int, top: int)
    ensures Found(map[], i, top) == Trace([], map[])
    decreases top - i
  {
    if i <= top {
      NothingFound(i + 1, top);
    }
  }

  /** After a write that succeeds, the log is below its limit or holds that write alone, exactly unless a
      rollover was due and the log could not be renamed. */
  lemma LogWithinLimit(f: Files, p: string, limits: Limits, faults: set<Call>)
    requires SizeHolds(f) && limits.maxBytes > 0 && limits.backups > 0
    requires Written(f, p, |p|, limits, faults).open
    ensures var log := Written(f, p, |p|, limits, faults).disk[0];
            |log| < limits.maxBytes || log == p <==>
            !(RolloverDue(if f.open then f else Opened(f, 0, faults), p, limits) && Rename(0) in faults)
  {
    hide Rolled;
    var a := if f.open then f else Opened(f, 0, faults);
    RolledLog(a.disk, limits.backups, faults);
    assert p[..|p|] == p;
  }

  function LogOf(disk: map<int, string>): string {
    if 0 in disk then disk[0] else ""
  }

  /** The write would take the log to its limit, and there is something in it to keep apart. */
  predicate Full(disk: map<int, string>, p: string, limits: Limits) {
    limits.maxBytes > 0 && limits.backups > 0 && LogOf(disk) != "" && |LogOf(disk)| + |p| >= limits.maxBytes
  }

  /** While the log is not full a write appends to it and touches nothing else, whatever fails.  When it is,
      and nothing fails, the log as it was becomes backup 1, every backup moves up by one as far as there
      is room, and the write alone is the new log. */
  lemma RollsExactlyWhenFull(f: Files, p: string, accepted: nat, limits: Limits, faults: set<Call>)
    requires SizeHolds(f) && accepted <= |p|
    ensures var g := Written(f, p, accepted, limits, faults);
            && (!Full(f.disk, p, limits) && g.open ==> g.disk == f.disk[0 := LogOf(f.disk) + p[..accepted]])
            && (Full(f.disk, p, limits) && faults == {} ==>
                  && LogOf(g.disk) == p[..accepted] && LogOf(f.disk) == (if 1 in g.disk then g.disk[1] else "")
                  && forall i :: 1 <= i < limits.backups && i in f.disk ==> i + 1 in g.disk && g.disk[i + 1] == f.disk[i])
  {
    hide Rolled;
    if Full(f.disk, p, limits) && faults == {} {
      var a := if f.open then f else Opened(f, 0, faults);
      RolledMoves(a.disk, limits.backups, faults);
      RolledUp(a.disk, limits.backups);
    }
  }

  lemma RolledUp(disk: map<int, string>, backups: int)
    requires 0 < backups && RolledFrom(disk, Rolled(disk, backups, {}), backups, {}) && 0 in disk
    ensures var after := Rolled(disk, backups, {});
            0 !in after && forall i :: 0 <= i < backups && i in disk ==> i + 1 in after && after[i + 1] == disk[i]
  {
    hide Rolled;
    var after := Rolled(disk, backups, {});
    assert Moves(disk, 0, backups, {});
    forall i | 0 <= i < backups && i in disk ensures i + 1 in after && after[i + 1] == disk[i] {
      assert Moves(disk, i + 1 - 1, backups, {});
      assert i + 1 in after && Origin(disk, i + 1, backups, {}) == i;
    }
  }

  lemma RolledLog(disk: map<int, string>, backups: int, faults: set<Call>)
    requires 0 < backups
    ensures var after := Rolled(disk, backups, faults);
            (0 in after <==> 0 in disk && Rename(0) in faults) && (0 in after ==> after[0] == disk[0])
  {
    hide Rolled;
    RolledMoves(disk, backups, faults);
  }

  /** One failed rename of the first backup, with an older one behind it, loses what was written between
      them: that backup is removed to make room for the log. */
  lemma FailedRenameLosesTheMiddle(disk: map<int, string>, t: Trace, limits: Limits)
    requires TraceHolds(disk, t, limits) && limits.backups > 2
    requires {0, 1, 2} <= t.spans.Keys && t.spans[1].lo < t.spans[1].hi && t.spans[2].lo < t.spans[2].hi
    ensures !NoGaps(t.(spans := Rolled(t.spans, limits.backups, {Rename(1)})))
  {
    hide Rolled, NoGaps, Concat;
    RollLeavesGap(disk, t, limits, {Rename(1)}, 1, 2);
  }

  /** A write of one byte that rolls over a log of one byte, with room for two. */
  lemma OneByteRoll(s: Logged, p: string, faults: set<Call>)
    requires s.files.open && s.files.size == 1 && |p| == 1 && 0 in s.files.disk && 0 in s.trace.spans
    requires Rename(0) !in faults && Open(1) !in faults
    ensures var t := Step(s, Write(p, 1, faults), Limits(2, 3));
            && t.files == Files(Rolled(s.files.disk, 3, faults)[0 := p], true, 1)
            && t.trace == Trace(s.trace.history + [p],
                                Rolled(s.trace.spans, 3, faults)[0 := Span(|s.trace.history|, |s.trace.history| + 1)])
  {
    hide Rolled;
    RolledLog(s.files.disk, 3, faults);
    assert p[..1] == p && "" + p == p;
  }

  function FourWrites(faults: set<Call>): seq<Op> {
    [Write("a", 1, {}), Write("b", 1, {}), Write("c", 1, {}), Write("d", 1, faults)]
  }

  /** One such loss: after four writes of a byte each, with room for two bytes in the log, everything is
      there; if the rename of backup 1 fails during the last, the second write is gone and the first is
      not. */
  lemma SecondWriteLost()
    ensures var ops := FourWrites({Rename(1)});
            var s := Run(FRESH, ops[..3], Limits(2, 3));
            && {0, 1, 2} <= s.trace.spans.Keys
            && FilesFrom(s.files.disk, 3) == "abc"
            && FilesFrom(Step(s, ops[3], Limits(2, 3)).files.disk, 3) == "acd"
  {
    hide Step, Rolled, FilesFrom, Run;
    var ops := FourWrites({Rename(1)});
    ThreeWrites({Rename(1)});
    var s := Run(FRESH, ops[..3], Limits(2, 3));
    OneByteRoll(s, "d", {Rename(1)});
    RollThree(s.files.disk);
    FourFiles(s.files.disk);
    FourFiles(Step(s, ops[3], Limits(2, 3)).files.disk);
  }

  lemma ThreeWrites(faults: set<Call>)
    ensures Run(FRESH, FourWrites(faults)[..3], Limits(2, 3))
         == Logged(Files(map[2 := "a", 1 := "b", 0 := "c"], true, 1),
                   Trace(["a", "b", "c"], map[2 := Span(0, 1), 1 := Span(1, 2), 0 := Span(2, 3)]))
  {
    hide Step, Rolled, Run;
    var limits := Limits(2, 3);
    var ops := FourWrites(faults);
    FirstWrite();
    var s1 := Step(FRESH, ops[0], limits);
    OneByteRoll(s1, "b", {});
    RollOne(s1.files.disk);
    RollOne(s1.trace.spans);
    var s2 := Step(s1, ops[1], limits);
    OneByteRoll(s2, "c", {});
    RollTwo(s2.files.disk);
    RollTwo(s2.trace.spans);
    RunThree(FRESH, ops[0], ops[1], ops[2], limits);
    assert ops[..3] == [ops[0], ops[1], ops[2]];
  }

  lemma FirstWrite()
    ensures Step(FRESH, Write("a", 1, {}), Limits(2, 3))
         == Logged(Files(map[0 := "a"], true, 1), Trace(["a"], map[0 := Span(0, 1)]))
  {
    hide Rolled;
    assert "a"[..1] == "a";
    assert "" + "a"[..1] == "a";
    assert [] + ["a"[..1]] == ["a"];
    var log := Opened(FRESH.files, 0, {});
    assert log == Files(map[0 := ""], true, 0);
    assert Ready(FRESH.files, "a", Limits(2, 3), {}) == log;
    assert map[0 := ""][0 := "a"] == map[0 := "a"];
    assert map[0 := Span(0, 0)][0 := Span(0, 1)] == map[0 := Span(0, 1)];
  }

  lemma RunThree(s: Logged, a: Op, b: Op, c: Op, limits: Limits)
    requires Possible(a) && Possible(b) && Possible(c)
    ensures Run(s, [a, b, c], limits) == Step(Step(Step(s, a, limits), b, limits), c, limits)
  {
    hide Step;
    assert [a, b, c][1..] == [b, c] && [b, c][1..] == [c] && [c][1..] == [];
    var s1 := Step(s, a, limits);
    assert Run(s, [a, b, c], limits) == Run(s1, [b, c], limits);
    var s2 := Step(s1, b, limits);
    assert Run(s1, [b, c], limits) == Run(s2, [c], limits);
    assert Run(s2, [c], limits) == Run(Step(s2, c, limits), [], limits);
  }

  lemma RollOne<T>(disk: map<int, T>)
    requires disk.Keys == {0}
    ensures Rolled(disk, 3, {}) == map[1 := disk[0]]
  {
    hide Rolled;
    RolledMoves(disk, 3, {});
    assert forall m :: Moves(disk, m, 3, {}) <==> m == 0;
    forall m ensures m in Rolled(disk, 3, {}) <==> m == 1 {
      assert Moves(disk, m - 1, 3, {}) <==> m == 1;
      assert !Stays(disk, m, 3, {});
    }
    assert Moves(disk, 1 - 1, 3, {}) && Origin(disk, 1, 3, {}) == 0;
  }

  lemma RollTwo<T>(disk: map<int, T>)
    requires disk.Keys == {0, 1}
    ensures Rolled(disk, 3, {}) == map[2 := disk[1], 1 := disk[0]]
  {
    hide Rolled;
    RolledMoves(disk, 3, {});
    assert forall m :: Moves(disk, m, 3, {}) <==> m in {0, 1};
    forall m ensures m in Rolled(disk, 3, {}) <==> m in {1, 2} {
      assert Moves(disk, m - 1, 3, {}) <==> m in {1, 2};
      assert !Stays(disk, m, 3, {});
    }
    assert Moves(disk, 1 - 1, 3, {}) && Origin(disk, 1, 3, {}) == 0;
    assert Moves(disk, 2 - 1, 3, {}) && Origin(disk, 2, 3, {}) == 1;
  }

  lemma RollThree<T>(disk: map<int, T>)
    requires disk.Keys == {0, 1, 2}
    ensures Rolled(disk, 3, {Rename(1)}) == map[3 := disk[2], 1 := disk[0]]
  {
    hide Rolled;
    var faults := {Rename(1)};
    RolledMoves(disk, 3, faults);
    assert forall m :: Moves(disk, m, 3, faults) <==> m in {0, 2};
    forall m ensures m in Rolled(disk, 3, faults) <==> m in {1, 3} {
      assert Moves(disk, m - 1, 3, faults) <==> m in {1, 3};
      assert !Stays(disk, m, 3, faults);
    }
    assert Moves(disk, 1 - 1, 3, faults) && Origin(disk, 1, 3, faults) == 0;
    assert Moves(disk, 3 - 1, 3, faults) && Origin(disk, 3, 3, faults) == 2;
  }

  lemma FourFiles(disk: map<int, string>)
    ensures FilesFrom(disk, 3) == (if 3 in disk then disk[3] else "") + (if 2 in disk then disk[2] else "")
                                  + (if 1 in disk then disk[1] else "") + (if 0 in disk then disk[0] else "")
  {
    assert FilesFrom(disk, 0) == (if 0 in disk then disk[0] else "");
    assert FilesFrom(disk, 1) == (if 1 in disk then disk[1] else "") + FilesFrom(disk, 0);
    assert FilesFrom(disk, 2) == (if 2 in disk then disk[2] else "") + FilesFrom(disk, 1);
  }
}

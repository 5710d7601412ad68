/**
  Crash safety of the state files (go/state/store.go).

  Each settings file is kept with a backup and a temporary file.  Renaming is atomic; writing and
  copying are not, so a file passes through a damaged state on the way to its new content.  Every
  operation is given the number of elementary effects it gets to perform before the power fails or an
  I/O error stops it.
  */
module Store {
  import opened Wrappers
  import opened Policy
  import opened Monitor
  import StateFile

  /** A file: absent, holding a document its loader accepts, or anything else. */
  datatype File<+C> = Missing | Good(v: C) | Damaged

  /** A managed file with its .bak and .tmp. */
  datatype Trio<+C> = Trio(main: File<C>, bak: File<C>, tmp: File<C>)

  // ------------------------------------------------------------------------------------------
  // Effects, one by one
  // ------------------------------------------------------------------------------------------

  /** The states writeJSON passes through: keep a valid current file as the backup, write the
      temporary file, rename it over the current one. */
  function WriteStates<C>(t: Trio<C>, v: C): (states: seq<Trio<C>>)
    ensures |states| == WriteSteps(t) + 1 && states[0] == t
    ensures states[|states| - 1] == Trio(Good(v), if t.main.Good? then t.main else t.bak, Missing)
  {
    var kept := if t.main.Good? then t.(bak := t.main) else t;
    (if t.main.Good? then [t, t.(bak := Damaged)] else [])
    + [kept, kept.(tmp := Damaged), kept.(tmp := Good(v)), kept.(main := Good(v), tmp := Missing)]
  }

  function WriteSteps<C>(t: Trio<C>): nat {
    if t.main.Good? then 5 else 3
  }

  /** The state after at most `power` effects of a write. */
  function AfterWrite<C>(t: Trio<C>, v: C, power: nat): Trio<C> {
    WriteStates(t, v)[if power < WriteSteps(t) then power else WriteSteps(t)]
  }

  /** How copying a backup back ends: done, refused, or broken off with the file damaged. */
  datatype Restore = Restored | Untouched | Torn

  /** What fails while a file is read without the power failing: moving it or its backup aside, and
      copying the backup back.  The source logs these and goes on. */
  datatype ReadFaults = ReadFaults(keepsMain: bool, keepsBak: bool, restore: Restore)

  /** The states readValidated passes through: a damaged file is set aside, a good backup is copied
      back, a damaged backup is set aside too. */
  function LoadStates<C>(t: Trio<C>, x: ReadFaults): (states: seq<Trio<C>>)
    ensures states != [] && states[0] == t
  {
    if t.main.Good? then [t]
    else
      var moves := t.main.Damaged? && !x.keepsMain;
      var aside := if moves then t.(main := Missing) else t;
      (if moves then [t] else [])
      + [aside]
      + match t.bak
        case Missing => []
        case Damaged => if x.keepsBak then [] else [aside.(bak := Missing)]
        case Good(v) =>
          match x.restore
          case Restored => [aside.(main := Damaged), aside.(main := Good(v))]
          case Untouched => []
          case Torn => [aside.(main := Damaged)]
  }

  function LoadSteps<C>(t: Trio<C>, x: ReadFaults): nat {
    |LoadStates(t, x)| - 1
  }

  function AfterLoad<C>(t: Trio<C>, x: ReadFaults, power: nat): Trio<C> {
    LoadStates(t, x)[if power < LoadSteps(t, x) then power else LoadSteps(t, x)]
  }

  /** What a completed load returns: the file, else its backup, else nothing. */
  function LoadedValue<C>(t: Trio<C>): Option<C> {
    if t.main.Good? then Some(t.main.v) else if t.bak.Good? then Some(t.bak.v) else None
  }

  // ------------------------------------------------------------------------------------------
  // The store
  // ------------------------------------------------------------------------------------------

  /** A file with its companions on disk.  The methods consume `power`, one unit an effect; `ok` is
      false when it ran out. */
  class ManagedFile<C> {
    var main: File<C>
    var bak: File<C>
    var tmp: File<C>

    constructor (t: Trio<C>)
      ensures View() == t
    {
      main, bak, tmp := t.main, t.bak, t.tmp;
    }

    function View(): Trio<C>
      reads this
    {
      Trio(main, bak, tmp)
    }

    /** copyFile to the backup: torn, then whole. */
    method KeepBackup(power: nat) returns (ok: bool, left: nat)
      requires main.Good?
      modifies this`bak
      ensures ok <==> power >= 2
      ensures left == if ok then power - 2 else 0
      ensures bak == if power == 0 then old(bak) else if power == 1 then Damaged else main
    {
      if power == 0 {
        return false, 0;
      }
      bak := Damaged;
      if power == 1 {
        return false, 0;
      }
      bak := main;
      return true, power - 2;
    }

    method WriteJson(v: C, power: nat) returns (ok: bool, left: nat)
      modifies this
      ensures View() == AfterWrite(old(View()), v, power)
      ensures ok <==> power >= WriteSteps(old(View()))
      ensures left == if ok then power - WriteSteps(old(View())) else 0
    {
      left := power;
      if main.Good? {
        ok, left := KeepBackup(left);
        if !ok {
          return;
        }
      }
      if left == 0 {
        return false, 0;
      }
      tmp := Damaged;
      if left == 1 {
        return false, 0;
      }
      tmp := Good(v);
      if left == 2 {
        return false, 0;
      }
      main, tmp := Good(v), Missing;
      return true, left - 3;
    }

    method ReadValidated(power: nat, x: ReadFaults) returns (ok: bool, left: nat, value: Option<C>)
      modifies this
      ensures View() == AfterLoad(old(View()), x, power)
      ensures ok <==> power >= LoadSteps(old(View()), x)
      ensures left == if ok then power - LoadSteps(old(View()), x) else 0
      ensures ok ==> value == LoadedValue(old(View()))
    {
      left, value := power, None;
      if main.Good? {
        return true, left, Some(main.v);
      }
      if main.Damaged? && !x.keepsMain {
        if left == 0 {
          return false, 0, None;
        }
        main, left := Missing, left - 1;
      }
      match bak {
        case Missing =>
          return true, left, None;
        case Damaged =>
          if x.keepsBak {
            return true, left, None;
          }
          if left == 0 {
            return false, 0, None;
          }
          bak := Missing;
          return true, left - 1, None;
        case Good(v) =>
          ok, left := RestoreBackup(left, v, x.restore);
          return ok, left, if ok then Some(v) else None;
      }
    }

    /** copyFile back from the backup, which may also fail on its own. */
    method RestoreBackup(power: nat, v: C, x: Restore) returns (ok: bool, left: nat)
      modifies this`main
      ensures ok <==> power >= RestoreSteps(x)
      ensures left == if ok then power - RestoreSteps(x) else 0
      ensures main == if x.Untouched? || power == 0 then old(main)
                      else if x.Restored? && power >= 2 then Good(v)
                      else Damaged
    {
      if x.Untouched? {
        return true, power;
      }
      if power == 0 {
        return false, 0;
      }
      main := Damaged;
      if x.Torn? {
        return true, power - 1;
      }
      if power == 1 {
        return false, 0;
      }
      main := Good(v);
      return true, power - 2;
    }
  }

  function RestoreSteps(x: Restore): nat {
    match x
    case Restored => 2
    case Untouched => 0
    case Torn => 1
  }

  datatype Files = Files(daily: Trio<Daily>, state: Trio<Runtime>)

  /** What Save writes as runtime state: stamped with the time of the save, as a file holds it. */
  function Saved(r: Runtime, now: Moment): Runtime {
    StateFile.Stored(r.(stamp := now))
  }

  function AfterSave(f: Files, d: Daily, r: Runtime, now: Moment, power: nat): Files {
    var steps := WriteSteps(f.daily);
    Files(AfterWrite(f.daily, d, power),
          if power >= steps then AfterWrite(f.state, Saved(r, now), power - steps) else f.state)
  }

  predicate SaveCompletes(f: Files, power: nat) {
    power >= WriteSteps(f.daily) + WriteSteps(f.state)
  }

  /** What a load meets: failures around either file, and what is derived from the legacy file, the
      installer's settings or the defaults, in case it is needed. */
  datatype LoadInputs = LoadInputs(daily: ReadFaults, state: ReadFaults, derived: Daily, legacy: Option<Runtime>)

  /** The settings and runtime a load settles on. */
  function SettledDaily(f: Files, x: LoadInputs): Daily {
    if LoadedValue(f.daily).Some? then LoadedValue(f.daily).value else x.derived
  }

  /** A runtime that goes with derived settings is stamped, as it is about to be saved. */
  function SettledRuntime(f: Files, x: LoadInputs, now: Moment): Runtime {
    if LoadedValue(f.state).Some? then LoadedValue(f.state).value
    else if LoadedValue(f.daily).Some? then FreshRuntime(now)
    else (if x.legacy.Some? then x.legacy.value else FreshRuntime(now)).(stamp := now)
  }

  function ReadSteps(f: Files, x: LoadInputs): nat {
    LoadSteps(f.daily, x.daily) + LoadSteps(f.state, x.state)
  }

  /** Reading both files. */
  function AfterReads(f: Files, x: LoadInputs, power: nat): Files {
    var steps := LoadSteps(f.daily, x.daily);
    Files(AfterLoad(f.daily, x.daily, power), if power >= steps then AfterLoad(f.state, x.state, power - steps) else f.state)
  }

  /** Reading both files and, if the settings had to be derived, saving what was settled on. */
  function AfterLoadBoth(f: Files, x: LoadInputs, now: Moment, power: nat): Files {
    var g := AfterReads(f, x, power);
    if LoadedValue(f.daily).Some? || power < ReadSteps(f, x) then g
    else
      var left := power - ReadSteps(f, x);
      var steps := WriteSteps(g.daily);
      Files(AfterWrite(g.daily, x.derived, left),
            if LoadedValue(f.state).None? && left >= steps then
              AfterWrite(g.state, StateFile.Stored(SettledRuntime(f, x, now)), left - steps)
            else g.state)
  }

  predicate LoadCompletes(f: Files, x: LoadInputs, power: nat) {
    var g := AfterReads(f, x, power);
    power >= ReadSteps(f, x)
             + if LoadedValue(f.daily).Some? then 0
               else WriteSteps(g.daily) + if LoadedValue(f.state).Some? then 0 else WriteSteps(g.state)
  }

  class StateStore {
    const daily: ManagedFile<Daily>
    const state: ManagedFile<Runtime>

    constructor (f: Files)
      ensures View() == f && fresh(daily) && fresh(state)
    {
      daily := new ManagedFile(f.daily);
      state := new ManagedFile(f.state);
    }

    function View(): Files
      reads daily, state
    {
      Files(daily.View(), state.View())
    }

    method Save(d: Daily, r: Runtime, now: Moment, power: nat) returns (ok: bool)
      modifies daily, state
      ensures View() == AfterSave(old(View()), d, r, now, power)
      ensures ok <==> SaveCompletes(old(View()), power)
    {
      ghost var before := state.View();
      var left;
      ok, left := daily.WriteJson(d, power);
      assert state.View() == before;
      if !ok {
        return;
      }
      ghost var written := daily.View();
      ok, left := state.WriteJson(Saved(r, now), left);
      assert daily.View() == written;
    }

    method Load(now: Moment, power: nat, x: LoadInputs) returns (ok: bool, d: Daily, r: Runtime)
      modifies daily, state
      ensures View() == AfterLoadBoth(old(View()), x, now, power)
      ensures ok <==> LoadCompletes(old(View()), x, power)
      ensures ok ==> d == SettledDaily(old(View()), x)
      ensures ok ==> r == ResetIfNeeded(SettledRuntime(old(View()), x, now), d.wake, now)
    {
      hide LoadStates, WriteStates, AfterWrite, AfterLoad, WriteSteps;
      ghost var before := state.View();
      var left, loadedDaily, loadedRuntime;
      d, r := x.derived, FreshRuntime(now);
      ok, left, loadedDaily := daily.ReadValidated(power, x.daily);
      assert state.View() == before;
      if !ok {
        return;
      }
      ghost var read := daily.View();
      ok, left, loadedRuntime := state.ReadValidated(left, x.state);
      assert daily.View() == read;
      if !ok {
        return;
      }
      if loadedDaily.Some? {
        d := loadedDaily.value;
      } else if loadedRuntime.None? && x.legacy.Some? {
        r := x.legacy.value;
      }
      if loadedRuntime.Some? {
        r := loadedRuntime.value;
      }
      if loadedDaily.None? {
        before := state.View();
        ok, left := daily.WriteJson(d, left);
        assert state.View() == before;
        if !ok {
          return;
        }
        if loadedRuntime.None? {
          read := daily.View();
          r := r.(stamp := now);
          ok, left := state.WriteJson(StateFile.Stored(r), left);
          assert daily.View() == read;
        }
      }
      r := ResetIfNeeded(r, d.wake, now);
    }
  }

  // ------------------------------------------------------------------------------------------
  // One file, under any crashes
  // ------------------------------------------------------------------------------------------

  /** The file or its backup validates, so a load needs no defaults. */
  predicate Recoverable<C>(t: Trio<C>) {
    t.main.Good? || t.bak.Good?
  }

  lemma WriteRecoverable<C>(t: Trio<C>, v: C, power: nat)
    requires Recoverable(t)
    ensures Recoverable(AfterWrite(t, v, power))
    ensures t.main.Good? ==>
              AfterWrite(t, v, power).main == if power >= WriteSteps(t) then Good(v) else t.main
  {}

  lemma LoadRecoverable<C>(t: Trio<C>, x: ReadFaults, power: nat)
    requires Recoverable(t)
    ensures Recoverable(AfterLoad(t, x, power))
    ensures LoadedValue(AfterLoad(t, x, power)) == LoadedValue(t)
    ensures t.main.Good? ==> AfterLoad(t, x, power) == t
    ensures power >= 3 && x.restore.Restored? ==> AfterLoad(t, x, power).main == Good(LoadedValue(t).value)
  {}

  /** A completed load, if nothing fails on its own, leaves nothing damaged where it looked: what can be
      restored is restored, and what cannot is set aside. */
  lemma LoadSetsAside<C>(t: Trio<C>, x: ReadFaults, power: nat)
    requires !x.keepsMain && !x.keepsBak && x.restore.Restored? && power >= LoadSteps(t, x)
    ensures var after := AfterLoad(t, x, power);
            && after.tmp == t.tmp
            && (if Recoverable(t) then after.main == Good(LoadedValue(t).value) else after.main.Missing? && after.bak.Missing?)
            && (t.main.Good? || !after.bak.Damaged?) && (t.bak.Good? ==> after.bak == t.bak)
  {}

  // ------------------------------------------------------------------------------------------
  // Both files, over whole histories
  // ------------------------------------------------------------------------------------------

  /** Saves and loads, each cut off after some effects; and, from outside, damage to a file. */
  datatype Op =
    | SaveOp(d: Daily, r: Runtime, now: Moment, power: nat)
    | LoadOp(x: LoadInputs, now: Moment, power: nat)
    | DailyLost(deleted: bool)
    | StateLost(deleted: bool)

  function Lost<C>(t: Trio<C>, deleted: bool): Trio<C> {
    t.(main := if deleted then Missing else Damaged)
  }

  function Do(f: Files, op: Op): Files {
    match op
    case SaveOp(d, r, now, power) => AfterSave(f, d, r, now, power)
    case LoadOp(x, now, power) => AfterLoadBoth(f, x, now, power)
    case DailyLost(deleted) => f.(daily := Lost(f.daily, deleted))
    case StateLost(deleted) => f.(state := Lost(f.state, deleted))
  }

  function DoAll(f: Files, ops: seq<Op>): Files
    decreases |ops|
  {
    if ops == [] then f else DoAll(Do(f, ops[0]), ops[1..])
  }

  /** Outside damage strikes only where the backup is whole. */
  predicate Spared(f: Files, ops: seq<Op>)
    decreases |ops|
  {
    ops == []
    || ((ops[0].DailyLost? ==> f.daily.bak.Good?) && (ops[0].StateLost? ==> f.state.bak.Good?)
        && Spared(Do(f, ops[0]), ops[1..]))
  }

  predicate BothRecoverable(f: Files) {
    Recoverable(f.daily) && Recoverable(f.state)
  }

  /** Loading recoverable files writes nothing but what reading restores. */
  lemma ReadsRecoverable(f: Files, x: LoadInputs, power: nat)
    requires BothRecoverable(f)
    ensures BothRecoverable(AfterReads(f, x, power))
    ensures forall now :: AfterLoadBoth(f, x, now, power) == AfterReads(f, x, power)
    ensures f.daily.main.Good? && f.state.main.Good? ==> AfterReads(f, x, power) == f
  {
    hide AfterLoad, LoadStates;
    LoadRecoverable(f.daily, x.daily, power);
    if power >= LoadSteps(f.daily, x.daily) {
      LoadRecoverable(f.state, x.state, power - LoadSteps(f.daily, x.daily));
    }
  }

  /** A completed save makes both files recoverable, whatever was there before, and loads back. */
  lemma SaveMakesRecoverable(f: Files, d: Daily, r: Runtime, now: Moment, power: nat)
    requires SaveCompletes(f, power)
    ensures var after := AfterSave(f, d, r, now, power);
            && BothRecoverable(after) && Holding(after, Expected(d, Saved(r, now)))
  {}

  /** So does a completed load that had to derive settings, and in every case a load right after
      settles on the same settings. */
  lemma LoadSettles(f: Files, x: LoadInputs, now: Moment, power: nat, again: LoadInputs)
    requires LoadCompletes(f, x, power)
    ensures var after := AfterLoadBoth(f, x, now, power);
            && Recoverable(after.daily) && SettledDaily(after, again) == SettledDaily(f, x)
            && (LoadedValue(f.daily).None? ==> BothRecoverable(after))
            && (LoadedValue(f.state).Some? ==> LoadedValue(after.state) == LoadedValue(f.state))
            && (LoadedValue(f.daily).None? && LoadedValue(f.state).None? ==>
                  && LoadedValue(after.daily) == Some(x.derived)
                  && LoadedValue(after.state) == Some(Saved(if x.legacy.Some? then x.legacy.value else FreshRuntime(now), now)))
  {
    hide WriteStates;
    if LoadedValue(f.daily).Some? {
      LoadRecoverable(f.daily, x.daily, power);
    }
    if LoadedValue(f.state).Some? {
      LoadRecoverable(f.state, x.state, power - LoadSteps(f.daily, x.daily));
    }
  }

  /** Once both files were saved, no sequence of cut-off saves and loads, nor the loss of a file whose
      backup is whole, ever makes a load fall back to defaults. */
  lemma {:induction false} NeverDefaults(f: Files, ops: seq<Op>)
    requires BothRecoverable(f) && Spared(f, ops)
    ensures BothRecoverable(DoAll(f, ops))
    ensures LoadedValue(DoAll(f, ops).daily).Some? && LoadedValue(DoAll(f, ops).state).Some?
    decreases |ops|
  {
    hide AfterWrite, AfterLoad;
    if ops != [] {
      match ops[0] {
        case SaveOp(d, r, now, power) =>
          WriteRecoverable(f.daily, d, power);
          if power >= WriteSteps(f.daily) {
            WriteRecoverable(f.state, Saved(r, now), power - WriteSteps(f.daily));
          }
        case LoadOp(x, now, power) =>
          ReadsRecoverable(f, x, power);
        case DailyLost(_) =>
        case StateLost(_) =>
      }
      NeverDefaults(Do(f, ops[0]), ops[1..]);
    }
  }

  /** The values the history should leave behind: those of the last save whose rename was reached. */
  datatype Expected = Expected(daily: Daily, state: Runtime)

  function Update(x: Expected, f: Files, op: Op): Expected {
    if !op.SaveOp? then x
    else
      Expected(
        if op.power >= WriteSteps(f.daily) then op.d else x.daily,
        if SaveCompletes(f, op.power) then Saved(op.r, op.now) else x.state)
  }

  function UpdateAll(x: Expected, f: Files, ops: seq<Op>): Expected
    decreases |ops|
  {
    if ops == [] then x else UpdateAll(Update(x, f, ops[0]), Do(f, ops[0]), ops[1..])
  }

  predicate NoDamage(ops: seq<Op>) {
    forall i :: 0 <= i < |ops| ==> ops[i].SaveOp? || ops[i].LoadOp?
  }

  predicate Holding(f: Files, x: Expected) {
    f.daily.main == Good(x.daily) && f.state.main == Good(x.state)
  }

  /** Without outside damage the files always hold whole values: each that of the last completed save
      or of the one in progress, whatever the interruptions. */
  lemma {:induction false} LoadsLastSave(f: Files, x: Expected, ops: seq<Op>)
    requires Holding(f, x) && NoDamage(ops)
    ensures var after, expected := DoAll(f, ops), UpdateAll(x, f, ops);
            && Holding(after, expected)
            && LoadedValue(after.daily) == Some(expected.daily)
            && LoadedValue(after.state) == Some(expected.state)
            && (forall x :: SettledDaily(after, x) == expected.daily)
            && (forall x, now :: SettledRuntime(after, x, now) == expected.state)
    decreases |ops|
  {
    hide AfterWrite, AfterLoad;
    if ops != [] {
      assert ops[0].SaveOp? || ops[0].LoadOp?;
      assert forall i :: 0 <= i < |ops[1..]| ==> ops[1..][i] == ops[i + 1];
      if ops[0].SaveOp? {
        var steps := WriteSteps(f.daily);
        WriteRecoverable(f.daily, ops[0].d, ops[0].power);
        if ops[0].power >= steps {
          WriteRecoverable(f.state, Saved(ops[0].r, ops[0].now), ops[0].power - steps);
        }
      } else {
        ReadsRecoverable(f, ops[0].x, ops[0].power);
      }
      LoadsLastSave(Do(f, ops[0]), Update(x, f, ops[0]), ops[1..]);
    }
  }

  /** Losing a file after a completed save costs exactly that save: the backup is the value before. */
  lemma LosingAFileCostsOneSave(f: Files, x: Expected, d: Daily, r: Runtime, now: Moment, power: nat, deleted: bool)
    requires Holding(f, x) && SaveCompletes(f, power)
    ensures var after := Do(f, SaveOp(d, r, now, power));
            && Holding(after, Expected(d, Saved(r, now)))
            && LoadedValue(Do(after, DailyLost(deleted)).daily) == Some(x.daily)
            && LoadedValue(Do(after, StateLost(deleted)).state) == Some(x.state)
  {}

  /** From the first completed save on, whatever the files held before it: no sequence of cut-off saves
      and loads, nor the loss of a file whose backup is whole, makes a load fall back to defaults. */
  lemma FirstSaveIsEnough(f: Files, d: Daily, r: Runtime, now: Moment, power: nat, ops: seq<Op>)
    requires SaveCompletes(f, power) && Spared(Do(f, SaveOp(d, r, now, power)), ops)
    ensures var after := DoAll(Do(f, SaveOp(d, r, now, power)), ops);
            LoadedValue(after.daily).Some? && LoadedValue(after.state).Some?
  {
    hide AfterSave, DoAll, Spared;
    SaveMakesRecoverable(f, d, r, now, power);
    NeverDefaults(Do(f, SaveOp(d, r, now, power)), ops);
  }
}

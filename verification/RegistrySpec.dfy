/**
 The cron registry as a sequence of whole calls (contract/cronreg/registry.go and
 contract/cronreg/pause_store_gorm.go): what each call does to the entries and to the persisted
 pause rows, and what follows for every history of calls and for a restart.

 The outcome of each database access and the time each call reads are part of the call.
 */
module RegistrySpec {
  import opened Wrappers

  type Time = int

  /** Go's zero time (1 January of year 1), in nanoseconds relative to the Unix epoch. */
  const ZERO_TIME: Time := -62135596800_000_000_000

  datatype EntryState = EntryState(
    name: string,
    service: string,
    description: string,
    interval: int,
    startedAt: Option<Time>,
    finishedAt: Option<Time>,
    error: string,
    next: Time,
    paused: bool,
    running: bool,
    pausedBy: int,
    pausedAt: Option<Time>,
    runCount: int,
    errorCount: int,
    signal: bool)

  /** One row of cron_pause_state. */
  datatype Row = Row(paused: bool, pausedBy: int, pausedAt: Option<Time>)

  /** A registry and its pause store; `store` is None for an in-memory registry. */
  datatype System = System(service: string, entries: map<string, EntryState>, store: Option<map<string, Row>>)

  datatype Call =
    | Register(name: string, description: string, interval: int, now: Time, loadOk: bool)
    | BeginRun(name: string, now: Time)
    | EndRun(name: string, err: Option<string>, now: Time)
    | Pause(name: string, employee: int, now: Time, saveOk: bool)
    | Resume(name: string, saveOk: bool)
    | Trigger(name: string, force: bool)
    | Receive(name: string)

  // ---------- the calls ----------

  datatype PauseFields = PauseFields(paused: bool, pausedBy: int, pausedAt: Option<Time>)

  const UNPAUSED := PauseFields(false, 0, None)

  /** The pause fields Register takes over from a row. */
  function FromRow(row: Option<Row>): PauseFields {
    if row.Some? && row.value.paused
    then PauseFields(true, row.value.pausedBy,
                     Some(if row.value.pausedAt.Some? then row.value.pausedAt.value else ZERO_TIME))
    else UNPAUSED
  }

  function RowOf(s: System, name: string): Option<Row> {
    if s.store.Some? && name in s.store.value then Some(s.store.value[name]) else None
  }

  /** An entry that has never run and is not paused. */
  function BlankEntry(name: string, service: string, description: string, interval: int, now: Time): EntryState {
    EntryState(name, service, description, interval, None, None, "", now + interval,
               false, false, 0, None, 0, 0, false)
  }

  function NewEntry(s: System, name: string, description: string, interval: int, now: Time, loadOk: bool): EntryState {
    PauseIn(BlankEntry(name, s.service, description, interval, now),
            if loadOk then FromRow(RowOf(s, name)) else UNPAUSED)
  }

  /** BeginRun proceeds. */
  predicate Admits(e: EntryState) {
    !e.paused && !e.running
  }

  function Begun(e: EntryState, now: Time): EntryState {
    if Admits(e) then e.(running := true, startedAt := Some(now)) else e
  }

  function Ended(e: EntryState, err: Option<string>, now: Time): EntryState {
    e.(finishedAt := Some(now),
       error := (if err.Some? then err.value else ""),
       errorCount := e.errorCount + (if err.Some? then 1 else 0),
       runCount := e.runCount + 1,
       next := (if e.interval > 0 then now + e.interval else e.next),
       running := false)
  }

  function PauseIn(e: EntryState, p: PauseFields): EntryState {
    e.(paused := p.paused, pausedBy := p.pausedBy, pausedAt := p.pausedAt)
  }

  /** A trigger is accepted unless the cron is paused and the trigger is not forced. */
  predicate Accepts(e: EntryState, force: bool) {
    force || !e.paused
  }

  function Save(store: Option<map<string, Row>>, name: string, row: Row, ok: bool): Option<map<string, Row>> {
    if store.Some? && ok then Some(store.value[name := row]) else store
  }

  function Apply(s: System, c: Call): System {
    if c.Register? then
      if c.name in s.entries then s
      else s.(entries := s.entries[c.name := NewEntry(s, c.name, c.description, c.interval, c.now, c.loadOk)])
    else if c.name !in s.entries then s
    else
      var e := s.entries[c.name];
      match c
      case BeginRun(_, now) => s.(entries := s.entries[c.name := Begun(e, now)])
      case EndRun(_, err, now) => s.(entries := s.entries[c.name := Ended(e, err, now)])
      case Pause(_, employee, now, saveOk) =>
        s.(entries := s.entries[c.name := PauseIn(e, PauseFields(true, employee, Some(now)))],
           store := Save(s.store, c.name, Row(true, employee, Some(now)), saveOk))
      case Resume(_, saveOk) =>
        s.(entries := s.entries[c.name := PauseIn(e, UNPAUSED)],
           store := Save(s.store, c.name, Row(false, 0, None), saveOk))
      case Trigger(_, force) => s.(entries := s.entries[c.name := if Accepts(e, force) then e.(signal := true) else e])
      case Receive(_) => s.(entries := s.entries[c.name := e.(signal := false)])
  }

  function Run(s: System, calls: seq<Call>): System {
    if calls == [] then s else Apply(Run(s, calls[..|calls| - 1]), calls[|calls| - 1])
  }

  function NewRegistry(service: string, store: Option<map<string, Row>>): System {
    System(service, map[], store)
  }

  // ---------- non-interference ----------

  /** Everything the system holds about one cron. */
  datatype View = View(entry: Option<EntryState>, row: Option<Row>)

  function ViewOf(s: System, name: string): View {
    View(if name in s.entries then Some(s.entries[name]) else None, RowOf(s, name))
  }

  /** The calls of a history that name one cron. */
  function About(calls: seq<Call>, name: string): seq<Call> {
    if calls == [] then []
    else About(calls[..|calls| - 1], name) + (if calls[|calls| - 1].name == name then [calls[|calls| - 1]] else [])
  }

  /** Two systems that agree on a cron still agree on it after the same call. */
  lemma SameCall(s: System, u: System, c: Call, name: string)
    requires ViewOf(s, name) == ViewOf(u, name) && s.service == u.service && s.store.Some? == u.store.Some?
    ensures ViewOf(Apply(s, c), name) == ViewOf(Apply(u, c), name)
  {
  }

  lemma OtherCall(s: System, c: Call, name: string)
    requires c.name != name
    ensures ViewOf(Apply(s, c), name) == ViewOf(s, name)
  {
  }

  lemma {:induction false} Frame(s: System, calls: seq<Call>)
    ensures Run(s, calls).service == s.service && Run(s, calls).store.Some? == s.store.Some?
  {
    if calls != [] {
      Frame(s, calls[..|calls| - 1]);
    }
  }

  /**
   A cron's entry and persisted row depend on the calls that name it and on nothing else: dropping
   every other call from any history leaves both exactly as they were.
   */
  lemma {:induction false} NonInterference(s: System, calls: seq<Call>, name: string)
    ensures ViewOf(Run(s, calls), name) == ViewOf(Run(s, About(calls, name)), name)
  {
    if calls != [] {
      var pre, last := calls[..|calls| - 1], calls[|calls| - 1];
      NonInterference(s, pre, name);
      if last.name == name {
        var kept := About(pre, name);
        assert (kept + [last])[..|kept|] == kept;
        Frame(s, pre);
        Frame(s, kept);
        SameCall(Run(s, pre), Run(s, kept), last, name);
      } else {
        OtherCall(Run(s, pre), last, name);
        assert About(calls, name) == About(pre, name);
      }
    }
  }

  // ---------- registration ----------

  /** Some call of the history registered the name. */
  predicate Declared(calls: seq<Call>, name: string) {
    exists i :: 0 <= i < |calls| && calls[i].Register? && calls[i].name == name
  }

  lemma DeclaredSnoc(calls: seq<Call>, name: string)
    requires calls != []
    ensures Declared(calls, name)
      <==> Declared(calls[..|calls| - 1], name) || (calls[|calls| - 1].Register? && calls[|calls| - 1].name == name)
  {
    var pre := calls[..|calls| - 1];
    if Declared(pre, name) {
      var i :| 0 <= i < |pre| && pre[i].Register? && pre[i].name == name;
      assert calls[i].Register? && calls[i].name == name;
    }
    if Declared(calls, name) {
      var i :| 0 <= i < |calls| && calls[i].Register? && calls[i].name == name;
      assert i < |pre| ==> pre[i].Register? && pre[i].name == name;
    }
  }

  /** Exactly the declared names have an entry. */
  lemma {:induction false} EntriesAreDeclared(s: System, calls: seq<Call>, name: string)
    requires s.entries == map[]
    ensures name in Run(s, calls).entries <==> Declared(calls, name)
  {
    if calls != [] {
      EntriesAreDeclared(s, calls[..|calls| - 1], name);
      DeclaredSnoc(calls, name);
    }
  }

  /** What Register fixed: identity, interval and owning service. */
  predicate SameCron(e: EntryState, f: EntryState) {
    e.name == f.name && e.service == f.service && e.description == f.description && e.interval == f.interval
  }

  /** Entries are never dropped or replaced, whatever is registered again later. */
  lemma {:induction false} EntriesStay(s: System, calls: seq<Call>, name: string)
    requires name in s.entries
    ensures name in Run(s, calls).entries && SameCron(s.entries[name], Run(s, calls).entries[name])
    ensures s.entries[name].runCount <= Run(s, calls).entries[name].runCount
  {
    if calls != [] {
      EntriesStay(s, calls[..|calls| - 1], name);
    }
  }

  /** The call that first registered the name. */
  function FirstRegister(calls: seq<Call>, name: string): Option<Call> {
    if calls == [] then None
    else
      var pre, last := calls[..|calls| - 1], calls[|calls| - 1];
      match FirstRegister(pre, name)
      case Some(c) => Some(c)
      case None => if last.Register? && last.name == name then Some(last) else None
  }

  /** After every history a cron has its own name, the registry's service, and the description and interval it was first registered with. */
  lemma {:induction false} IdentityIsFirst(s: System, calls: seq<Call>, name: string)
    requires s.entries == map[]
    ensures FirstRegister(calls, name).Some? <==> name in Run(s, calls).entries
    ensures name in Run(s, calls).entries ==>
      var e, first := Run(s, calls).entries[name], FirstRegister(calls, name).value;
      && first.Register? && e.name == name && e.service == s.service
      && e.description == first.description && e.interval == first.interval
  {
    if calls != [] {
      IdentityIsFirst(s, calls[..|calls| - 1], name);
      Frame(s, calls[..|calls| - 1]);
    }
  }

  // ---------- restart ----------

  function PauseOf(e: EntryState): PauseFields {
    PauseFields(e.paused, e.pausedBy, e.pausedAt)
  }

  /** The row left by the last successful Save for a cron, read off the history alone. */
  function LastSaved(calls: seq<Call>, init: Option<Row>, name: string): Option<Row> {
    if calls == [] then init
    else
      var pre, last := calls[..|calls| - 1], calls[|calls| - 1];
      if last.name != name || !Declared(pre, name) then LastSaved(pre, init, name)
      else match last
        case Pause(_, employee, now, true) => Some(Row(true, employee, Some(now)))
        case Resume(_, true) => Some(Row(false, 0, None))
        case _ => LastSaved(pre, init, name)
  }

  lemma {:induction false} RowIsLastSaved(service: string, rows: map<string, Row>, calls: seq<Call>, name: string)
    ensures var s := NewRegistry(service, Some(rows));
      RowOf(Run(s, calls), name) == LastSaved(calls, RowOf(s, name), name)
  {
    var s := NewRegistry(service, Some(rows));
    if calls != [] {
      var pre := calls[..|calls| - 1];
      RowIsLastSaved(service, rows, pre, name);
      EntriesAreDeclared(s, pre, name);
      Frame(s, pre);
    }
  }

  /**
   Restart: whatever calls were made and whichever saves failed, registering the name in a new
   registry over the same store restores the pause fields of the last successful save.
   */
  lemma RestartRestores(service: string, rows: map<string, Row>, calls: seq<Call>, again: Call)
    requires again.Register? && again.loadOk
    ensures var before := Run(NewRegistry(service, Some(rows)), calls);
      var after := Apply(NewRegistry(service, before.store), again);
      && again.name in after.entries
      && PauseOf(after.entries[again.name])
         == FromRow(LastSaved(calls, RowOf(NewRegistry(service, Some(rows)), again.name), again.name))
  {
    RowIsLastSaved(service, rows, calls, again.name);
    Frame(NewRegistry(service, Some(rows)), calls);
  }

  /** The pause fields the last Register, Pause or Resume of a cron put in memory, read off the history alone. */
  function LastSet(calls: seq<Call>, init: Option<Row>, name: string): PauseFields {
    if calls == [] then UNPAUSED
    else
      var pre, last := calls[..|calls| - 1], calls[|calls| - 1];
      if last.name != name then LastSet(pre, init, name)
      else if !Declared(pre, name) then
        if last.Register? && last.loadOk then FromRow(LastSaved(pre, init, name)) else UNPAUSED
      else match last
        case Pause(_, employee, now, _) => PauseFields(true, employee, Some(now))
        case Resume(_, _) => UNPAUSED
        case _ => LastSet(pre, init, name)
  }

  /** After every history, with whatever failures, memory holds what was set last. */
  lemma {:induction false} MemoryIsLastSet(service: string, rows: map<string, Row>, calls: seq<Call>, name: string)
    requires Declared(calls, name)
    ensures var s := NewRegistry(service, Some(rows));
      && name in Run(s, calls).entries
      && PauseOf(Run(s, calls).entries[name]) == LastSet(calls, RowOf(s, name), name)
  {
    var s := NewRegistry(service, Some(rows));
    var pre, last := calls[..|calls| - 1], calls[|calls| - 1];
    EntriesAreDeclared(s, pre, name);
    EntriesAreDeclared(s, calls, name);
    DeclaredSnoc(calls, name);
    Frame(s, pre);
    if Declared(pre, name) {
      MemoryIsLastSet(service, rows, pre, name);
    } else {
      RowIsLastSaved(service, rows, pre, name);
    }
  }

  /** A restart changes no pause field exactly when what was set last is what was saved last. */
  lemma RestartExactly(service: string, rows: map<string, Row>, calls: seq<Call>, again: Call)
    requires again.Register? && Declared(calls, again.name)
    ensures var start := NewRegistry(service, Some(rows));
      var before, init := Run(start, calls), RowOf(start, again.name);
      var after := Apply(NewRegistry(service, before.store), again);
      && again.name in before.entries && again.name in after.entries
      && (PauseOf(after.entries[again.name]) == PauseOf(before.entries[again.name])
          <==> LastSet(calls, init, again.name)
               == if again.loadOk then FromRow(LastSaved(calls, init, again.name)) else UNPAUSED)
  {
    MemoryIsLastSet(service, rows, calls, again.name);
    RowIsLastSaved(service, rows, calls, again.name);
    Frame(NewRegistry(service, Some(rows)), calls);
  }

  /** The last call that touched a cron's pause fields reached the database. */
  predicate InStep(calls: seq<Call>, name: string) {
    calls != [] &&
    var pre, last := calls[..|calls| - 1], calls[|calls| - 1];
    if last.name != name then InStep(pre, name)
    else match last
      case Register(_, _, _, _, loadOk) => if Declared(pre, name) then InStep(pre, name) else loadOk
      case Pause(_, _, _, saveOk) => Declared(pre, name) && saveOk
      case Resume(_, saveOk) => Declared(pre, name) && saveOk
      case _ => InStep(pre, name)
  }

  lemma {:induction false} InStepAgrees(service: string, rows: map<string, Row>, calls: seq<Call>, name: string)
    requires InStep(calls, name)
    ensures var s := Run(NewRegistry(service, Some(rows)), calls);
      name in s.entries && PauseOf(s.entries[name]) == FromRow(RowOf(s, name))
  {
    var s0 := NewRegistry(service, Some(rows));
    var pre, last := calls[..|calls| - 1], calls[|calls| - 1];
    Frame(s0, pre);
    EntriesAreDeclared(s0, pre, name);
    if InStep(pre, name) {
      InStepAgrees(service, rows, pre, name);
    }
    if last.name != name {
      OtherCall(Run(s0, pre), last, name);
    }
  }

  /** Restart round trip: if the last pause-changing call reached the database, a restart changes nothing. */
  lemma RestartRoundTrip(service: string, rows: map<string, Row>, calls: seq<Call>, again: Call)
    requires again.Register? && again.loadOk && InStep(calls, again.name)
    ensures var before := Run(NewRegistry(service, Some(rows)), calls);
      var after := Apply(NewRegistry(service, before.store), again);
      && again.name in before.entries && again.name in after.entries
      && PauseOf(after.entries[again.name]) == PauseOf(before.entries[again.name])
  {
    InStepAgrees(service, rows, calls, again.name);
    Frame(NewRegistry(service, Some(rows)), calls);
  }

  /** A failed save leaves memory ahead of the store: the pause is lost by a restart. */
  lemma FailedSaveIsLost(service: string, name: string, employee: int, now: Time)
    ensures var calls := [Register(name, "", 1, now, true), Pause(name, employee, now, false)];
      var before := Run(NewRegistry(service, Some(map[])), calls);
      var after := Apply(NewRegistry(service, before.store), Register(name, "", 1, now, true));
      && before.entries.Keys == {name} && before.entries[name].paused
      && after.entries.Keys == {name} && !after.entries[name].paused
  {
    var calls := [Register(name, "", 1, now, true), Pause(name, employee, now, false)];
    var s0 := NewRegistry(service, Some(map[]));
    assert calls[..1] == [Register(name, "", 1, now, true)];
    assert calls[..1][..0] == [];
    assert Run(s0, calls[..1]) == Apply(s0, calls[0]);
  }

  // ---------- pausing ----------

  /** No call of the history resumes the cron. */
  predicate NeverResumed(calls: seq<Call>, name: string) {
    forall i :: 0 <= i < |calls| ==> !(calls[i].Resume? && calls[i].name == name)
  }

  /**
   A paused cron that is not running stays so over every history without a Resume, however many
   triggers, forced or not, are accepted and received meanwhile.
   */
  lemma {:induction false} PausedNeverRuns(s: System, calls: seq<Call>, name: string)
    requires name in s.entries && s.entries[name].paused && !s.entries[name].running && NeverResumed(calls, name)
    ensures var t := Run(s, calls);
      && name in t.entries && t.entries[name].paused && !t.entries[name].running
      && t.entries[name].startedAt == s.entries[name].startedAt
  {
    if calls != [] {
      PausedNeverRuns(s, calls[..|calls| - 1], name);
    }
  }

  // ---------- triggers ----------

  /** Whether a signal waits for a cron, read off the history alone. */
  predicate PendingSignal(calls: seq<Call>, init: Option<Row>, name: string) {
    calls != [] &&
    var pre, last := calls[..|calls| - 1], calls[|calls| - 1];
    if last.name != name || !Declared(pre, name) then PendingSignal(pre, init, name)
    else match last
      case Trigger(_, force) => force || !LastSet(pre, init, name).paused || PendingSignal(pre, init, name)
      case Receive(_) => false
      case _ => PendingSignal(pre, init, name)
  }

  lemma {:induction false} NoSignalBefore(calls: seq<Call>, init: Option<Row>, name: string)
    requires !Declared(calls, name)
    ensures !PendingSignal(calls, init, name)
  {
    if calls != [] {
      DeclaredSnoc(calls, name);
      NoSignalBefore(calls[..|calls| - 1], init, name);
    }
  }

  /**
   After every history a signal waits for a cron exactly when, since the last receive, it was
   triggered by force or while the last Register, Pause or Resume had left it unpaused.
   */
  lemma {:induction false} SignalIsPending(service: string, rows: map<string, Row>, calls: seq<Call>, name: string)
    requires Declared(calls, name)
    ensures var s := NewRegistry(service, Some(rows));
      && name in Run(s, calls).entries
      && (Run(s, calls).entries[name].signal <==> PendingSignal(calls, RowOf(s, name), name))
  {
    var s := NewRegistry(service, Some(rows));
    var pre := calls[..|calls| - 1];
    EntriesAreDeclared(s, pre, name);
    EntriesAreDeclared(s, calls, name);
    DeclaredSnoc(calls, name);
    if Declared(pre, name) {
      SignalIsPending(service, rows, pre, name);
      MemoryIsLastSet(service, rows, pre, name);
    } else {
      NoSignalBefore(pre, RowOf(s, name), name);
    }
  }
}

/**
 The registry's objects: `Entry`, `PauseStore` and `Registry` of contract/cronreg, with the time
 pointers as mutable cells, so that identity and aliasing are visible. Every method is tied to the
 call of RegistrySpec it implements.
 */
module CronRegistry {
  import opened Wrappers
  import opened RegistrySpec

  /** The target of a *time.Time. */
  class TimeCell {
    var value: Time

    constructor (value: Time)
      ensures this.value == value
    {
      this.value := value;
    }
  }

  ghost function Deref(c: TimeCell?): Option<Time>
    reads c
  {
    if c == null then None else Some(c.value)
  }

  /** A copy of the pointed-to time, in a cell nobody else can reach. */
  method CopyTimePtr(t: TimeCell?) returns (c: TimeCell?)
    ensures Deref(c) == Deref(t)
    ensures c != null ==> fresh(c)
  {
    if t == null {
      c := null;
    } else {
      c := new TimeCell(t.value);
    }
  }

  datatype Loaded = Loaded(paused: bool, pausedBy: int, at: Time)

  datatype Failure = CronNotFound | CronPaused | StoreError

  /** GormPauseStore over the cron_pause_state table; `ok` says whether the database call succeeds. */
  class PauseStore {
    var rows: map<string, Row>

    constructor (rows: map<string, Row>)
      ensures this.rows == rows
    {
      this.rows := rows;
    }

    method Load(name: string, ok: bool) returns (r: Result<Loaded, Failure>)
      ensures r.Ok? == ok
      ensures ok && name !in rows ==> r.value == Loaded(false, 0, ZERO_TIME)
      ensures ok && name in rows ==>
        r.value == Loaded(rows[name].paused, rows[name].pausedBy,
                          if rows[name].pausedAt.Some? then rows[name].pausedAt.value else ZERO_TIME)
      ensures ok ==> FromRow(if name in rows then Some(rows[name]) else None)
                     == if r.value.paused then PauseFields(true, r.value.pausedBy, Some(r.value.at)) else UNPAUSED
    {
      if !ok {
        return Err(StoreError);
      }
      if name !in rows {
        return Ok(Loaded(false, 0, ZERO_TIME));
      }
      var row := rows[name];
      var at := ZERO_TIME;
      if row.pausedAt.Some? {
        at := row.pausedAt.value;
      }
      return Ok(Loaded(row.paused, row.pausedBy, at));
    }

    method Save(name: string, paused: bool, employee: int, at: Time, ok: bool) returns (r: Result<(), Failure>)
      modifies this
      ensures r == if ok then Ok(()) else Err(StoreError)
      ensures rows == if ok then old(rows)[name := Row(paused, employee, if paused then Some(at) else None)] else old(rows)
    {
      var pausedAt := Some(at);
      if !paused {
        pausedAt := None;
      }
      if !ok {
        return Err(StoreError);
      }
      rows := rows[name := Row(paused, employee, pausedAt)];
      return Ok(());
    }
  }

  /** The read-only view handed to callers. */
  datatype CronInfo = CronInfo(
    name: string,
    service: string,
    description: string,
    interval: int,
    startedAt: TimeCell?,
    finishedAt: TimeCell?,
    error: string,
    next: Time,
    paused: bool,
    pausedBy: int,
    pausedAt: TimeCell?,
    runCount: int,
    errorCount: int)
  {
    ghost function Cells(): set<TimeCell> {
      (if startedAt == null then {} else {startedAt as TimeCell})
      + (if finishedAt == null then {} else {finishedAt as TimeCell})
      + (if pausedAt == null then {} else {pausedAt as TimeCell})
    }

    /** The snapshot shows this entry; the running flag and the channel are not part of a snapshot. */
    ghost predicate Shows(e: EntryState)
      reads startedAt, finishedAt, pausedAt
    {
      && name == e.name && service == e.service && description == e.description && interval == e.interval
      && Deref(startedAt) == e.startedAt && Deref(finishedAt) == e.finishedAt && error == e.error && next == e.next
      && paused == e.paused && pausedBy == e.pausedBy && Deref(pausedAt) == e.pausedAt
      && runCount == e.runCount && errorCount == e.errorCount
    }
  }

  class Entry {
    const name: string
    const service: string
    const description: string
    const interval: int
    var lastStartedAt: TimeCell?
    var lastFinishedAt: TimeCell?
    var lastError: string
    var nextScheduledAt: Time
    var isPaused: bool
    var isRunning: bool
    var pausedByEmployee: int
    var pausedAt: TimeCell?
    var runCount: int
    var errorCount: int
    var signal: bool

    ghost function Cells(): set<TimeCell>
      reads this
    {
      (if lastStartedAt == null then {} else {lastStartedAt as TimeCell})
      + (if lastFinishedAt == null then {} else {lastFinishedAt as TimeCell})
      + (if pausedAt == null then {} else {pausedAt as TimeCell})
    }

    ghost function State(): EntryState
      reads this, Cells()
    {
      EntryState(name, service, description, interval, Deref(lastStartedAt), Deref(lastFinishedAt), lastError,
                 nextScheduledAt, isPaused, isRunning, pausedByEmployee, Deref(pausedAt), runCount, errorCount, signal)
    }

    constructor (name: string, service: string, description: string, interval: int, now: Time)
      ensures State() == BlankEntry(name, service, description, interval, now)
      ensures Cells() == {}
    {
      this.name, this.service, this.description, this.interval := name, service, description, interval;
      lastStartedAt, lastFinishedAt, pausedAt := null, null, null;
      lastError, nextScheduledAt := "", now + interval;
      isPaused, isRunning, signal := false, false, false;
      pausedByEmployee, runCount, errorCount := 0, 0, 0;
    }

    method BeginRun(now: Time) returns (ok: bool)
      modifies this
      ensures ok <==> !old(isPaused) && !old(isRunning)
      ensures ok ==> isRunning && Deref(lastStartedAt) == Some(now)
      ensures State() == Begun(old(State()), now)
      ensures fresh(Cells() - old(Cells()))
    {
      if isPaused {
        return false;
      }
      if isRunning {
        return false;
      }
      isRunning := true;
      lastStartedAt := new TimeCell(now);
      return true;
    }

    method EndRun(err: Option<string>, now: Time)
      modifies this
      ensures State() == Ended(old(State()), err, now)
      ensures fresh(Cells() - old(Cells()))
    {
      lastFinishedAt := new TimeCell(now);
      if err.Some? {
        lastError := err.value;
        errorCount := errorCount + 1;
      } else {
        lastError := "";
      }
      runCount := runCount + 1;
      if interval > 0 {
        nextScheduledAt := now + interval;
      }
      isRunning := false;
    }

    method SetPaused(paused: bool, employee: int, at: TimeCell?)
      modifies this
      ensures State() == PauseIn(old(State()), PauseFields(paused, employee, Deref(at)))
      ensures Cells() <= old(Cells()) + (if at == null then {} else {at as TimeCell})
    {
      isPaused := paused;
      pausedByEmployee := employee;
      pausedAt := at;
    }

    /** The non-blocking send on the trigger channel. */
    method Enqueue()
      modifies this
      ensures State() == old(State()).(signal := true) && Cells() == old(Cells())
    {
      signal := true;
    }

    /** The receive from TriggerChan; it blocks while no signal is queued. */
    method Receive()
      requires signal
      modifies this
      ensures State() == old(State()).(signal := false) && Cells() == old(Cells())
    {
      signal := false;
    }

    method Snapshot() returns (info: CronInfo)
      ensures info.Shows(State())
      ensures fresh(info.Cells())
    {
      var started := CopyTimePtr(lastStartedAt);
      var finished := CopyTimePtr(lastFinishedAt);
      var paused := CopyTimePtr(pausedAt);
      info := CronInfo(name, service, description, interval, started, finished, lastError, nextScheduledAt,
                       isPaused, pausedByEmployee, paused, runCount, errorCount);
    }
  }

  /** An order in which ranging over a Go map may visit its keys: each key once. */
  method RangeOrder(keys: set<string>) returns (order: seq<string>)
    ensures |order| == |keys|
    ensures forall i :: 0 <= i < |order| ==> order[i] in keys
    ensures forall i, j :: 0 <= i < j < |order| ==> order[i] != order[j]
    ensures forall n :: n in keys ==> exists i :: 0 <= i < |order| && order[i] == n
  {
    order := [];
    var todo := keys;
    while todo != {}
      invariant todo <= keys && |order| + |todo| == |keys|
      invariant forall n :: n in order <==> n in keys - todo
      invariant forall i, j :: 0 <= i < j < |order| ==> order[i] != order[j]
      decreases |todo|
    {
      var n :| n in todo;
      assert n !in order;
      order := order + [n];
      todo := todo - {n};
    }
    assert forall i :: 0 <= i < |order| ==> order[i] in order;
    assert forall n :: n in keys ==> n in order;
  }

  /** The snapshots of some entries, in order. */
  method SnapshotAll(es: seq<Entry>) returns (out: seq<CronInfo>)
    ensures |out| == |es|
    ensures forall i :: 0 <= i < |out| ==> out[i].Shows(es[i].State())
    ensures forall i :: 0 <= i < |out| ==> fresh(out[i].Cells())
  {
    out := [];
    for k := 0 to |es|
      invariant |out| == k
      invariant forall i :: 0 <= i < k ==> out[i].Shows(es[i].State())
      invariant forall i :: 0 <= i < k ==> fresh(out[i].Cells())
    {
      var info := es[k].Snapshot();
      out := out + [info];
    }
  }

  class Registry {
    const service: string
    const store: PauseStore?
    var entries: map<string, Entry>

    ghost predicate Valid()
      reads this
    {
      forall n :: n in entries ==> entries[n].name == n && entries[n].service == service
    }

    constructor (service: string, store: PauseStore?)
      ensures Valid() && entries == map[] && this.service == service && this.store == store
    {
      this.service, this.store := service, store;
      entries := map[];
    }

    ghost function StoredRow(name: string): Option<Row>
      reads store
    {
      if store != null && name in store.rows then Some(store.rows[name]) else None
    }

    /** Idempotent: a name that is already registered keeps its entry and the caller gets that entry. */
    method Register(name: string, description: string, interval: int, now: Time, loadOk: bool) returns (e: Entry)
      requires Valid()
      modifies this
      ensures Valid()
      ensures e.name == name && e.service == service
      ensures name in old(entries) ==> entries == old(entries) && e == entries[name]
      ensures name !in old(entries) ==> e.description == description && e.interval == interval
      ensures name !in old(entries) ==> entries == old(entries)[name := e] && fresh(e) && fresh(e.Cells())
      ensures name !in old(entries) ==>
        e.State() == PauseIn(BlankEntry(name, service, description, interval, now),
                             if loadOk then FromRow(StoredRow(name)) else UNPAUSED)
    {
      if name in entries {
        return entries[name];
      }
      e := new Entry(name, service, description, interval, now);
      if store != null {
        var r := store.Load(name, loadOk);
        if r.Ok? && r.value.paused {
          var at := new TimeCell(r.value.at);
          e.SetPaused(true, r.value.pausedBy, at);
        }
      }
      entries := entries[name := e];
    }

    method Get(name: string) returns (r: Result<CronInfo, Failure>)
      requires Valid()
      ensures r.Ok? ==> r.value.name == name && r.value.service == service
      ensures r.Ok? == (name in entries)
      ensures r.Ok? ==> r.value.Shows(entries[name].State()) && fresh(r.value.Cells())
      ensures r.Err? ==> r.error == CronNotFound
    {
      if name !in entries {
        return Err(CronNotFound);
      }
      var info := entries[name].Snapshot();
      return Ok(info);
    }

    method Pause(name: string, employee: int, now: Time, saveOk: bool) returns (r: Result<(), Failure>)
      requires Valid()
      modifies if name in entries then {entries[name]} else {}
      modifies if name in entries && store != null then {store} else {}
      ensures name in entries ==>
        && entries[name].State() == PauseIn(old(entries[name].State()), PauseFields(true, employee, Some(now)))
        && fresh(entries[name].Cells() - old(entries[name].Cells()))
      ensures name in entries && store != null ==>
        store.rows == if saveOk then old(store.rows)[name := Row(true, employee, Some(now))] else old(store.rows)
      ensures r == if name !in entries then Err(CronNotFound) else if store != null && !saveOk then Err(StoreError) else Ok(())
    {
      if name !in entries {
        return Err(CronNotFound);
      }
      var at := new TimeCell(now);
      entries[name].SetPaused(true, employee, at);
      if store != null {
        r := store.Save(name, true, employee, now, saveOk);
        return;
      }
      return Ok(());
    }

    method Resume(name: string, now: Time, saveOk: bool) returns (r: Result<(), Failure>)
      requires Valid()
      modifies if name in entries then {entries[name]} else {}
      modifies if name in entries && store != null then {store} else {}
      ensures name in entries ==>
        && entries[name].State() == PauseIn(old(entries[name].State()), UNPAUSED)
        && entries[name].Cells() <= old(entries[name].Cells())
      ensures name in entries && store != null ==>
        store.rows == if saveOk then old(store.rows)[name := Row(false, 0, None)] else old(store.rows)
      ensures r == if name !in entries then Err(CronNotFound) else if store != null && !saveOk then Err(StoreError) else Ok(())
    {
      if name !in entries {
        return Err(CronNotFound);
      }
      entries[name].SetPaused(false, 0, null);
      if store != null {
        r := store.Save(name, false, 0, now, saveOk);
        return;
      }
      return Ok(());
    }

    method Trigger(name: string, force: bool) returns (r: Result<(), Failure>)
      requires Valid()
      modifies if name in entries then {entries[name]} else {}
      ensures name in entries ==>
        && entries[name].State() == (if Accepts(old(entries[name].State()), force)
                                     then old(entries[name].State()).(signal := true) else old(entries[name].State()))
        && entries[name].Cells() == old(entries[name].Cells())
      ensures name !in entries ==> r == Err(CronNotFound)
      ensures name in entries ==> r == if old(entries[name].isPaused) && !force then Err(CronPaused) else Ok(())
      ensures r.Ok? ==> entries[name].signal
      ensures r == Err(CronPaused) ==> entries[name].State() == old(entries[name].State())
    {
      if name !in entries {
        return Err(CronNotFound);
      }
      if entries[name].isPaused && !force {
        return Err(CronPaused);
      }
      entries[name].Enqueue();
      return Ok(());
    }

    /** The entries of the named crons. */
    method EntriesOf(names: seq<string>) returns (es: seq<Entry>)
      requires Valid() && forall i :: 0 <= i < |names| ==> names[i] in entries
      ensures |es| == |names|
      ensures forall i :: 0 <= i < |es| ==> es[i] == entries[names[i]] && es[i].name == names[i]
    {
      es := [];
      for k := 0 to |names|
        invariant |es| == k
        invariant forall i :: 0 <= i < k ==> es[i] == entries[names[i]] && es[i].name == names[i]
      {
        es := es + [entries[names[k]]];
      }
    }

    /** The snapshots of the named crons. */
    method SnapshotsOf(names: seq<string>) returns (out: seq<CronInfo>)
      requires Valid() && forall i :: 0 <= i < |names| ==> names[i] in entries
      ensures |out| == |names|
      ensures forall i :: 0 <= i < |out| ==> out[i].name == names[i] && out[i].service == service && Current(out[i])
      ensures forall i :: 0 <= i < |out| ==> fresh(out[i].Cells())
    {
      var es := EntriesOf(names);
      out := SnapshotAll(es);
    }

    /** One snapshot per registered name, in no particular order. */
    method List() returns (out: seq<CronInfo>)
      requires Valid()
      ensures |out| == |entries|
      ensures forall i, j :: 0 <= i < j < |out| ==> out[i].name != out[j].name
      ensures forall i :: 0 <= i < |out| ==> out[i].service == service && Current(out[i])
      ensures forall n :: n in entries ==> exists i :: 0 <= i < |out| && out[i].name == n
      ensures forall i :: 0 <= i < |out| ==> fresh(out[i].Cells())
    {
      var names := RangeOrder(entries.Keys);
      out := SnapshotsOf(names);
      forall n | n in entries
        ensures exists i :: 0 <= i < |out| && out[i].name == n
      {
        var i :| 0 <= i < |names| && names[i] == n;
        assert out[i].name == n;
      }
    }

    /** The snapshot shows the present state of the entry it names. */
    ghost predicate Current(info: CronInfo)
      reads this, entries.Values, info.startedAt, info.finishedAt, info.pausedAt
      reads if info.name in entries then entries[info.name].Cells() else {}
    {
      info.name in entries && info.Shows(entries[info.name].State())
    }

    // ---------- whole histories ----------

    /** The registry and its store hold, about one cron, what the abstract system holds. */
    ghost predicate Holds(s: System, n: string)
      reads this, store, entries.Values
      reads if n in entries then entries[n].Cells() else {}
    {
      && s.service == service
      && s.store.Some? == (store != null)
      && RowOf(s, n) == StoredRow(n)
      && (n in s.entries <==> n in entries)
      && (n in entries ==> entries[n].State() == s.entries[n])
    }

    /** No entry points to any of these cells. */
    ghost predicate Avoids(cells: set<TimeCell>)
      reads this, entries.Values
    {
      forall n :: n in entries ==> entries[n].Cells() !! cells
    }

    // One call of each kind acts on the objects as it does on the abstract system, for whichever
    // cron `n` one looks at, and makes no entry point to a cell that existed and was avoided before.

    method PerformRegister(c: Call, ghost s: System, ghost n: string, ghost cells: set<TimeCell>)
      requires Valid() && Holds(s, n) && Avoids(cells) && c.Register?
      modifies this
      ensures Valid() && Holds(Apply(s, c), n) && Avoids(cells)
      ensures forall m :: m in old(entries) ==> m in entries && entries[m] == old(entries[m])
      ensures forall m :: m in entries ==> m in old(entries) || fresh(entries[m])
    {
      var e := Register(c.name, c.description, c.interval, c.now, c.loadOk);
    }

    /** What changing the pause fields of one cron does to whichever cron `n` one looks at. */
    method PauseOne(name: string, employee: int, now: Time, saveOk: bool, ghost n: string, ghost cells: set<TimeCell>)
      requires Valid() && Avoids(cells)
      modifies entries.Values, store
      ensures Valid() && Avoids(cells)
      ensures n in entries && n == name ==>
        entries[n].State() == PauseIn(old(entries[n].State()), PauseFields(true, employee, Some(now)))
      ensures n in entries && n != name ==> entries[n].State() == old(entries[n].State())
      ensures StoredRow(n) == if n == name && n in entries && store != null && saveOk then Some(Row(true, employee, Some(now)))
                              else old(StoredRow(n))
    {
      ghost var other := if n in entries && n != name then entries[n] as Entry? else null;
      ghost var times := if other == null then {} else other.Cells();
      var r := Pause(name, employee, now, saveOk);
      assert other != null ==> unchanged(other) && unchanged(times);
    }

    method ResumeOne(name: string, now: Time, saveOk: bool, ghost n: string, ghost cells: set<TimeCell>)
      requires Valid() && Avoids(cells)
      modifies entries.Values, store
      ensures Valid() && Avoids(cells)
      ensures n in entries && n == name ==> entries[n].State() == PauseIn(old(entries[n].State()), UNPAUSED)
      ensures n in entries && n != name ==> entries[n].State() == old(entries[n].State())
      ensures StoredRow(n) == if n == name && n in entries && store != null && saveOk then Some(Row(false, 0, None))
                              else old(StoredRow(n))
    {
      ghost var other := if n in entries && n != name then entries[n] as Entry? else null;
      ghost var times := if other == null then {} else other.Cells();
      var r := Resume(name, now, saveOk);
      assert other != null ==> unchanged(other) && unchanged(times);
    }

    method PerformPause(c: Call, ghost s: System, ghost n: string, ghost cells: set<TimeCell>)
      requires Valid() && Holds(s, n) && Avoids(cells) && c.Pause?
      modifies entries.Values, store
      ensures Valid() && Holds(Apply(s, c), n) && Avoids(cells)
    {
      PauseOne(c.name, c.employee, c.now, c.saveOk, n, cells);
    }

    method PerformResume(c: Call, now: Time, ghost s: System, ghost n: string, ghost cells: set<TimeCell>)
      requires Valid() && Holds(s, n) && Avoids(cells) && c.Resume?
      modifies entries.Values, store
      ensures Valid() && Holds(Apply(s, c), n) && Avoids(cells)
    {
      ResumeOne(c.name, now, c.saveOk, n, cells);
    }

    method PerformTrigger(c: Call, ghost s: System, ghost n: string, ghost cells: set<TimeCell>)
      requires Valid() && Holds(s, n) && Avoids(cells) && c.Trigger?
      modifies entries.Values
      ensures Valid() && Holds(Apply(s, c), n) && Avoids(cells)
    {
      var r := Trigger(c.name, c.force);
      assert n in entries && n != c.name ==> entries[n].State() == old(entries[n].State());
    }

    method PerformBegin(c: Call, ghost s: System, ghost n: string, ghost cells: set<TimeCell>)
      requires Valid() && Holds(s, n) && Avoids(cells) && c.BeginRun?
      modifies entries.Values
      ensures Valid() && Holds(Apply(s, c), n) && Avoids(cells)
    {
      if c.name in entries {
        var ok := entries[c.name].BeginRun(c.now);
        assert n in entries && n != c.name ==> entries[n].State() == old(entries[n].State());
      }
    }

    method PerformEnd(c: Call, ghost s: System, ghost n: string, ghost cells: set<TimeCell>)
      requires Valid() && Holds(s, n) && Avoids(cells) && c.EndRun?
      modifies entries.Values
      ensures Valid() && Holds(Apply(s, c), n) && Avoids(cells)
    {
      if c.name in entries {
        entries[c.name].EndRun(c.err, c.now);
        assert n in entries && n != c.name ==> entries[n].State() == old(entries[n].State());
      }
    }

    method PerformReceive(c: Call, ghost s: System, ghost n: string, ghost cells: set<TimeCell>)
      requires Valid() && Holds(s, n) && Avoids(cells) && c.Receive?
      modifies entries.Values
      ensures Valid() && Holds(Apply(s, c), n) && Avoids(cells)
    {
      if c.name in entries && entries[c.name].signal {
        entries[c.name].Receive();
        assert n in entries && n != c.name ==> entries[n].State() == old(entries[n].State());
      }
    }

    /** A whole history of calls, for whichever cron `n` one looks at. */
    method Execute(calls: seq<Call>, now: Time, ghost s: System, ghost n: string, ghost cells: set<TimeCell>)
      requires Valid() && Holds(s, n) && Avoids(cells)
      modifies this, entries.Values, store
      ensures Valid() && Holds(Run(s, calls), n) && Avoids(cells)
      ensures forall m :: m in old(entries) ==> m in entries && entries[m] == old(entries[m])
    {
      for k := 0 to |calls|
        invariant Valid() && Holds(Run(s, calls[..k]), n) && Avoids(cells)
        invariant forall m :: m in old(entries) ==> m in entries && entries[m] == old(entries[m])
        invariant forall m :: m in entries ==> m in old(entries) || fresh(entries[m])
      {
        assert calls[..k + 1][..k] == calls[..k];
        Perform(calls[k], now, Run(s, calls[..k]), n, cells);
      }
      assert calls[..|calls|] == calls;
    }

    method Perform(c: Call, now: Time, ghost s: System, ghost n: string, ghost cells: set<TimeCell>)
      requires Valid() && Holds(s, n) && Avoids(cells)
      modifies this, entries.Values, store
      ensures Valid() && Holds(Apply(s, c), n) && Avoids(cells)
      ensures forall m :: m in old(entries) ==> m in entries && entries[m] == old(entries[m])
      ensures forall m :: m in entries ==> m in old(entries) || fresh(entries[m])
    {
      match c {
        case Register(_, _, _, _, _) => PerformRegister(c, s, n, cells);
        case BeginRun(_, _) => PerformBegin(c, s, n, cells);
        case EndRun(_, _, _) => PerformEnd(c, s, n, cells);
        case Pause(_, _, _, _) => PerformPause(c, s, n, cells);
        case Resume(_, _) => PerformResume(c, now, s, n, cells);
        case Trigger(_, _) => PerformTrigger(c, s, n, cells);
        case Receive(_) => PerformReceive(c, s, n, cells);
      }
    }
  }

  // ---------- isolation of snapshots ----------

  /** No later history of calls changes a snapshot a caller already holds. */
  method SnapshotOutlivesCalls(r: Registry, name: string, calls: seq<Call>, now: Time, ghost s: System)
    returns (info: CronInfo, ghost shown: EntryState)
    requires r.Valid() && r.Holds(s, name) && name in r.entries
    modifies r, r.entries.Values, r.store
    ensures shown == s.entries[name] && info.Shows(shown)
    ensures r.Valid() && r.Holds(Run(s, calls), name) && r.Avoids(info.Cells())
  {
    var got := r.Get(name);
    info := got.value;
    shown := s.entries[name];
    r.Execute(calls, now, s, name, info.Cells());
  }

  /** A caller overwriting every time in a snapshot it holds. */
  method Scribble(info: CronInfo, value: Time)
    modifies info.Cells()
    ensures info.startedAt != null ==> info.startedAt.value == value
    ensures info.finishedAt != null ==> info.finishedAt.value == value
    ensures info.pausedAt != null ==> info.pausedAt.value == value
  {
    if info.startedAt != null {
      info.startedAt.value := value;
    }
    if info.finishedAt != null {
      info.finishedAt.value := value;
    }
    if info.pausedAt != null {
      info.pausedAt.value := value;
    }
  }

  /** Overwriting a snapshot's times, after any history of calls, does not reach the registry. */
  method SnapshotIsDetached(r: Registry, info: CronInfo, value: Time, ghost s: System, ghost n: string)
    requires r.Valid() && r.Holds(s, n) && r.Avoids(info.Cells())
    modifies info.Cells()
    ensures r.Valid() && r.Holds(s, n)
  {
    Scribble(info, value);
    assert n in r.entries ==> r.entries[n].State() == old(r.entries[n].State());
  }
}

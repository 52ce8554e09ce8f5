/**
 The prepared-statement caches behind Account.Insert, Update and Upsert
 (models/account.go:2019-2080, 2093-2143, 2224-2330).

 A call looks its key up under a read lock, builds and executes a statement, and
 stores it later under a write lock; between the two any number of other calls
 may run. The theorems quantify over every interleaving of any number of
 threads. Everything the generated code asks of its libraries is a field of
 Library: a fixed but arbitrary function.
 */
module StatementCache {
  import opened CacheKeys
  import opened Text
  import opened UpsertQuery
  import opened Wrappers

  type Mapping = seq<nat>

  /** boil, strmangle and reflection, as far as the builders use them, for one table. */
  datatype Library = Library(
    insertColumnSet: (Columns, seq<string>) -> (seq<string>, seq<string>),
    updateColumnSet: Columns -> seq<string>,
    isWhitelist: Columns -> bool,
    bindMapping: seq<string> -> Option<Mapping>,
    setParamNames: seq<string> -> string,
    whereClause: (nat, seq<string>) -> string)

  /** The generated constants of one table. */
  datatype Table = Table(name: string, columns: seq<string>, primaryKey: seq<string>)

  /** insertCache and updateCache in one shape; an update has no return mapping. */
  datatype Entry = Entry(query: string, valueMapping: Mapping, retMapping: Mapping)

  datatype Call =
    | Insert(columns: Columns, nzDefaults: seq<string>)
    | Update(columns: Columns)
    | Upsert(updateOnConflict: bool, conflict: seq<string>, update: Columns, insert: Columns,
             nzDefaults: seq<string>, opts: UpsertOptions)

  /** One entry of one of the three caches. */
  datatype Slot = InsertSlot(key: string) | UpdateSlot(key: string) | UpsertSlot(key: string)

  type Cache = map<Slot, Entry>

  function SlotOf(call: Call): Slot {
    match call
    case Insert(columns, nz) => InsertSlot(CacheKey(columns, nz))
    case Update(columns) => UpdateSlot(CacheKey(columns, []))
    case Upsert(t, c, u, i, nz, _) => UpsertSlot(UpsertKey(t, c, u, i, nz))
  }

  // ---------------------------------------------------------------- building a statement

  /** strmangle.SetComplement */
  function SetComplement(a: seq<string>, b: seq<string>): seq<string> {
    if a == [] then []
    else if a[0] in b then SetComplement(a[1..], b)
    else [a[0]] + SetComplement(a[1..], b)
  }

  /** strmangle.SetIntersect */
  function SetIntersect(a: seq<string>, b: seq<string>): seq<string> {
    if a == [] then []
    else if a[0] in b then [a[0]] + SetIntersect(a[1..], b)
    else SetIntersect(a[1..], b)
  }

  function BuildInsert(lib: Library, table: Table, columns: Columns, nzDefaults: seq<string>): Option<Entry> {
    var (wl, returnColumns) := lib.insertColumnSet(columns, nzDefaults);
    var valueMapping :- lib.bindMapping(wl);
    var retMapping :- lib.bindMapping(returnColumns);
    Some(Entry(InsertQuery(table.name, wl, returnColumns, |retMapping| != 0), valueMapping, retMapping))
  }

  function UpdateWhitelist(lib: Library, columns: Columns): seq<string> {
    if lib.isWhitelist(columns) then lib.updateColumnSet(columns)
    else SetComplement(lib.updateColumnSet(columns), ["created_at"])
  }

  function BuildUpdate(lib: Library, table: Table, columns: Columns): Option<Entry> {
    var wl := UpdateWhitelist(lib, columns);
    if |wl| == 0 then None
    else
      var valueMapping :- lib.bindMapping(wl + table.primaryKey);
      Some(Entry("UPDATE \"" + table.name + "\" SET " + lib.setParamNames(wl)
                 + " WHERE " + lib.whereClause(|wl| + 1, table.primaryKey), valueMapping, []))
  }

  function ConflictColumns(table: Table, updateOnConflict: bool, conflict: seq<string>, update: seq<string>)
    : Option<seq<string>>
  {
    if |conflict| == 0 && updateOnConflict && |update| != 0 then
      if |table.primaryKey| == 0 then None else Some(table.primaryKey)
    else
      Some(conflict)
  }

  function BuildUpsert(
      lib: Library, table: Table, updateOnConflict: bool, conflictColumns: seq<string>,
      updateColumns: Columns, insertColumns: Columns, nzDefaults: seq<string>, opts: UpsertOptions): Option<Entry>
  {
    var insert := lib.insertColumnSet(insertColumns, nzDefaults).0;
    var update := lib.updateColumnSet(updateColumns);
    if updateOnConflict && |update| == 0 then None
    else
      var ret := SetComplement(table.columns, SetIntersect(insert, update));
      var conflict :- ConflictColumns(table, updateOnConflict, conflictColumns, update);
      var valueMapping :- lib.bindMapping(insert);
      var retMapping :- (if |ret| != 0 then lib.bindMapping(ret) else Some([]));
      Some(Entry(UpsertStatement("\"" + table.name + "\"", updateOnConflict, ret, update, conflict, insert, opts),
                 valueMapping, retMapping))
  }

  /** The statement a call builds when it finds nothing cached; None is an error return. */
  function Fresh(lib: Library, table: Table, call: Call): Option<Entry> {
    match call
    case Insert(columns, nz) => BuildInsert(lib, table, columns, nz)
    case Update(columns) => BuildUpdate(lib, table, columns)
    case Upsert(t, c, u, i, nz, opts) => BuildUpsert(lib, table, t, c, u, i, nz, opts)
  }

  // ---------------------------------------------------------------- what the statements say

  /** BindMapping names one field for each column. */
  ghost predicate BindsEach(lib: Library) {
    forall names {:trigger lib.bindMapping(names)} ::
      lib.bindMapping(names).Some? ==> |lib.bindMapping(names).value| == |names|
  }

  lemma {:induction false} SetMembers(a: seq<string>, b: seq<string>)
    ensures forall x :: x in SetComplement(a, b) <==> x in a && x !in b
    ensures forall x :: x in SetIntersect(a, b) <==> x in a && x in b
  {
    if a != [] {
      SetMembers(a[1..], b);
      assert a == [a[0]] + a[1..];
    }
  }

  /**
   An insert names the chosen columns and gives each its own argument, which is the field
   that column is mapped to; and it returns the others chosen for that.
   */
  lemma InsertSays(lib: Library, table: Table, columns: Columns, nzDefaults: seq<string>, e: Entry)
    requires BindsEach(lib) && Fresh(lib, table, Call.Insert(columns, nzDefaults)) == Some(e)
    requires var (wl, ret) := lib.insertColumnSet(columns, nzDefaults);
             Plain(table.name) && AllPlain(wl) && AllPlain(ret)
    ensures var (wl, ret) := lib.insertColumnSet(columns, nzDefaults);
            && ParseInsert(e.query) == Some(InsertStatement(table.name, wl, Numbers(|wl|, 1), ret))
            && lib.bindMapping(wl) == Some(e.valueMapping) && |e.valueMapping| == |wl|
            && lib.bindMapping(ret) == Some(e.retMapping)
  {
    var (wl, ret) := lib.insertColumnSet(columns, nzDefaults);
    InsertUndone(table.name, wl, ret, |e.retMapping| != 0);
  }

  /** An insert is refused only if its columns cannot be mapped. */
  lemma InsertFailsIff(lib: Library, table: Table, columns: Columns, nzDefaults: seq<string>)
    ensures var (wl, ret) := lib.insertColumnSet(columns, nzDefaults);
            Fresh(lib, table, Call.Insert(columns, nzDefaults)).None?
            <==> lib.bindMapping(wl).None? || lib.bindMapping(ret).None?
  {
  }

  /** The columns an update sets: those asked for, but not created_at unless it is asked for by name. */
  ghost predicate UpdatesColumns(lib: Library, columns: Columns, wl: seq<string>) {
    && (lib.isWhitelist(columns) ==> wl == lib.updateColumnSet(columns))
    && (!lib.isWhitelist(columns) ==> forall x :: x in wl <==> x in lib.updateColumnSet(columns) && x != "created_at")
  }

  /** An update sets these columns where the key is the object's, and binds the fields of both, in that order. */
  lemma UpdateSays(lib: Library, table: Table, columns: Columns) returns (wl: seq<string>)
    ensures UpdatesColumns(lib, columns, wl)
    ensures match Fresh(lib, table, Call.Update(columns))
            case None => wl == [] || lib.bindMapping(wl + table.primaryKey).None?
            case Some(e) =>
              && wl != [] && lib.bindMapping(wl + table.primaryKey) == Some(e.valueMapping) && e.retMapping == []
              && e.query == "UPDATE \"" + table.name + "\" SET " + lib.setParamNames(wl)
                            + " WHERE " + lib.whereClause(|wl| + 1, table.primaryKey)
  {
    wl := UpdateWhitelist(lib, columns);
    SetMembers(lib.updateColumnSet(columns), ["created_at"]);
  }

  /** The conflict columns an upsert ends up with: those given, or else, if it is to update, the primary key. */
  ghost predicate ConflictsOn(table: Table, given: seq<string>, updates: bool, conflict: seq<string>) {
    conflict == if given == [] && updates then table.primaryKey else given
  }

  lemma ReturnedColumns(all: seq<string>, insert: seq<string>, update: seq<string>)
    ensures var ret := SetComplement(all, SetIntersect(insert, update));
            && (forall x :: x in ret <==> x in all && !(x in insert && x in update))
            && (AllPlain(all) ==> AllPlain(ret))
  {
    var ret := SetComplement(all, SetIntersect(insert, update));
    SetMembers(insert, update);
    SetMembers(all, SetIntersect(insert, update));
    forall i | 0 <= i < |ret| && AllPlain(all)
      ensures Plain(ret[i])
    {
      assert ret[i] in ret;
      var j :| 0 <= j < |all| && all[j] == ret[i];
    }
  }

  lemma UpsertEntry(
      lib: Library, table: Table, updateOnConflict: bool, given: seq<string>,
      updateColumns: Columns, insertColumns: Columns, nzDefaults: seq<string>, e: Entry)
    requires BuildUpsert(lib, table, updateOnConflict, given, updateColumns, insertColumns, nzDefaults, NO_OPTIONS) == Some(e)
    ensures var insert, update := lib.insertColumnSet(insertColumns, nzDefaults).0, lib.updateColumnSet(updateColumns);
            var ret := SetComplement(table.columns, SetIntersect(insert, update));
            && ConflictColumns(table, updateOnConflict, given, update).Some?
            && var conflict := ConflictColumns(table, updateOnConflict, given, update).value;
            && ConflictsOn(table, given, updateOnConflict && update != [], conflict)
            && e.query == UpsertStatement(IdentQuote(table.name), updateOnConflict, ret, update, conflict, insert, NO_OPTIONS)
            && lib.bindMapping(insert) == Some(e.valueMapping)
            && (if ret == [] then e.retMapping == [] else lib.bindMapping(ret) == Some(e.retMapping))
  {
    assert "\"" + table.name + "\"" == IdentQuote(table.name);
  }

  /**
   An upsert without custom options inserts the chosen columns, each with its own argument,
   acts as asked on a conflict on the given columns or the primary key, and returns the
   columns of the table that are not both inserted and updated.
   */
  lemma UpsertSays(
      lib: Library, table: Table, updateOnConflict: bool, given: seq<string>,
      updateColumns: Columns, insertColumns: Columns, nzDefaults: seq<string>, e: Entry)
    returns (conflict: seq<string>, ret: seq<string>)
    requires Fresh(lib, table, Call.Upsert(updateOnConflict, given, updateColumns, insertColumns, nzDefaults, NO_OPTIONS))
             == Some(e)
    requires var insert, update := lib.insertColumnSet(insertColumns, nzDefaults).0, lib.updateColumnSet(updateColumns);
             && Plain(table.name) && AllPlain(table.columns) && AllPlain(table.primaryKey)
             && AllPlain(given) && AllPlain(insert) && PlainOrEmpty(update)
    ensures var insert, update := lib.insertColumnSet(insertColumns, nzDefaults).0, lib.updateColumnSet(updateColumns);
            && ConflictsOn(table, given, updateOnConflict && update != [], conflict)
            && (forall x :: x in ret <==> x in table.columns && !(x in insert && x in update))
            && Parse(e.query) == (match Intended(updateOnConflict, update)
                                  case Some(action) =>
                                    Some(UpsertQuery.Upsert(table.name, insert, Numbers(|insert|, 1), conflict, action, ret))
                                  case None => None)
            && lib.bindMapping(insert) == Some(e.valueMapping)
            && (if ret == [] then e.retMapping == [] else lib.bindMapping(ret) == Some(e.retMapping))
  {
    var insert, update := lib.insertColumnSet(insertColumns, nzDefaults).0, lib.updateColumnSet(updateColumns);
    ret := SetComplement(table.columns, SetIntersect(insert, update));
    conflict := ConflictColumns(table, updateOnConflict, given, update).value;
    ReturnedColumns(table.columns, insert, update);
    UpsertEntry(lib, table, updateOnConflict, given, updateColumns, insertColumns, nzDefaults, e);
    StatementUndone(table.name, updateOnConflict, ret, update, conflict, insert);
  }

  /** An upsert is refused if it is to update nothing, has nothing to conflict on, or has columns that cannot be mapped. */
  lemma UpsertFailsIff(
      lib: Library, table: Table, updateOnConflict: bool, given: seq<string>,
      updateColumns: Columns, insertColumns: Columns, nzDefaults: seq<string>, opts: UpsertOptions)
    ensures var insert, update := lib.insertColumnSet(insertColumns, nzDefaults).0, lib.updateColumnSet(updateColumns);
            var ret := SetComplement(table.columns, SetIntersect(insert, update));
            Fresh(lib, table, Call.Upsert(updateOnConflict, given, updateColumns, insertColumns, nzDefaults, opts)).None?
            <==> || (updateOnConflict && (update == [] || (given == [] && table.primaryKey == [])))
                 || lib.bindMapping(insert).None? || (ret != [] && lib.bindMapping(ret).None?)
  {
  }

  // ---------------------------------------------------------------- which calls share a slot

  /** Every name in the call is a column of the table. */
  ghost predicate OverColumns(code: set<string>, call: Call) {
    match call
    case Insert(columns, nz) => Words(code, columns.cols) && Words(code, nz)
    case Update(columns) => Words(code, columns.cols)
    case Upsert(_, c, u, i, nz, _) => Words(code, c) && Words(code, u.cols) && Words(code, i.cols) && Words(code, nz)
  }

  /** Calls that differ at most in their upsert options. */
  predicate SameButOptions(a: Call, b: Call) {
    a == (if a.Upsert? && b.Upsert? then b.(opts := a.opts) else b)
  }

  /** Calls over the table's columns share a slot exactly when they differ at most in their options. */
  lemma SlotsAreInjective(code: set<string>, d: set<string>, a: Call, b: Call)
    requires GoodNames(code, d) && OverColumns(code, a) && OverColumns(code, b)
    ensures SlotOf(a) == SlotOf(b) <==> SameButOptions(a, b)
  {
    if SlotOf(a) == SlotOf(b) {
      match a
      case Insert(columns, nz) => CacheKeyInjective(code, d, columns, nz, b.columns, b.nzDefaults);
      case Update(columns) => CacheKeyInjective(code, d, columns, [], b.columns, []);
      case Upsert(t, c, u, i, nz, _) =>
        UpsertKeyInjective(code, d, t, c, u, i, nz,
                           b.updateOnConflict, b.conflict, b.update, b.insert, b.nzDefaults);
    }
  }

  // ---------------------------------------------------------------- threads

  type ThreadId = nat

  /** Where one thread stands inside one call. */
  datatype Local =
    | LookedUp(call: Call, found: Option<Entry>)
    | Prepared(call: Call, entry: Entry, cached: bool)
    | Executed(call: Call, entry: Entry, cached: bool)

  /** The caches, the calls in progress, and the history: calls begun and statements executed. */
  datatype World = World(
    cache: Cache, running: map<ThreadId, Local>, begun: set<Call>, executed: seq<(Call, Entry)>)

  const START := World(map[], map[], {}, [])

  datatype Step =
    | Lookup(tid: ThreadId, call: Call)      // the whole read-locked section
    | Prepare(tid: ThreadId)                 // build on a miss; may return an error
    | Execute(tid: ThreadId, ok: bool)       // may return an error
    | Store(tid: ThreadId)                   // the whole write-locked section; nothing on a hit

  /** One step of one thread; a step the thread is not ready for leaves the world as it is. */
  function Next(lib: Library, table: Table, w: World, step: Step): World {
    match step
    case Lookup(tid, call) =>
      if tid in w.running then w
      else
        var slot := SlotOf(call);
        var found := if slot in w.cache then Some(w.cache[slot]) else None;
        w.(running := w.running[tid := LookedUp(call, found)], begun := w.begun + {call})
    case Prepare(tid) =>
      if tid !in w.running || !w.running[tid].LookedUp? then w
      else
        var LookedUp(call, found) := w.running[tid];
        var entry := if found.Some? then found else Fresh(lib, table, call);
        if entry.None? then w.(running := w.running - {tid})
        else w.(running := w.running[tid := Prepared(call, entry.value, found.Some?)])
    case Execute(tid, ok) =>
      if tid !in w.running || !w.running[tid].Prepared? then w
      else
        var Prepared(call, entry, cached) := w.running[tid];
        var w' := w.(executed := w.executed + [(call, entry)]);
        if ok then w'.(running := w.running[tid := Executed(call, entry, cached)])
        else w'.(running := w.running - {tid})
    case Store(tid) =>
      if tid !in w.running || !w.running[tid].Executed? then w
      else
        var Executed(call, entry, cached) := w.running[tid];
        w.(running := w.running - {tid}, cache := if cached then w.cache else w.cache[SlotOf(call) := entry])
  }

  function Run(lib: Library, table: Table, w: World, steps: seq<Step>): World
    decreases |steps|
  {
    if steps == [] then w else Run(lib, table, Next(lib, table, w, steps[0]), steps[1..])
  }

  // ---------------------------------------------------------------- what every interleaving keeps

  /** Some call begun so far has this slot and builds this entry. */
  ghost predicate Accounted(lib: Library, table: Table, w: World, slot: Slot, entry: Entry) {
    exists call :: call in w.begun && SlotOf(call) == slot && Fresh(lib, table, call) == Some(entry)
  }

  ghost predicate LocalAccounted(lib: Library, table: Table, w: World, local: Local) {
    local.call in w.begun &&
    match local
    case LookedUp(call, found) => found.Some? ==> Accounted(lib, table, w, SlotOf(call), found.value)
    case Prepared(call, entry, _) => Accounted(lib, table, w, SlotOf(call), entry)
    case Executed(call, entry, _) => Accounted(lib, table, w, SlotOf(call), entry)
  }

  ghost predicate Inv(lib: Library, table: Table, w: World) {
    && (forall slot :: slot in w.cache ==> Accounted(lib, table, w, slot, w.cache[slot]))
    && (forall tid :: tid in w.running ==> LocalAccounted(lib, table, w, w.running[tid]))
    && (forall i :: 0 <= i < |w.executed| ==>
          w.executed[i].0 in w.begun && Accounted(lib, table, w, SlotOf(w.executed[i].0), w.executed[i].1))
  }

  lemma AccountedStays(lib: Library, table: Table, w: World, w': World)
    requires w.begun <= w'.begun
    ensures forall slot, e :: Accounted(lib, table, w, slot, e) ==> Accounted(lib, table, w', slot, e)
  {
  }

  lemma LocalStays(lib: Library, table: Table, w: World, w': World, local: Local)
    requires w.begun <= w'.begun && LocalAccounted(lib, table, w, local)
    ensures LocalAccounted(lib, table, w', local)
  {
    AccountedStays(lib, table, w, w');
  }

  /** A step that adds only accounted things keeps everything accounted. */
  lemma AccountedAdditions(lib: Library, table: Table, w: World, w': World)
    requires Inv(lib, table, w) && w.begun <= w'.begun
    requires forall slot :: slot in w'.cache ==>
               (slot in w.cache && w'.cache[slot] == w.cache[slot]) || Accounted(lib, table, w', slot, w'.cache[slot])
    requires forall tid :: tid in w'.running ==>
               (tid in w.running && w'.running[tid] == w.running[tid]) || LocalAccounted(lib, table, w', w'.running[tid])
    requires forall i :: 0 <= i < |w'.executed| ==>
               || (i < |w.executed| && w'.executed[i] == w.executed[i])
               || (w'.executed[i].0 in w'.begun
                   && Accounted(lib, table, w', SlotOf(w'.executed[i].0), w'.executed[i].1))
    ensures Inv(lib, table, w')
  {
    AccountedStays(lib, table, w, w');
    forall tid | tid in w.running
      ensures LocalAccounted(lib, table, w', w.running[tid])
    {
      LocalStays(lib, table, w, w', w.running[tid]);
    }
  }

  lemma LookupKeepsInv(lib: Library, table: Table, w: World, tid: ThreadId, call: Call)
    requires Inv(lib, table, w)
    ensures Inv(lib, table, Next(lib, table, w, Lookup(tid, call)))
  {
    var w' := Next(lib, table, w, Lookup(tid, call));
    AccountedStays(lib, table, w, w');
    AccountedAdditions(lib, table, w, w');
  }

  lemma PrepareKeepsInv(lib: Library, table: Table, w: World, tid: ThreadId)
    requires Inv(lib, table, w)
    ensures Inv(lib, table, Next(lib, table, w, Prepare(tid)))
  {
    if tid in w.running && w.running[tid].LookedUp? {
      var w' := Next(lib, table, w, Prepare(tid));
      AccountedStays(lib, table, w, w');
      assert LocalAccounted(lib, table, w, w.running[tid]);
      assert tid in w'.running ==> Accounted(lib, table, w, SlotOf(w'.running[tid].call), w'.running[tid].entry);
      AccountedAdditions(lib, table, w, w');
    }
  }

  lemma ExecuteKeepsInv(lib: Library, table: Table, w: World, tid: ThreadId, ok: bool)
    requires Inv(lib, table, w)
    ensures Inv(lib, table, Next(lib, table, w, Execute(tid, ok)))
  {
    if tid in w.running && w.running[tid].Prepared? {
      var w' := Next(lib, table, w, Execute(tid, ok));
      AccountedStays(lib, table, w, w');
      assert LocalAccounted(lib, table, w, w.running[tid]);
      AccountedAdditions(lib, table, w, w');
    }
  }

  lemma StoreKeepsInv(lib: Library, table: Table, w: World, tid: ThreadId)
    requires Inv(lib, table, w)
    ensures Inv(lib, table, Next(lib, table, w, Store(tid)))
  {
    if tid in w.running && w.running[tid].Executed? {
      var w' := Next(lib, table, w, Store(tid));
      AccountedStays(lib, table, w, w');
      assert LocalAccounted(lib, table, w, w.running[tid]);
      AccountedAdditions(lib, table, w, w');
    }
  }

  lemma NextKeepsInv(lib: Library, table: Table, w: World, step: Step)
    requires Inv(lib, table, w)
    ensures Inv(lib, table, Next(lib, table, w, step))
  {
    match step
    case Lookup(tid, call) => LookupKeepsInv(lib, table, w, tid, call);
    case Prepare(tid) => PrepareKeepsInv(lib, table, w, tid);
    case Execute(tid, ok) => ExecuteKeepsInv(lib, table, w, tid, ok);
    case Store(tid) => StoreKeepsInv(lib, table, w, tid);
  }

  ghost predicate LooksUp(steps: seq<Step>, call: Call) {
    exists i :: 0 <= i < |steps| && steps[i].Lookup? && steps[i].call == call
  }

  lemma {:induction false} RunKeepsInv(lib: Library, table: Table, w: World, steps: seq<Step>)
    requires Inv(lib, table, w)
    ensures Inv(lib, table, Run(lib, table, w, steps))
    ensures forall call :: call in Run(lib, table, w, steps).begun ==> call in w.begun || LooksUp(steps, call)
    decreases |steps|
  {
    if steps != [] {
      var w' := Next(lib, table, w, steps[0]);
      NextKeepsInv(lib, table, w, steps[0]);
      RunKeepsInv(lib, table, w', steps[1..]);
      forall call | call in w'.begun || LooksUp(steps[1..], call)
        ensures call in w.begun || LooksUp(steps, call)
      {
        if LooksUp(steps[1..], call) {
          var i :| 0 <= i < |steps[1..]| && steps[1..][i].Lookup? && steps[1..][i].call == call;
          assert steps[i + 1].Lookup? && steps[i + 1].call == call;
        } else if call !in w.begun {
          assert steps[0].Lookup? && steps[0].call == call;
        }
      }
    }
  }

  ghost predicate RunsOverColumns(code: set<string>, steps: seq<Step>) {
    forall i :: 0 <= i < |steps| && steps[i].Lookup? ==> OverColumns(code, steps[i].call)
  }

  /** All upserts of the run are called with the same options. */
  ghost predicate OneOptionSet(steps: seq<Step>, opts: UpsertOptions) {
    forall i :: 0 <= i < |steps| && steps[i].Lookup? && steps[i].call.Upsert? ==> steps[i].call.opts == opts
  }

  ghost predicate WithOptions(call: Call, opts: UpsertOptions) {
    call.Upsert? ==> call.opts == opts
  }

  /**
   Coherence under every interleaving: a cached entry is the statement any call with
   that slot would build afresh, so a hit and a miss execute the same SQL.
   */
  lemma CachesStayCoherent(
      lib: Library, table: Table, code: set<string>, d: set<string>, steps: seq<Step>, opts: UpsertOptions)
    requires GoodNames(code, d) && RunsOverColumns(code, steps) && OneOptionSet(steps, opts)
    ensures var w := Run(lib, table, START, steps);
            && (forall call :: OverColumns(code, call) && WithOptions(call, opts) && SlotOf(call) in w.cache ==>
                  Fresh(lib, table, call) == Some(w.cache[SlotOf(call)]))
            && (forall i :: 0 <= i < |w.executed| ==>
                  Fresh(lib, table, w.executed[i].0) == Some(w.executed[i].1))
  {
    var w := Run(lib, table, START, steps);
    RunKeepsInv(lib, table, START, steps);
    forall call, entry | OverColumns(code, call) && WithOptions(call, opts) && Accounted(lib, table, w, SlotOf(call), entry)
      ensures Fresh(lib, table, call) == Some(entry)
    {
      var maker :| maker in w.begun && SlotOf(maker) == SlotOf(call) && Fresh(lib, table, maker) == Some(entry);
      SlotsAreInjective(code, d, maker, call);
    }
  }

  /** The account table's caches are coherent: its column names form a decodable code. */
  lemma AccountCachesStayCoherent(lib: Library, table: Table, steps: seq<Step>, opts: UpsertOptions, call: Call)
    requires RunsOverColumns(ACCOUNT_COLUMNS, steps) && OneOptionSet(steps, opts)
    requires OverColumns(ACCOUNT_COLUMNS, call) && WithOptions(call, opts)
    ensures var w := Run(lib, table, START, steps);
            && (SlotOf(call) in w.cache ==> Fresh(lib, table, call) == Some(w.cache[SlotOf(call)]))
            && (forall i :: 0 <= i < |w.executed| ==> Fresh(lib, table, w.executed[i].0) == Some(w.executed[i].1))
  {
    AccountColumnsDecodable();
    CachesStayCoherent(lib, table, ACCOUNT_COLUMNS, {"Verified"}, steps, opts);
  }

  /** Without any assumption on options, inserts and updates still execute what they would build. */
  lemma InsertsAndUpdatesExecuteTheirOwn(
      lib: Library, table: Table, code: set<string>, d: set<string>, steps: seq<Step>, i: nat)
    requires GoodNames(code, d) && RunsOverColumns(code, steps)
    requires i < |Run(lib, table, START, steps).executed|
    ensures var (call, entry) := Run(lib, table, START, steps).executed[i];
            !call.Upsert? ==> Fresh(lib, table, call) == Some(entry)
  {
    var w := Run(lib, table, START, steps);
    RunKeepsInv(lib, table, START, steps);
    var (call, entry) := w.executed[i];
    var maker :| maker in w.begun && SlotOf(maker) == SlotOf(call) && Fresh(lib, table, maker) == Some(entry);
    SlotsAreInjective(code, d, maker, call);
  }

  ghost predicate Serves(lib: Library, table: Table, steps: seq<Step>, call: Call, entry: Entry) {
    exists i :: 0 <= i < |Run(lib, table, START, steps).executed|
                && Run(lib, table, START, steps).executed[i] == (call, entry)
  }

  ghost predicate OnlyCalls(steps: seq<Step>, a: Call, b: Call) {
    forall i :: 0 <= i < |steps| && steps[i].Lookup? ==> steps[i].call == a || steps[i].call == b
  }

  /** One thread makes a call from its lookup to its store; ok says whether the statement runs without an error. */
  function OneCall(call: Call, ok: bool): seq<Step> {
    [Lookup(0, call), Prepare(0), Execute(0, ok), Store(0)]
  }

  function WholeCall(call: Call): seq<Step> {
    OneCall(call, true)
  }

  /** The entry a call executes: the cached one, or else a fresh one if it can be built. */
  function Served(lib: Library, table: Table, cache: Cache, call: Call): Option<Entry> {
    if SlotOf(call) in cache then Some(cache[SlotOf(call)]) else Fresh(lib, table, call)
  }

  lemma {:induction false} RunAppend(lib: Library, table: Table, w: World, xs: seq<Step>, ys: seq<Step>)
    ensures Run(lib, table, w, xs + ys) == Run(lib, table, Run(lib, table, w, xs), ys)
    decreases |xs|
  {
    if xs == [] {
      assert xs + ys == ys;
    } else {
      assert (xs + ys)[0] == xs[0] && (xs + ys)[1..] == xs[1..] + ys;
      RunAppend(lib, table, Next(lib, table, w, xs[0]), xs[1..], ys);
    }
  }

  lemma RunOne(lib: Library, table: Table, w: World, step: Step, rest: seq<Step>)
    ensures Run(lib, table, w, [step] + rest) == Run(lib, table, Next(lib, table, w, step), rest)
  {
    assert ([step] + rest)[1..] == rest;
  }

  /**
   A call of the idle thread 0: it executes the cached entry, or else a fresh one, or
   nothing if that cannot be built; and only a fresh entry whose statement ran is cached,
   in the call's own slot.
   */
  lemma OneCallRuns(lib: Library, table: Table, w: World, call: Call, ok: bool)
    requires 0 !in w.running
    ensures var r, entry := Run(lib, table, w, OneCall(call, ok)), Served(lib, table, w.cache, call);
            && 0 !in r.running
            && r.executed == w.executed + (if entry.Some? then [(call, entry.value)] else [])
            && r.cache == (if SlotOf(call) in w.cache || entry.None? || !ok then w.cache
                           else w.cache[SlotOf(call) := entry.value])
  {
    var w1 := Next(lib, table, w, Lookup(0, call));
    var w2 := Next(lib, table, w1, Prepare(0));
    var w3 := Next(lib, table, w2, Execute(0, ok));
    assert OneCall(call, ok) == [Lookup(0, call)] + ([Prepare(0)] + ([Execute(0, ok)] + ([Store(0)] + [])));
    RunOne(lib, table, w, Lookup(0, call), [Prepare(0)] + ([Execute(0, ok)] + ([Store(0)] + [])));
    RunOne(lib, table, w1, Prepare(0), [Execute(0, ok)] + ([Store(0)] + []));
    RunOne(lib, table, w2, Execute(0, ok), [Store(0)] + []);
    RunOne(lib, table, w3, Store(0), []);
  }

  /** One call to its end, and then the other: the second executes the first's statement if they share a slot. */
  lemma SecondIsServedTheFirst(lib: Library, table: Table, a: Call, b: Call, ea: Entry)
    requires Fresh(lib, table, a) == Some(ea) && SlotOf(a) == SlotOf(b)
    ensures Serves(lib, table, WholeCall(a) + WholeCall(b), b, ea)
  {
    OneCallRuns(lib, table, START, a, true);
    OneCallRuns(lib, table, Run(lib, table, START, WholeCall(a)), b, true);
    RunAppend(lib, table, START, WholeCall(a), WholeCall(b));
    assert Run(lib, table, START, WholeCall(a) + WholeCall(b)).executed[1] == (b, ea);
  }

  ghost predicate Interferes(lib: Library, table: Table, a: Call, b: Call, ea: Entry) {
    exists steps :: OnlyCalls(steps, a, b) && Serves(lib, table, steps, b, ea)
  }

  lemma SharedSlotInterferes(lib: Library, table: Table, a: Call, b: Call, ea: Entry)
    requires Fresh(lib, table, a) == Some(ea) && SlotOf(a) == SlotOf(b)
    ensures Interferes(lib, table, a, b, ea)
  {
    var steps := WholeCall(a) + WholeCall(b);
    SecondIsServedTheFirst(lib, table, a, b, ea);
    assert OnlyCalls(steps, a, b);
  }

  /** Who is served another's statement shares its slot. */
  lemma ServedShareSlot(
      lib: Library, table: Table, steps: seq<Step>, a: Call, b: Call, ea: Entry, eb: Entry)
    requires Fresh(lib, table, a) == Some(ea) && Fresh(lib, table, b) == Some(eb) && ea != eb
    requires OnlyCalls(steps, a, b) && Serves(lib, table, steps, b, ea)
    ensures SlotOf(a) == SlotOf(b)
  {
    RunKeepsInv(lib, table, START, steps);
    var w := Run(lib, table, START, steps);
    var i :| 0 <= i < |w.executed| && w.executed[i] == (b, ea);
    assert Accounted(lib, table, w, SlotOf(b), ea);
    var maker :| maker in w.begun && SlotOf(maker) == SlotOf(b) && Fresh(lib, table, maker) == Some(ea);
    assert LooksUp(steps, maker);
  }

  /**
   The key omits the upsert options. Two calls can interfere exactly when they have the
   same slot and build different statements: then, and only then, some run of the two
   makes one of them execute the other's statement.
   */
  lemma InterferenceIffSlotShared(lib: Library, table: Table, a: Call, b: Call, ea: Entry, eb: Entry)
    requires Fresh(lib, table, a) == Some(ea) && Fresh(lib, table, b) == Some(eb) && ea != eb
    ensures SlotOf(a) == SlotOf(b) <==> Interferes(lib, table, a, b, ea)
  {
    if SlotOf(a) == SlotOf(b) {
      SharedSlotInterferes(lib, table, a, b, ea);
    }
    forall steps | OnlyCalls(steps, a, b) && Serves(lib, table, steps, b, ea)
      ensures SlotOf(a) == SlotOf(b)
    {
      ServedShareSlot(lib, table, steps, a, b, ea, eb);
    }
  }

  /** An upsert that does nothing on a conflict, with a conflict target of its own. */
  function DoNothing(
      conflict: seq<string>, update: Columns, insert: Columns, nzDefaults: seq<string>, target: string): Call
  {
    Call.Upsert(false, conflict, update, insert, nzDefaults, UpsertOptions(target, ""))
  }

  lemma MiddleDiffers(pre: string, s: string, t: string, post: string)
    requires pre + (s + post) == pre + (t + post)
    ensures s == t
  {
    assert (pre + (s + post))[|pre|..] == s + post && (pre + (t + post))[|pre|..] == t + post;
    assert |s| == |t|;
    assert (s + post)[..|s|] == s && (t + post)[..|t|] == t;
  }

  /**
   Calls the code can receive do interfere: two upserts that differ only in their non-empty
   conflict targets share a slot and build different statements, so one of them can be
   made to execute the other's.
   */
  lemma TargetsInterfere(
      lib: Library, table: Table, conflict: seq<string>, update: Columns, insert: Columns, nzDefaults: seq<string>,
      s: string, t: string)
    requires s != "" && t != "" && s != t
    requires Fresh(lib, table, DoNothing(conflict, update, insert, nzDefaults, s)).Some?
    ensures var a, b := DoNothing(conflict, update, insert, nzDefaults, s), DoNothing(conflict, update, insert, nzDefaults, t);
            && SlotOf(a) == SlotOf(b) && Fresh(lib, table, b).Some?
            && Fresh(lib, table, a) != Fresh(lib, table, b)
            && Interferes(lib, table, a, b, Fresh(lib, table, a).value)
  {
    var a, b := DoNothing(conflict, update, insert, nzDefaults, s), DoNothing(conflict, update, insert, nzDefaults, t);
    var wl, up := lib.insertColumnSet(insert, nzDefaults).0, lib.updateColumnSet(update);
    var ret, name := SetComplement(table.columns, SetIntersect(wl, up)), "\"" + table.name + "\"";
    CustomTextStands(name, false, ret, up, conflict, wl, UpsertOptions(s, ""));
    CustomTextStands(name, false, ret, up, conflict, wl, UpsertOptions(t, ""));
    if Fresh(lib, table, a) == Fresh(lib, table, b) {
      MiddleDiffers("INSERT INTO " + (name + (" " + (ColumnsPart(wl, ", ") + " ON CONFLICT "))), s, t,
                    " " + ("DO NOTHING" + ReturningPart(ret, ", ")));
    }
    SharedSlotInterferes(lib, table, a, b, Fresh(lib, table, a).value);
  }

  // ---------------------------------------------------------------- the calls themselves

  /**
   The package-level caches of one table, and the three generated methods that use them,
   each from its lookup to its store with no other thread in between.
   */
  class Caches {
    const lib: Library
    const table: Table
    var entries: Cache

    constructor (lib: Library, table: Table)
      ensures this.lib == lib && this.table == table && entries == map[]
    {
      this.lib, this.table := lib, table;
      entries := map[];
    }

    /** What a call executes, and what it leaves behind; compare OneCallRuns. */
    ghost predicate After(before: Cache, call: Call, ok: bool, executed: Option<Entry>)
      reads this
    {
      var slot := SlotOf(call);
      && executed == Served(lib, table, before, call)
      && entries == (if executed.Some? && ok then before[slot := executed.value] else before)
    }

    method Insert(columns: Columns, nzDefaults: seq<string>, ok: bool) returns (executed: Option<Entry>)
      modifies this
      ensures After(old(entries), Call.Insert(columns, nzDefaults), ok, executed)
    {
      var key := MakeCacheKey(columns, nzDefaults);
      var cached := InsertSlot(key) in entries;
      var cache: Entry;
      if cached {
        cache := entries[InsertSlot(key)];
      } else {
        var (wl, returnColumns) := lib.insertColumnSet(columns, nzDefaults);
        var valueMapping := lib.bindMapping(wl);
        if valueMapping.None? {
          return None;
        }
        var retMapping := lib.bindMapping(returnColumns);
        if retMapping.None? {
          return None;
        }
        cache := Entry(InsertQuery(table.name, wl, returnColumns, |retMapping.value| != 0), valueMapping.value, retMapping.value);
      }
      if ok && !cached {
        entries := entries[InsertSlot(key) := cache];
      }
      return Some(cache);
    }

    method Update(columns: Columns, ok: bool) returns (executed: Option<Entry>)
      modifies this
      ensures After(old(entries), Call.Update(columns), ok, executed)
    {
      var key := MakeCacheKey(columns, []);
      var cached := UpdateSlot(key) in entries;
      var cache: Entry;
      if cached {
        cache := entries[UpdateSlot(key)];
      } else {
        var wl := lib.updateColumnSet(columns);
        if !lib.isWhitelist(columns) {
          wl := SetComplement(wl, ["created_at"]);
        }
        if |wl| == 0 {
          return None;
        }
        var query := "UPDATE \"" + table.name + "\" SET " + lib.setParamNames(wl)
                     + " WHERE " + lib.whereClause(|wl| + 1, table.primaryKey);
        var valueMapping := lib.bindMapping(wl + table.primaryKey);
        if valueMapping.None? {
          return None;
        }
        cache := Entry(query, valueMapping.value, []);
      }
      if ok && !cached {
        entries := entries[UpdateSlot(key) := cache];
      }
      return Some(cache);
    }

    method Upsert(updateOnConflict: bool, conflictColumns: seq<string>, updateColumns: Columns,
                  insertColumns: Columns, nzDefaults: seq<string>, opts: UpsertOptions, ok: bool)
      returns (executed: Option<Entry>)
      modifies this
      ensures After(old(entries),
                    Call.Upsert(updateOnConflict, conflictColumns, updateColumns, insertColumns, nzDefaults, opts),
                    ok, executed)
    {
      var key := MakeUpsertKey(updateOnConflict, conflictColumns, updateColumns, insertColumns, nzDefaults);
      var cached := UpsertSlot(key) in entries;
      var cache: Entry;
      if cached {
        cache := entries[UpsertSlot(key)];
      } else {
        var (insert, _) := lib.insertColumnSet(insertColumns, nzDefaults);
        var update := lib.updateColumnSet(updateColumns);
        if updateOnConflict && |update| == 0 {
          return None;
        }
        var ret := SetComplement(table.columns, SetIntersect(insert, update));
        var conflict := conflictColumns;
        if |conflict| == 0 && updateOnConflict && |update| != 0 {
          if |table.primaryKey| == 0 {
            return None;
          }
          conflict := table.primaryKey;
        }
        var query := BuildUpsertQuery("\"" + table.name + "\"", updateOnConflict, ret, update, conflict, insert, opts);
        var valueMapping := lib.bindMapping(insert);
        if valueMapping.None? {
          return None;
        }
        var retMapping := Some([]);
        if |ret| != 0 {
          retMapping := lib.bindMapping(ret);
          if retMapping.None? {
            return None;
          }
        }
        cache := Entry(query, valueMapping.value, retMapping.value);
      }
      if ok && !cached {
        entries := entries[UpsertSlot(key) := cache];
      }
      return Some(cache);
    }
  }
}

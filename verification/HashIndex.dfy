/** The lookup pepper, its caches, and the lookup_hash columns it determines. */
module HashIndex {
  import opened Common

  /** The columns of either association table that rehashing touches, one entry per row in id order. */
  datatype HashRow = HashRow(tp: Threepid, lookupHash: Option<string>)

  type Table = seq<HashRow>

  const BATCH_SIZE: nat := 500

  /** A row with a missing medium or address is skipped. */
  predicate Broken(tp: Threepid) {
    tp.medium == "" || tp.address == ""
  }

  /** UPDATE ... SET lookup_hash = ? WHERE medium = ? AND address = ? */
  function SetHash(t: Table, tp: Threepid, h: string): Table {
    seq(|t|, i requires 0 <= i < |t| => if t[i].tp == tp then t[i].(lookupHash := Some(h)) else t[i])
  }

  function RehashedRow(lib: Library, pepper: string, r: HashRow): HashRow {
    if Broken(r.tp) then r else r.(lookupHash := Some(LookupHash(lib, r.tp, pepper)))
  }

  function Rehashed(lib: Library, pepper: string, t: Table): Table {
    seq(|t|, i requires 0 <= i < |t| => RehashedRow(lib, pepper, t[i]))
  }

  function Identifiers(t: Table): seq<Threepid> {
    seq(|t|, i requires 0 <= i < |t| => t[i].tp)
  }

  /** hashing_metadata and the two association tables. */
  class Database {
    var pepper: Option<string>
    var local: Table
    var global: Table

    constructor (local: Table, global: Table)
      ensures pepper == None && this.local == local && this.global == global
    {
      pepper, this.local, this.global := None, local, global;
    }
  }

  /** Rows before `done` have been read; a row has its new hash once a row with its identifier was read. */
  predicate PartlyRehashed(lib: Library, pepper: string, before: Table, now: Table, done: nat) {
    && |now| == |before| && done <= |before|
    && (forall i | 0 <= i < |before| :: now[i] == before[i] || now[i] == RehashedRow(lib, pepper, before[i]))
    && (forall i | 0 <= i < done :: now[i] == RehashedRow(lib, pepper, before[i]))
  }

  lemma RehashOne(lib: Library, pepper: string, before: Table, now: Table, done: nat)
    requires PartlyRehashed(lib, pepper, before, now, done) && done < |before|
    ensures now[done].tp == before[done].tp
    ensures var tp := before[done].tp;
            var next := if Broken(tp) then now else SetHash(now, tp, LookupHash(lib, tp, pepper));
            PartlyRehashed(lib, pepper, before, next, done + 1)
  {
  }

  lemma SameIdentifiers(lib: Library, pepper: string, before: Table, now: Table, done: nat)
    requires PartlyRehashed(lib, pepper, before, now, done)
    ensures |now| == |before| && forall i | 0 <= i < |before| :: now[i].tp == before[i].tp
    ensures done == |before| ==> now == Rehashed(lib, pepper, before)
  {
  }

  /** The identifiers of the first n rows. */
  function FirstIdentifiers(t: Table, n: nat): seq<Threepid>
    requires n <= |t|
  {
    Identifiers(t)[..n]
  }

  lemma NextIdentifier(t: Table, n: nat)
    requires n < |t|
    ensures FirstIdentifiers(t, n + 1) == FirstIdentifiers(t, n) + [t[n].tp]
  {
  }

  lemma AllIdentifiers(t: Table)
    ensures FirstIdentifiers(t, 0) == [] && FirstIdentifiers(t, |t|) == Identifiers(t)
  {
  }

  lemma RehashedMeans(lib: Library, pepper: string, table: Table)
    ensures var result, read := Rehashed(lib, pepper, table), Identifiers(table);
            && |result| == |table| == |read|
            && forall i | 0 <= i < |table| ::
                 && read[i] == table[i].tp && result[i].tp == table[i].tp
                 && result[i].lookupHash ==
                      if table[i].tp.medium == "" || table[i].tp.address == "" then table[i].lookupHash
                      else Some(lib.hash(table[i].tp.address + " " + table[i].tp.medium + " " + pepper))
  {
  }

  /** The LIMIT/OFFSET loop over one table: it reads every row exactly once, in id order, and leaves every
      row that is not broken with the hash of its identifier under the new pepper. */
  method RehashThreepids(lib: Library, pepper: string, table: Table) returns (result: Table, read: seq<Threepid>)
    ensures result == Rehashed(lib, pepper, table)
    ensures read == Identifiers(table)
    ensures |result| == |table| == |read|
    ensures forall i | 0 <= i < |table| ::
              && read[i] == table[i].tp && result[i].tp == table[i].tp
              && result[i].lookupHash ==
                   if table[i].tp.medium == "" || table[i].tp.address == "" then table[i].lookupHash
                   else Some(lib.hash(table[i].tp.address + " " + table[i].tp.medium + " " + pepper))
  {
    RehashedMeans(lib, pepper, table);
    result, read := table, [];
    assert PartlyRehashed(lib, pepper, table, result, 0);
    AllIdentifiers(table);
    hide PartlyRehashed, SetHash, Rehashed, RehashedRow, Identifiers, FirstIdentifiers, Broken, LookupHash;
    var count := 0;
    while count < |table|
      invariant 0 <= count <= |table|
      invariant read == FirstIdentifiers(table, count)
      invariant PartlyRehashed(lib, pepper, table, result, count)
    {
      SameIdentifiers(lib, pepper, table, result, count);
      var end := if count + BATCH_SIZE <= |result| then count + BATCH_SIZE else |result|;
      var rows := result[count..end];
      for k := 0 to |rows|
        invariant read == FirstIdentifiers(table, count + k)
        invariant PartlyRehashed(lib, pepper, table, result, count + k)
        invariant forall i | 0 <= i < |rows| :: rows[i].tp == table[count + i].tp
      {
        var tp := rows[k].tp;
        RehashOne(lib, pepper, table, result, count + k);
        NextIdentifier(table, count + k);
        read := read + [tp];
        if !Broken(tp) {
          result := SetHash(result, tp, LookupHash(lib, tp, pepper));
        }
      }
      count := count + |rows|;
    }
    SameIdentifiers(lib, pepper, table, result, count);
  }

  /** Each component holds its own store object over the one database. */
  class HashingMetadataStore {
    const db: Database
    var cached: Option<string>

    constructor (db: Database)
      ensures this.db == db && cached == None
    {
      this.db, cached := db, None;
    }

    method GetLookupPepper() returns (pepper: Option<string>)
      modifies this
      ensures pepper == PepperSeen(old(cached), db.pepper)
      ensures cached == pepper
    {
      if cached.Some? {
        return cached;
      }
      cached := db.pepper;
      return cached;
    }

    method StoreLookupPepper(lib: Library, pepper: string)
      modifies this, db
      ensures db.pepper == cached == Some(pepper)
      ensures db.local == Rehashed(lib, pepper, old(db.local))
      ensures db.global == Rehashed(lib, pepper, old(db.global))
    {
      db.pepper := Some(pepper);
      var local, _ := RehashThreepids(lib, pepper, db.local);
      var global, _ := RehashThreepids(lib, pepper, db.global);
      db.local, db.global := local, global;
      cached := Some(pepper);
    }
  }

  /** What a store object takes the pepper to be. */
  function PepperSeen(cached: Option<string>, stored: Option<string>): Option<string> {
    if cached.Some? then cached else stored
  }

  // ------------------------------------------------------------ whole runs

  /** One server: the database, and the cached pepper of each component's store object. */
  datatype State = State(pepper: Option<string>, local: Table, global: Table, caches: map<nat, string>)

  datatype Step =
    /** Process start: new store objects; `newPepper` is used when the database has no pepper yet. */
    | Start(newPepper: string)
    /** A component reads the pepper. */
    | ReadPepper(component: nat)
    /** A binding is written to the log. */
    | Bind(component: nat, tp: Threepid)
    /** A tombstone is written to the log, without a hash. */
    | Unbind(tp: Threepid)
    /** An association is stored in the global table by a local push or by replication. */
    | Add(component: nat, tp: Threepid)
    | Remove(tp: Threepid)

  function Cached(s: State, component: nat): Option<string> {
    if component in s.caches then Some(s.caches[component]) else None
  }

  function Remember(s: State, component: nat): State {
    match PepperSeen(Cached(s, component), s.pepper)
    case Some(p) => s.(caches := s.caches[component := p])
    case None => s
  }

  function Without(t: Table, tp: Threepid): (rest: Table)
    ensures forall r :: r in rest <==> r in t && r.tp != tp
  {
    if t == [] then [] else
      var rest := Without(t[1..], tp);
      if t[0].tp == tp then rest else [t[0]] + rest
  }

  function Next(lib: Library, s: State, step: Step): State {
    match step
    case Start(newPepper) =>
      if s.pepper.None? || s.pepper.value == ""
      then State(Some(newPepper), Rehashed(lib, newPepper, s.local), Rehashed(lib, newPepper, s.global), map[])
      else s.(caches := map[])
    case ReadPepper(c) => Remember(s, c)
    case Bind(c, tp) =>
      (match PepperSeen(Cached(s, c), s.pepper)
       case Some(p) => Remember(s, c).(local := Without(s.local, tp) + [HashRow(tp, Some(LookupHash(lib, tp, p)))])
       case None => s)
    case Unbind(tp) => s.(local := Without(s.local, tp) + [HashRow(tp, None)])
    case Add(c, tp) =>
      (match PepperSeen(Cached(s, c), s.pepper)
       case Some(p) => Remember(s, c).(global := s.global + [HashRow(tp, Some(LookupHash(lib, tp, p)))])
       case None => s)
    case Remove(tp) => s.(global := Without(s.global, tp))
  }

  function Run(lib: Library, s: State, steps: seq<Step>): State {
    if steps == [] then s else Next(lib, Run(lib, s, steps[..|steps| - 1]), steps[|steps| - 1])
  }

  /** Global rows carry the hash of the stored pepper, log rows that hash or none, and no cache disagrees. */
  predicate Indexed(lib: Library, s: State) {
    && s.pepper.Some?
    && (forall r | r in s.global && r.tp.medium != "" && r.tp.address != "" ::
          r.lookupHash == Some(lib.hash(r.tp.address + " " + r.tp.medium + " " + s.pepper.value)))
    && (forall r | r in s.local && r.tp.medium != "" && r.tp.address != "" ::
          r.lookupHash == None || r.lookupHash == Some(lib.hash(r.tp.address + " " + r.tp.medium + " " + s.pepper.value)))
    && (forall c | c in s.caches :: s.caches[c] == s.pepper.value)
  }

  lemma StartIndexes(lib: Library, s: State, newPepper: string)
    requires newPepper != "" && (s.pepper == None || s.pepper == Some(""))
    ensures Indexed(lib, Next(lib, s, Start(newPepper)))
  {
  }

  lemma StepKeepsIndexed(lib: Library, s: State, step: Step)
    requires Indexed(lib, s) && (step.Start? ==> step.newPepper != "")
    ensures Indexed(lib, Next(lib, s, step))
  {
  }

  /** From any database without a pepper, with whatever rows and hashes, or from one that a server left behind,
      every run that begins with a start keeps the index right and all caches in agreement. */
  lemma {:induction false} IndexedThroughout(lib: Library, s: State, newPepper: string, steps: seq<Step>)
    requires (s.pepper == None || s.pepper == Some("") || Indexed(lib, s)) && newPepper != ""
    requires forall step | step in steps :: step.Start? ==> step.newPepper != ""
    ensures Indexed(lib, Run(lib, Next(lib, s, Start(newPepper)), steps))
  {
    if steps == [] {
      if Indexed(lib, s) { StepKeepsIndexed(lib, s, Start(newPepper)); } else { StartIndexes(lib, s, newPepper); }
    } else {
      IndexedThroughout(lib, s, newPepper, steps[..|steps| - 1]);
      assert steps[|steps| - 1] in steps;
      StepKeepsIndexed(lib, Run(lib, Next(lib, s, Start(newPepper)), steps[..|steps| - 1]), steps[|steps| - 1]);
    }
  }

  /** A start on a database with a pepper forgets the caches and changes nothing else; no other step touches the
      pepper. So in every run after a start the pepper stays what it was. */
  lemma {:induction false} PepperIsKept(lib: Library, s: State, steps: seq<Step>)
    requires s.pepper.Some? && s.pepper.value != ""
    ensures Run(lib, s, steps).pepper == s.pepper
  {
    hide Rehashed, Without, LookupHash;
    if steps != [] { PepperIsKept(lib, s, steps[..|steps| - 1]); }
  }

  /** What each step does to the identifiers of the two tables, when the pepper is known. */
  lemma StepRows(lib: Library, s: State, step: Step)
    requires s.pepper.Some? && s.pepper.value != ""
    ensures var s' := Next(lib, s, step);
            match step
            case Start(_) => s' == s.(caches := map[])
            case ReadPepper(_) => s'.local == s.local && s'.global == s.global
            case Bind(_, tp) =>
              s'.global == s.global && forall x :: HasRow(s'.local, x) <==> x == tp || HasRow(s.local, x)
            case Unbind(tp) =>
              && s'.global == s.global && HashRow(tp, None) in s'.local
              && forall x :: HasRow(s'.local, x) <==> x == tp || HasRow(s.local, x)
            case Add(_, tp) => s'.local == s.local && |s'.global| == |s.global| + 1 && s'.global[..|s.global|] == s.global
                               && s'.global[|s.global|].tp == tp
            case Remove(tp) => s'.local == s.local && forall r :: r in s'.global <==> r in s.global && r.tp != tp
  {
    hide Rehashed, LookupHash;
    match step
    case Bind(c, tp) => AppendedRow(s.local, Next(lib, s, step).local, tp);
    case Unbind(tp) => AppendedRow(s.local, Next(lib, s, step).local, tp);
    case _ =>
  }

  /** What is bound or stored can be found by its hash: the new row has that of address, medium and stored pepper. */
  lemma NewRowsAreFindable(lib: Library, s: State, c: nat, tp: Threepid)
    requires Indexed(lib, s)
    ensures var row := HashRow(tp, Some(lib.hash(tp.address + " " + tp.medium + " " + s.pepper.value)));
            && row in Next(lib, s, Bind(c, tp)).local && row in Next(lib, s, Add(c, tp)).global
            && forall r | r in Next(lib, s, Bind(c, tp)).local && r.tp == tp :: r == row
  {
    hide Rehashed;
    var local, global := Next(lib, s, Bind(c, tp)).local, Next(lib, s, Add(c, tp)).global;
    assert local[|local| - 1] in local && global[|global| - 1] in global;
    assert local == Without(s.local, tp) + [local[|local| - 1]];
  }

  predicate HasRow(t: Table, tp: Threepid) {
    exists r | r in t :: r.tp == tp
  }

  lemma AppendedRow(t: Table, after: Table, tp: Threepid)
    requires after != [] && after[|after| - 1].tp == tp && after[..|after| - 1] == Without(t, tp)
    ensures forall x :: HasRow(after, x) <==> x == tp || HasRow(t, x)
  {
    var last := after[|after| - 1];
    assert after == Without(t, tp) + [last];
    forall x
      ensures HasRow(after, x) <==> x == tp || HasRow(t, x)
    {
      if x != tp && HasRow(t, x) {
        var r :| r in t && r.tp == x;
        assert r in after;
      }
      if x == tp { assert last in after; }
    }
  }

  /** Changing the pepper of a running server leaves the other components' caches behind: a component with an
      old pepper then stores a row the index does not find, exactly when the two peppers hash differently. */
  lemma RotationNeedsRestart(lib: Library, s: State, c: nat, pepper: string, tp: Threepid)
    requires Indexed(lib, s) && c in s.caches && !Broken(tp)
    ensures var rotated := s.(pepper := Some(pepper), local := Rehashed(lib, pepper, s.local),
                              global := Rehashed(lib, pepper, s.global));
            var added := Next(lib, rotated, Add(c, tp));
            (forall r | r in added.global && !Broken(r.tp) :: r.lookupHash == Some(LookupHash(lib, r.tp, pepper)))
            <==> LookupHash(lib, tp, s.pepper.value) == LookupHash(lib, tp, pepper)
  {
    var rotated := s.(pepper := Some(pepper), local := Rehashed(lib, pepper, s.local),
                      global := Rehashed(lib, pepper, s.global));
    var added := Next(lib, rotated, Add(c, tp));
    assert added.global[|added.global| - 1] in added.global;
  }

  // ---------------------------------------------------- the objects of a run

  /** A server process: one database and, for each component that has read the pepper, its store object. */
  class Process {
    const db: Database
    var stores: map<nat, HashingMetadataStore>

    ghost predicate Valid() reads this, stores.Values {
      && (forall c | c in stores :: stores[c].db == db)
      && (forall a, b | a in stores && b in stores && a != b :: stores[a] != stores[b])
    }

    ghost function Caches(): map<nat, string> reads this, stores.Values {
      map c | c in stores && stores[c].cached.Some? :: stores[c].cached.value
    }

    ghost function Current(): State reads this, db, stores.Values {
      State(db.pepper, db.local, db.global, Caches())
    }

    constructor (db: Database)
      ensures Valid() && this.db == db && stores == map[] && Current() == State(db.pepper, db.local, db.global, map[])
    {
      this.db, stores := db, map[];
    }

    /** Sydent.__init__: a pepper is made up and everything rehashed where the database has none. */
    method Begin(lib: Library, newPepper: string)
      requires Valid()
      modifies this, db
      ensures Valid() && fresh(stores.Values - old(stores.Values))
      ensures Current() == Next(lib, old(Current()), Start(newPepper))
    {
      stores := map[];
      var store := new HashingMetadataStore(db);
      var pepper := store.GetLookupPepper();
      if pepper.None? || pepper.value == "" {
        store.StoreLookupPepper(lib, newPepper);
      }
    }

    /** A component's store object is made when it is first needed, with nothing cached. */
    method StoreOf(component: nat) returns (store: HashingMetadataStore)
      requires Valid()
      modifies this
      ensures Valid() && fresh(stores.Values - old(stores.Values))
      ensures component in stores && stores[component] == store && store.db == db
      ensures forall c | c in old(stores) :: c in stores && stores[c] == old(stores[c])
      ensures forall c | c in stores && c != component :: c in old(stores)
      ensures Caches() == old(Caches())
      ensures store.cached == if component in Caches() then Some(Caches()[component]) else None
    {
      if component in stores {
        store := stores[component];
      } else {
        store := new HashingMetadataStore(db);
        stores := stores[component := store];
      }
    }

    method LookupPepper(component: nat) returns (pepper: Option<string>)
      requires Valid()
      modifies this, stores.Values
      ensures Valid() && fresh(stores.Values - old(stores.Values))
      ensures pepper == PepperSeen(Cached(old(Current()), component), old(db.pepper))
      ensures Current() == Remember(old(Current()), component)
    {
      ghost var before := Caches();
      var store := StoreOf(component);
      assert forall c | c in stores && c != component :: stores[c] != store;
      pepper := store.GetLookupPepper();
      ghost var after := if pepper.Some? then before[component := pepper.value] else before;
      forall c
        ensures c in Caches() <==> c in after
        ensures c in after ==> Caches()[c] == after[c]
      {
        if c != component { assert c in Caches() <==> c in before; }
      }
      assert Caches() == after;
    }

    method Perform(lib: Library, step: Step)
      requires Valid()
      modifies this, db, stores.Values
      ensures Valid() && fresh(stores.Values - old(stores.Values))
      ensures Current() == Next(lib, old(Current()), step)
    {
      hide Rehashed, Without, LookupHash, PepperSeen;
      match step {
        case Start(newPepper) => Begin(lib, newPepper);
        case ReadPepper(c) => var _ := LookupPepper(c);
        case Bind(c, tp) =>
          var pepper := LookupPepper(c);
          if pepper.Some? {
            db.local := Without(db.local, tp) + [HashRow(tp, Some(LookupHash(lib, tp, pepper.value)))];
          }
        case Unbind(tp) => db.local := Without(db.local, tp) + [HashRow(tp, None)];
        case Add(c, tp) =>
          var pepper := LookupPepper(c);
          if pepper.Some? {
            db.global := db.global + [HashRow(tp, Some(LookupHash(lib, tp, pepper.value)))];
          }
        case Remove(tp) => db.global := Without(db.global, tp);
      }
    }
  }

  /** A server started on any database without a pepper, or on one that a server left behind, and then put
      through any steps: at the end its hashes and caches agree with the stored pepper. */
  method Operate(lib: Library, db: Database, newPepper: string, steps: seq<Step>) returns (process: Process)
    requires newPepper != "" && forall step | step in steps :: step.Start? ==> step.newPepper != ""
    requires var s := State(db.pepper, db.local, db.global, map[]);
             s.pepper == None || s.pepper == Some("") || Indexed(lib, s)
    modifies db
    ensures process.db == db && process.Valid() && Indexed(lib, process.Current())
  {
    process := new Process(db);
    ghost var s := process.Current();
    process.Begin(lib, newPepper);
    ghost var started := process.Current();
    for n := 0 to |steps|
      invariant process.db == db && process.Valid() && fresh(process) && fresh(process.stores.Values)
      invariant process.Current() == Run(lib, started, steps[..n])
    {
      process.Perform(lib, steps[n]);
      assert steps[..n + 1][..n] == steps[..n];
    }
    assert steps[..|steps|] == steps;
    IndexedThroughout(lib, s, newPepper, steps);
  }
}

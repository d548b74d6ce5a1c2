/** What every run of the mesh guarantees. */
module ClusterTheorems {
  import opened Common
  import opened Associations
  import opened BatchReplay
  import opened Cluster
  import opened ClusterInvariant
  import opened ClusterSteps
  import Lookups
  import Text

  /** The servers are in some state that a run from empty servers reaches. */
  ghost predicate Reaches(w: World, init: Servers, steps: seq<Step>, cl: Servers) {
    ValidLibrary(w.lib) && Initial(init) && cl == Run(w, init, steps)
  }

  lemma ReachesInv(w: World, init: Servers, steps: seq<Step>, cl: Servers)
    requires Reaches(w, init, steps, cl)
    ensures Inv(w, cl) && ValidLibrary(w.lib)
  {
    InitialInv(w, init);
    RunInv(w, init, steps);
  }

  // ------------------------------------------------------------ replication

  /** The table of a server shows one log row of an origin: a binding is stored under (origin, id) and no
      stored row of its identifier is newer; a deleted identifier has no row at all. */
  predicate Shows(rc: Receiver, t: set<GlobalRow>, row: LogRow) {
    && (row.assoc.mxid.Some? ==>
          && Storable(row.assoc) && MakeRow(rc, row) in t
          && forall r | r in t && r.tp == row.assoc.tp :: r.origin.server == rc.origin && r.origin.id <= row.id)
    && (row.assoc.mxid.None? ==> forall r | r in t :: r.tp != row.assoc.tp)
  }

  lemma ReflectedShows(w: World, cl: Servers, s: Server, p: Server, row: LogRow)
    requires Inv(w, cl) && s in cl && p in cl && row in cl[s].log
    requires RowReflected(ReceiverAt(w, cl[p], s), row, cl[p].global)
    ensures Shows(ReceiverAt(w, cl[p], s), cl[p].global, row)
  {
    hide PeerOk;
    assert NodeOk(w, cl, s, cl[s]) && WellFormed(w, s, row.assoc);
    forall r | r in cl[p].global && r.tp == row.assoc.tp
      ensures r.origin.server == s && r.origin.id <= row.id
    {
      OriginIsOwner(w, cl, p, r);
      var x :| x in cl[s].log && x.assoc.tp == r.tp && x.id >= r.origin.id;
      OnlyRow(cl[s].log, x, row);
    }
  }

  /** In every run, each log row up to a peer's cursor is shown at that peer. */
  lemma PeerShowsAcknowledgedRows(w: World, init: Servers, steps: seq<Step>, cl: Servers, s: Server, p: Server)
    requires Reaches(w, init, steps, cl) && s in cl && p in cl && s != p
    ensures forall row | row in cl[s].log && row.id <= Cursor(cl[s], p) :: Shows(ReceiverAt(w, cl[p], s), cl[p].global, row)
  {
    ReachesInv(w, init, steps, cl);
    assert PeerOk(w, s, cl[s], p, cl[p]);
    forall row | row in cl[s].log && row.id <= Cursor(cl[s], p)
      ensures Shows(ReceiverAt(w, cl[p], s), cl[p].global, row)
    {
      ReflectedShows(w, cl, s, p, row);
    }
  }

  /** In every run, every stored row is filed under the server that owns its identifier, repeats what that
      server once logged under that id, and carries the lookup hash of the storing server's own pepper. */
  lemma StoredRowsAreGenuine(w: World, init: Servers, steps: seq<Step>, cl: Servers, p: Server, r: GlobalRow)
    requires Reaches(w, init, steps, cl) && p in cl && r in cl[p].global
    ensures r.origin.server == w.owner(r.tp) && r.origin.server in cl
    ensures var h := cl[r.origin.server].history;
            && r.origin.id in h && h[r.origin.id].tp == r.tp
            && h[r.origin.id].mxid == Some(r.mxid) && h[r.origin.id].ts == r.ts
    ensures r.lookupHash == w.lib.hash(r.tp.address + " " + r.tp.medium + " " + cl[p].pepper)
  {
    ReachesInv(w, init, steps, cl);
    OriginIsOwner(w, cl, p, r);
    assert NodeOk(w, cl, p, cl[p]);
    var o := r.origin.server;
    assert NodeOk(w, cl, o, cl[o]) && WellFormed(w, o, cl[o].history[r.origin.id]);
  }

  /** In every run, the batch of a push in flight is one that the replay rules fit. */
  lemma FlightReplayable(w: World, init: Servers, steps: seq<Step>, cl: Servers, s: Server, p: Server)
    requires Reaches(w, init, steps, cl) && s in cl && p in cl && s != p && p in cl[s].flight
    ensures var rc, batch := ReceiverAt(w, cl[p], s), cl[s].flight[p].batch;
            SortById(batch) == batch && Separate(rc, batch) && Agrees(rc, cl[p].global, batch)
  {
    ReachesInv(w, init, steps, cl);
    hide NodeOk, PeerOk, Replay, SortById, Separate, Agrees;
    var batch := cl[s].flight[p].batch;
    FlightFromHistory(w, cl, s, p);
    SortedAlready(batch);
    LogOkAt(w, cl, s);
    BatchSeparate(w, s, cl[s], ReceiverAt(w, cl[p], s), batch);
    BatchAgrees(w, cl, s, p, batch);
  }

  /** In every run, whatever part of a pushed batch the peer keeps when a push fails, replaying the whole batch
      afterwards gives the table that one complete replay would have given. */
  lemma FailedPushThenResend(w: World, init: Servers, steps: seq<Step>, cl: Servers, s: Server, p: Server, fails: set<nat>)
    requires Reaches(w, init, steps, cl) && s in cl && p in cl && s != p && p in cl[s].flight
    ensures var rc, t, items := ReceiverAt(w, cl[p], s), cl[p].global, SortById(cl[s].flight[p].batch);
            Replay(rc, Replay(rc, t, items[..CommittedLength(items, fails)]), items) == Replay(rc, t, items)
  {
    hide Reaches, Replay, SortById, Separate, Agrees;
    var batch := cl[s].flight[p].batch;
    FlightReplayable(w, init, steps, cl, s, p);
    ResendConverges(ReceiverAt(w, cl[p], s), cl[p].global, batch, CommittedLength(batch, fails));
  }

  /** In every run, for every push in flight that the peer has not handled and every set of failures, handling
      it leaves the peer's table as it was, or as a complete replay makes it, exactly when that table already
      says what the kept items say or what the lost items say. */
  lemma DeliveryAllOrNothingIff(w: World, init: Servers, steps: seq<Step>, cl: Servers, s: Server, p: Server, fails: set<nat>)
    requires Reaches(w, init, steps, cl) && s in cl && p in cl && s != p && p in cl[s].flight && cl[s].flight[p].Sent?
    ensures var rc, t, items := ReceiverAt(w, cl[p], s), cl[p].global, cl[s].flight[p].batch;
            var n, cl' := CommittedLength(items, fails), Next(w, cl, Deliver(s, p, fails));
            p in cl' && (cl'[p].global in {t, Replay(rc, t, items)} <==>
                         (AlreadySaid(rc, t, items[..n]) || AlreadySaid(rc, t, items[n..])))
  {
    hide Reaches, Replay, SortById, Separate, Agrees, AlreadySaid;
    FlightReplayable(w, init, steps, cl, s, p);
    AllOrNothingIff(ReceiverAt(w, cl[p], s), cl[p].global, cl[s].flight[p].batch, fails);
  }

  lemma FlightFromHistory(w: World, cl: Servers, s: Server, p: Server)
    requires Inv(w, cl) && s in cl && p in cl && s != p && p in cl[s].flight
    ensures var batch := cl[s].flight[p].batch;
            && Ascending(batch) && OneRowPerThreepid(batch)
            && forall x | x in batch :: x.id in cl[s].history && cl[s].history[x.id] == x.assoc
  {
    hide NodeOk;
    assert PeerOk(w, s, cl[s], p, cl[p]);
  }

  // --------------------------------------------------------------- lookups

  /** The answer that the log's row calls for: a binding is good for 100 years of 365 days. */
  function Expected(row: LogRow, now: int): Option<string> {
    if row.assoc.mxid.Some? && now < row.assoc.ts + 3_153_600_000_000 then row.assoc.mxid else None
  }

  /** Earlier associations of the row's identifier have a smaller timestamp. */
  predicate LatestTimestamp(n: Node, row: LogRow) {
    forall i | i in n.history && i < row.id && n.history[i].tp == row.assoc.tp :: n.history[i].ts < row.assoc.ts
  }

  /** The row is past its local push (p == s) or past the peer's cursor. */
  predicate Delivered(cl: Servers, s: Server, p: Server, row: LogRow)
    requires s in cl
  {
    row.id <= if p == s then cl[s].copied else Cursor(cl[s], p)
  }

  lemma DeliveredShows(w: World, cl: Servers, s: Server, p: Server, row: LogRow)
    requires Inv(w, cl) && s in cl && p in cl && row in cl[s].log && Delivered(cl, s, p, row)
    ensures Shows(ReceiverAt(w, cl[p], s), cl[p].global, row)
  {
    if p == s { assert NodeOk(w, cl, s, cl[s]); } else { assert PeerOk(w, s, cl[s], p, cl[p]); }
    ReflectedShows(w, cl, s, p, row);
  }

  /** Stored addresses have no upper-case ASCII letter, so a variant of one lower-cases to it. */
  lemma RowVariant(w: World, cl: Servers, s: Server, row: LogRow, address: string)
    requires Inv(w, cl) && s in cl && row in cl[s].log && CaseVariant(address, row.assoc.tp.address)
    ensures Lower(address) == row.assoc.tp.address
  {
    hide Inv, Lower, CaseVariant;
    RowIsFolded(w, cl, s, row);
    LowerEqualIff(address, row.assoc.tp.address);
  }

  /** Which stored rows a query for the row's identifier can see: those of the identifier itself, each an
      earlier or the current association, valid from its timestamp on for the fixed lifetime. */
  lemma VisibleRows(w: World, cl: Servers, s: Server, p: Server, row: LogRow, address: string, now: int, r: GlobalRow)
    requires Inv(w, cl) && s in cl && p in cl && row in cl[s].log && Shows(ReceiverAt(w, cl[p], s), cl[p].global, row)
    requires Lower(address) == row.assoc.tp.address && r in cl[p].global
    ensures ValidFor(r, row.assoc.tp.medium, address, now) <==>
            (r.tp == row.assoc.tp && r.ts < now < r.ts + THREEPID_ASSOCIATION_LIFETIME_MS)
    ensures r.tp == row.assoc.tp ==>
              && row.assoc.mxid.Some? && r.origin.server == s && r.origin.id <= row.id
              && r.origin.id in cl[s].history && cl[s].history[r.origin.id].tp == row.assoc.tp
              && cl[s].history[r.origin.id].ts == r.ts
              && (r.origin.id == row.id ==> r == MakeRow(ReceiverAt(w, cl[p], s), row))
  {
    hide PeerOk;
    OriginIsOwner(w, cl, p, r);
    assert NodeOk(w, cl, p, cl[p]) && NodeOk(w, cl, s, cl[s]);
    var o := r.origin.server;
    assert NodeOk(w, cl, o, cl[o]) && WellFormed(w, o, cl[o].history[r.origin.id]);
  }

  /** In every run, a lookup at the origin after its local push, or at any peer whose cursor has passed the
      row, gives the log's current mxid and nothing else, whatever old rows the table still holds. */
  lemma LookupAgreesWithLog(w: World, init: Servers, steps: seq<Step>, cl: Servers, s: Server, p: Server,
                            row: LogRow, address: string, now: int)
    requires Reaches(w, init, steps, cl) && s in cl && p in cl && row in cl[s].log && Delivered(cl, s, p, row)
    requires LatestTimestamp(cl[s], row) && row.assoc.ts < now && CaseVariant(address, row.assoc.tp.address)
    ensures forall answer ::
              Answers(cl[p].global, row.assoc.tp.medium, address, now, answer) <==> answer == Expected(row, now)
  {
    ReachesInv(w, init, steps, cl);
    DeliveredShows(w, cl, s, p, row);
    RowVariant(w, cl, s, row, address);
    hide Lower, CaseVariant;
    var t, medium := cl[p].global, row.assoc.tp.medium;
    forall r | r in t && ValidFor(r, medium, address, now)
      ensures Expected(row, now).Some? && r.ts <= row.assoc.ts
      ensures r.ts == row.assoc.ts ==> Some(r.mxid) == row.assoc.mxid
    {
      VisibleRows(w, cl, s, p, row, address, now, r);
    }
    if Expected(row, now).Some? {
      var current := MakeRow(ReceiverAt(w, cl[p], s), row);
      VisibleRows(w, cl, s, p, row, address, now, current);
      assert current in t && ValidFor(current, medium, address, now);
    }
  }

  predicate Writes(step: Step, s: Server) {
    step.s == s && (step.Bind? || step.Unbind?)
  }

  /** Each bind or unbind at the server is later than the ones before it. */
  predicate ClockAdvances(steps: seq<Step>, s: Server) {
    forall i, j | 0 <= i < j < |steps| && Writes(steps[i], s) && Writes(steps[j], s) :: steps[i].now < steps[j].now
  }

  predicate WrittenAt(steps: seq<Step>, s: Server, ts: int) {
    exists k | 0 <= k < |steps| :: Writes(steps[k], s) && steps[k].now == ts
  }

  /** Ids and timestamps of a history go up together, and every timestamp is that of some write of the run. */
  predicate InOrder(n: Node, steps: seq<Step>, s: Server) {
    && (forall i | i in n.history :: i < n.nextId && WrittenAt(steps, s, n.history[i].ts))
    && (forall i, j | i in n.history && j in n.history && i < j :: n.history[i].ts < n.history[j].ts)
  }

  lemma StepWrites(w: World, cl: Servers, step: Step, s: Server)
    requires s in cl
    ensures var cl' := Next(w, cl, step);
            && s in cl'
            && ((cl'[s].history == cl[s].history && cl'[s].nextId == cl[s].nextId)
                || (Writes(step, s) && exists a: Assoc | a.ts == step.now ::
                      cl'[s].history == cl[s].history[cl[s].nextId := a] && cl'[s].nextId == cl[s].nextId + 1))
  {
    hide Replay, SelectAfter, SortById, FirstFailure, LastIdFrom;
    if Writes(step, s) {
      var a := if step.Bind? then BindAssoc(Normalise(w.lib, step.tp), step.mxid, step.now)
               else Tombstone(Normalise(w.lib, step.tp), step.now);
      assert a.ts == step.now;
    }
  }

  /** Earlier writes are still writes of the longer run, and the last step, if it writes, is later. */
  lemma LastWrite(steps: seq<Step>, s: Server, ts: int)
    requires steps != [] && ClockAdvances(steps, s) && WrittenAt(steps[..|steps| - 1], s, ts)
    ensures WrittenAt(steps, s, ts) && (Writes(steps[|steps| - 1], s) ==> ts < steps[|steps| - 1].now)
  {
    var front := steps[..|steps| - 1];
    var k :| 0 <= k < |front| && Writes(front[k], s) && front[k].now == ts;
    assert steps[k] == front[k];
  }

  lemma OrderStep(n: Node, n': Node, steps: seq<Step>, s: Server)
    requires steps != [] && ClockAdvances(steps, s) && InOrder(n, steps[..|steps| - 1], s)
    requires (n'.history == n.history && n'.nextId == n.nextId)
             || (Writes(steps[|steps| - 1], s) && exists a: Assoc | a.ts == steps[|steps| - 1].now ::
                   n'.history == n.history[n.nextId := a] && n'.nextId == n.nextId + 1)
    ensures InOrder(n', steps, s)
  {
    var last := steps[|steps| - 1];
    hide ClockAdvances, WrittenAt;
    forall i | i in n.history
      ensures WrittenAt(steps, s, n.history[i].ts) && (Writes(last, s) ==> n.history[i].ts < last.now)
    {
      LastWrite(steps, s, n.history[i].ts);
    }
    if Writes(last, s) { WrittenLast(steps, s); }
  }

  lemma WrittenLast(steps: seq<Step>, s: Server)
    requires steps != [] && Writes(steps[|steps| - 1], s)
    ensures WrittenAt(steps, s, steps[|steps| - 1].now)
  {
  }

  lemma {:induction false} HistoryInOrder(w: World, init: Servers, steps: seq<Step>, s: Server)
    requires Initial(init) && s in init && ClockAdvances(steps, s)
    ensures s in Run(w, init, steps) && InOrder(Run(w, init, steps)[s], steps, s)
  {
    if steps != [] {
      var front, last := steps[..|steps| - 1], steps[|steps| - 1];
      HistoryInOrder(w, init, front, s);
      hide Next, InOrder, Initial;
      StepWrites(w, Run(w, init, front), last, s);
      OrderStep(Run(w, init, front)[s], Run(w, init, steps)[s], steps, s);
    }
  }

  /** In every run in which the origin's clock advances between its binds and unbinds, a lookup made later
      than all of them gives the log's current mxid wherever the row has been delivered. */
  lemma LookupInEveryRun(w: World, init: Servers, steps: seq<Step>, cl: Servers, s: Server, p: Server,
                         row: LogRow, address: string, now: int)
    requires Reaches(w, init, steps, cl) && s in init && s in cl && p in cl && row in cl[s].log && Delivered(cl, s, p, row)
    requires ClockAdvances(steps, s) && forall k | 0 <= k < |steps| && Writes(steps[k], s) :: steps[k].now < now
    requires CaseVariant(address, row.assoc.tp.address)
    ensures forall answer ::
              Answers(cl[p].global, row.assoc.tp.medium, address, now, answer) <==> answer == Expected(row, now)
  {
    HistoryInOrder(w, init, steps, s);
    ReachesInv(w, init, steps, cl);
    LogOkAt(w, cl, s);
    hide Inv, Run, Lower, Answers;
    assert row.id in cl[s].history && WrittenAt(steps, s, cl[s].history[row.id].ts);
    LookupAgreesWithLog(w, init, steps, cl, s, p, row, address, now);
  }

  /** When the origin's clock may repeat a millisecond (but never goes back), the lookup is certain to give
      the log's mxid exactly when no stored row of the identifier from that millisecond names another user. */
  lemma LookupCertainIff(w: World, init: Servers, steps: seq<Step>, cl: Servers, s: Server, p: Server,
                         row: LogRow, address: string, now: int)
    requires Reaches(w, init, steps, cl) && s in cl && p in cl && row in cl[s].log && Delivered(cl, s, p, row)
    requires forall i | i in cl[s].history && i < row.id && cl[s].history[i].tp == row.assoc.tp ::
               cl[s].history[i].ts <= row.assoc.ts
    requires row.assoc.mxid.Some? && row.assoc.ts < now < row.assoc.ts + THREEPID_ASSOCIATION_LIFETIME_MS
    requires CaseVariant(address, row.assoc.tp.address)
    ensures (forall answer | Answers(cl[p].global, row.assoc.tp.medium, address, now, answer) :: answer == row.assoc.mxid)
       <==> (forall r | r in cl[p].global && r.tp == row.assoc.tp && r.ts == row.assoc.ts :: Some(r.mxid) == row.assoc.mxid)
  {
    ReachesInv(w, init, steps, cl);
    DeliveredShows(w, cl, s, p, row);
    RowVariant(w, cl, s, row, address);
    hide Lower, CaseVariant;
    var t, medium := cl[p].global, row.assoc.tp.medium;
    forall r | r in t
      ensures ValidFor(r, medium, address, now) <==>
              (r.tp == row.assoc.tp && r.ts < now < r.ts + THREEPID_ASSOCIATION_LIFETIME_MS)
      ensures r.tp == row.assoc.tp ==> r.ts <= row.assoc.ts
    {
      VisibleRows(w, cl, s, p, row, address, now, r);
    }
    var current := MakeRow(ReceiverAt(w, cl[p], s), row);
    VisibleRows(w, cl, s, p, row, address, now, current);
    forall r | r in t && r.tp == row.assoc.tp && r.ts == row.assoc.ts
      ensures Answers(t, medium, address, now, Some(r.mxid))
    {
      assert ValidFor(r, medium, address, now);
    }
  }

  /** In every run, a hashed lookup by a client that hashes address, medium and pepper, for a delivered binding, gives the log's mxid exactly when no valid stored row
      of the identifier names a user that is greater in text order. */
  lemma HashedAgreesWithLogIff(w: World, init: Servers, steps: seq<Step>, cl: Servers, s: Server, p: Server, row: LogRow,
                               hashes: seq<string>, h: string, now: int, results: map<string, string>)
    requires Reaches(w, init, steps, cl) && s in cl && p in cl && row in cl[s].log && Delivered(cl, s, p, row)
    requires LatestTimestamp(cl[s], row) && row.assoc.mxid.Some?
    requires row.assoc.ts < now < row.assoc.ts + THREEPID_ASSOCIATION_LIFETIME_MS
    requires h == w.lib.hash(row.assoc.tp.address + " " + row.assoc.tp.medium + " " + cl[p].pepper) && h in hashes
    requires forall r | r in cl[p].global ::
               w.lib.hash(r.tp.address + " " + r.tp.medium + " " + cl[p].pepper) == h ==> r.tp == row.assoc.tp
    requires Lookups.HashAnswer(results, cl[p].global, hashes, now)
    ensures h in results
    ensures results[h] == row.assoc.mxid.value <==>
            forall r | r in cl[p].global && Lookups.ValidAt(r, now) && r.tp == row.assoc.tp ::
              Text.TextLe(r.mxid, row.assoc.mxid.value)
  {
    hide Inv, Reaches, Delivered, Lower, Lookups.HashAnswer;
    var t, tp := cl[p].global, row.assoc.tp;
    ReachesInv(w, init, steps, cl);
    DeliveredShows(w, cl, s, p, row);
    RowIsFolded(w, cl, s, row);
    var current := MakeRow(ReceiverAt(w, cl[p], s), row);
    forall r | r in t
      ensures r.lookupHash == w.lib.hash(r.tp.address + " " + r.tp.medium + " " + cl[p].pepper)
      ensures r.tp == tp ==> r.ts <= row.assoc.ts
    {
      StoredRowsAreGenuine(w, init, steps, cl, p, r);
      VisibleRows(w, cl, s, p, row, tp.address, now, r);
    }
    assert Lookups.HashNames(t, h, tp);
    VisibleRows(w, cl, s, p, row, tp.address, now, current);
    assert ValidFor(current, tp.medium, tp.address, now);
    assert current in t && current.tp == tp && Lookups.Newest(t, now, current);
    Lookups.HashedIsNewestIff(results, t, hashes, now, h, current);
  }

  lemma RowIsFolded(w: World, cl: Servers, s: Server, row: LogRow)
    requires Inv(w, cl) && s in cl && row in cl[s].log
    ensures Lower(row.assoc.tp.address) == row.assoc.tp.address && Normalise(w.lib, row.assoc.tp) == row.assoc.tp
  {
    hide PeerOk;
    assert NodeOk(w, cl, s, cl[s]) && WellFormed(w, s, row.assoc);
  }

  // ------------------------------------------------------------ local copy

  /** Replaying rows that are already shown changes nothing. */
  lemma ReplayIsNoOp(w: World, cl: Servers, s: Server, items: Log)
    requires Inv(w, cl) && s in cl && Ascending(items) && OneRowPerThreepid(items)
    requires forall x | x in items :: x in cl[s].log && x.id <= cl[s].copied
    ensures Replay(ReceiverAt(w, cl[s], s), cl[s].global, items) == cl[s].global
  {
    hide PeerOk;
    var rc, t := ReceiverAt(w, cl[s], s), cl[s].global;
    assert NodeOk(w, cl, s, cl[s]);
    BatchSeparate(w, s, cl[s], rc, items);
    BatchAgrees(w, cl, s, s, items);
    ReplayClosedForm(rc, t, items);
    forall x | x in items
      ensures RowReflected(rc, x, t) && Normalise(rc.lib, x.assoc.tp) == x.assoc.tp
    {
    }
    assert forall r | Carries(rc, items, r) :: r in t;
    assert forall r | r in t :: !Clears(rc, items, r.tp);
  }

  lemma WindowInLog(w: World, cl: Servers, s: Server, after: int, limit: nat)
    requires Inv(w, cl) && s in cl
    ensures var batch := Window(cl[s].log, after, limit);
            Ascending(batch) && OneRowPerThreepid(batch) && forall x | x in batch :: x in cl[s].log
  {
    LogOkAt(w, cl, s);
    hide NodeOk, PeerOk;
    WindowComplete(cl[s].log, after, limit);
  }

  /** Own rows that are replayed before new ones make no difference where they were copied before. */
  lemma OnlyNewRowsCount(w: World, cl: Servers, s: Server, items: Log)
    requires Inv(w, cl) && s in cl && Ascending(items) && OneRowPerThreepid(items)
    requires forall x | x in items :: x in cl[s].log
    ensures var rc, t := ReceiverAt(w, cl[s], s), cl[s].global;
            Replay(rc, t, items) == Replay(rc, t, SelectAfter(items, cl[s].copied))
  {
    hide Inv, Replay, SelectAfter;
    var k := SplitAtCursor(items, cl[s].copied);
    PrefixInOrder(items, k);
    hide Ascending, OneRowPerThreepid;
    assert items[..k] + items[k..] == items;
    ReplayIsNoOp(w, cl, s, items[..k]);
    ReplayAppend(ReceiverAt(w, cl[s], s), cl[s].global, items[..k], items[k..]);
  }

  lemma PrefixInOrder(rows: Log, k: nat)
    requires Ascending(rows) && OneRowPerThreepid(rows) && k <= |rows|
    ensures Ascending(rows[..k]) && OneRowPerThreepid(rows[..k])
  {
  }

  /** A local push restarts after the largest own originId, which deletions can lower, so it may handle rows a
      second time, before the new ones. In every run, a push that is cut short after any number of rows does
      what it would have done had it been given only the rows that were never copied; so a complete push
      replays the log after the highest id ever copied, wherever it restarts. */
  lemma LocalReplayHarmless(w: World, init: Servers, steps: seq<Step>, cl: Servers, s: Server, rows: nat)
    requires Reaches(w, init, steps, cl) && s in cl
    ensures var n, rc, last := cl[s], ReceiverAt(w, cl[s], s), LastIdFrom(cl[s].global, s);
            && last <= n.copied
            && Replay(rc, n.global, Window(n.log, last, rows))
               == Replay(rc, n.global, SelectAfter(Window(n.log, last, rows), n.copied))
            && Replay(rc, n.global, SelectAfter(n.log, last)) == Replay(rc, n.global, SelectAfter(n.log, n.copied))
  {
    hide Reaches, Inv, Replay, Ascending, OneRowPerThreepid, LastIdFrom, SelectAfter, Window;
    ReachesInv(w, init, steps, cl);
    var n, last := cl[s], LastIdFrom(cl[s].global, s);
    LastOwnCopied(w, cl, s);
    WindowInLog(w, cl, s, last, rows);
    OnlyNewRowsCount(w, cl, s, Window(n.log, last, rows));
    LogOkAt(w, cl, s);
    SelectAfterKeepsOrder(n.log, last);
    OnlyNewRowsCount(w, cl, s, SelectAfter(n.log, last));
    SelectAfterTwice(n.log, last, n.copied);
  }

  /** In every run, a local push that is not cut short misses no row: the server then shows its whole log. */
  lemma LocalPushComplete(w: World, init: Servers, steps: seq<Step>, cl: Servers, s: Server, rows: nat)
    requires Reaches(w, init, steps, cl) && s in cl
    requires rows >= |SelectAfter(cl[s].log, LastIdFrom(cl[s].global, s))|
    ensures var cl' := Next(w, cl, CopyLocally(s, rows));
            && (forall row | row in cl'[s].log :: row.id <= cl'[s].copied)
            && (forall row | row in cl'[s].log :: Shows(ReceiverAt(w, cl'[s], s), cl'[s].global, row))
  {
    ReachesInv(w, init, steps, cl);
    hide Inv, Next, CopyRows, Reaches, SelectAfter, Shows;
    CopyCoversLog(w, cl, s, rows);
    CopyStep(w, cl, s, rows);
    var cl' := Next(w, cl, CopyLocally(s, rows));
    StepInv(w, cl, CopyLocally(s, rows));
    forall row | row in cl'[s].log
      ensures Shows(ReceiverAt(w, cl'[s], s), cl'[s].global, row)
    {
      DeliveredShows(w, cl', s, s, row);
    }
  }

  lemma CopyCoversLog(w: World, cl: Servers, s: Server, rows: nat)
    requires Inv(w, cl) && s in cl && rows >= |SelectAfter(cl[s].log, LastIdFrom(cl[s].global, s))|
    ensures CopyRows(w, s, cl[s], rows).log == cl[s].log
    ensures forall row | row in cl[s].log :: row.id <= CopyRows(w, s, cl[s], rows).copied
  {
    var n, last := cl[s], LastIdFrom(cl[s].global, s);
    LastOwnCopied(w, cl, s);
    LogOkAt(w, cl, s);
    hide Inv, Replay, SelectAfter, LastIdFrom, Ascending, OneRowPerThreepid, CopyRows;
    var done := SelectAfter(n.log, last);
    SelectAfterKeepsOrder(n.log, last);
    CopyAll(w, s, n, rows);
    forall row | row in n.log
      ensures row.id <= CopyRows(w, s, n, rows).copied
    {
      if row.id > last { WithinBatch(done, row); }
    }
  }

  lemma CopyAll(w: World, s: Server, n: Node, rows: nat)
    requires rows >= |SelectAfter(n.log, LastIdFrom(n.global, s))|
    ensures var done, n' := SelectAfter(n.log, LastIdFrom(n.global, s)), CopyRows(w, s, n, rows);
            && n'.log == n.log && n'.copied >= n.copied
            && (done != [] ==> n'.copied >= LastOf(done))
  {
  }

  /** The id that a local push starts after has been copied. */
  lemma LastOwnCopied(w: World, cl: Servers, s: Server)
    requires Inv(w, cl) && s in cl
    ensures LastIdFrom(cl[s].global, s) <= cl[s].copied
  {
    hide PeerOk;
    assert NodeOk(w, cl, s, cl[s]);
  }

  // ------------------------------------------------------------ convergence

  /** One push that the peer accepts and whose answer arrives. */
  function Round(s: Server, p: Server): seq<Step> {
    [StartPush(s, p), Deliver(s, p, {}), Acknowledge(s, p)]
  }

  function Rounds(s: Server, p: Server, k: nat): seq<Step> {
    if k == 0 then [] else Rounds(s, p, k - 1) + Round(s, p)
  }

  function Backlog(n: Node, p: Server): nat {
    |SelectAfter(n.log, Cursor(n, p))|
  }

  lemma RunRound(w: World, cl: Servers, s: Server, p: Server)
    ensures Run(w, cl, Round(s, p)) ==
            Next(w, Next(w, Next(w, cl, StartPush(s, p)), Deliver(s, p, {})), Acknowledge(s, p))
  {
    hide Next;
    var steps := Round(s, p);
    assert steps[..2] == [StartPush(s, p), Deliver(s, p, {})];
    assert steps[..2][..1] == [StartPush(s, p)];
    assert steps[..1][..0] == [];
    assert Run(w, cl, []) == cl;
    assert Run(w, cl, [StartPush(s, p)]) == Next(w, cl, StartPush(s, p));
    assert Run(w, cl, steps[..2]) == Next(w, Next(w, cl, StartPush(s, p)), Deliver(s, p, {}));
  }

  /** A successful round takes up to 100 rows off the backlog and leaves the log alone. */
  lemma RoundShrinks(w: World, cl: Servers, s: Server, p: Server)
    requires Inv(w, cl) && s in cl && p in cl && s != p && p !in cl[s].flight
    ensures var cl' := Run(w, cl, Round(s, p));
            && s in cl' && p in cl' && p !in cl'[s].flight && cl'[s].log == cl[s].log
            && Backlog(cl'[s], p) == (if Backlog(cl[s], p) <= ASSOCIATIONS_PUSH_LIMIT then 0
                                      else Backlog(cl[s], p) - ASSOCIATIONS_PUSH_LIMIT)
  {
    hide NodeOk, PeerOk, Replay, SelectAfter, SortById, FirstFailure;
    RunRound(w, cl, s, p);
    LogOkAt(w, cl, s);
    var n := cl[s];
    var batch := Window(n.log, Cursor(n, p), ASSOCIATIONS_PUSH_LIMIT);
    WindowComplete(n.log, Cursor(n, p), ASSOCIATIONS_PUSH_LIMIT);
    if batch != [] {
      var cl1 := cl[s := n.(flight := n.flight[p := Sent(batch)])];
      assert Next(w, cl, StartPush(s, p)) == cl1;
      SortedAlready(batch);
      NoFailure(batch);
      var cl2 := Store(w, cl1, s, p, batch, Accepted(batch));
      assert batch[..|batch|] == batch;
      assert Next(w, cl1, Deliver(s, p, {})) == cl2;
      assert cl2[s].flight[p] == Accepted(batch) && cl2[s].log == n.log;
      BacklogShrinks(n.log, Cursor(n, p), ASSOCIATIONS_PUSH_LIMIT);
    }
  }

  lemma {:induction false} BacklogAfter(w: World, cl: Servers, s: Server, p: Server, k: nat)
    requires ValidLibrary(w.lib) && Inv(w, cl) && s in cl && p in cl && s != p && p !in cl[s].flight
    ensures var cl' := Run(w, cl, Rounds(s, p, k));
            && Inv(w, cl') && s in cl' && p in cl' && p !in cl'[s].flight && cl'[s].log == cl[s].log
            && Backlog(cl'[s], p) == (if Backlog(cl[s], p) <= k * ASSOCIATIONS_PUSH_LIMIT then 0
                                      else Backlog(cl[s], p) - k * ASSOCIATIONS_PUSH_LIMIT)
  {
    hide NodeOk, PeerOk, SelectAfter, Next;
    RunInv(w, cl, Rounds(s, p, k));
    if k > 0 {
      BacklogAfter(w, cl, s, p, k - 1);
      RunAppend(w, cl, Rounds(s, p, k - 1), Round(s, p));
      RoundShrinks(w, Run(w, cl, Rounds(s, p, k - 1)), s, p);
    }
  }

  lemma RoundsConverge(w: World, cl: Servers, s: Server, p: Server, k: nat)
    requires ValidLibrary(w.lib) && Inv(w, cl) && s in cl && p in cl && s != p && p !in cl[s].flight
    requires k == (Backlog(cl[s], p) + 99) / 100
    ensures var cl' := Run(w, cl, Rounds(s, p, k));
            && (forall j | 0 <= j < k ::
                  s in Run(w, cl, Rounds(s, p, j)) && Backlog(Run(w, cl, Rounds(s, p, j))[s], p) > 0)
            && s in cl' && p in cl' && cl'[s].log == cl[s].log
            && (forall row | row in cl[s].log :: row.id <= Cursor(cl'[s], p))
            && (forall row | row in cl[s].log :: Shows(ReceiverAt(w, cl'[p], s), cl'[p].global, row))
  {
    hide Inv, Run, SelectAfter, Next, Shows, Rounds;
    forall j | 0 <= j < k
      ensures s in Run(w, cl, Rounds(s, p, j)) && Backlog(Run(w, cl, Rounds(s, p, j))[s], p) > 0
    {
      BacklogAfter(w, cl, s, p, j);
    }
    BacklogAfter(w, cl, s, p, k);
    var cl' := Run(w, cl, Rounds(s, p, k));
    forall row | row in cl[s].log
      ensures row.id <= Cursor(cl'[s], p) && Shows(ReceiverAt(w, cl'[p], s), cl'[p].global, row)
    {
      assert row !in SelectAfter(cl[s].log, Cursor(cl'[s], p));
      DeliveredShows(w, cl', s, p, row);
    }
  }

  /** From every reachable state, and with no new writes: when the push in flight, if there is one, is over,
      exactly ceil(n / 100) successful pushes bring a peer up to date, n being the number of log rows above its
      cursor: fewer leave rows unsent, and after that many the peer shows the whole log. */
  lemma PushesConverge(w: World, init: Servers, steps: seq<Step>, cl: Servers, s: Server, p: Server)
    requires Reaches(w, init, steps, cl) && s in cl && p in cl && s != p
    ensures var free := Next(w, cl, Fail(s, p));
            var k := (|Above(cl[s].log, Some(Cursor(cl[s], p)))| + 99) / 100;
            var cl' := Run(w, free, Rounds(s, p, k));
            && (p !in cl[s].flight ==> free == cl)
            && (forall j | 0 <= j < k ::
                  s in Run(w, free, Rounds(s, p, j)) && Backlog(Run(w, free, Rounds(s, p, j))[s], p) > 0)
            && s in cl' && p in cl' && cl'[s].log == cl[s].log
            && (forall row | row in cl[s].log :: row.id <= Cursor(cl'[s], p))
            && (forall row | row in cl[s].log :: Shows(ReceiverAt(w, cl'[p], s), cl'[p].global, row))
  {
    PushOver(w, init, steps, cl, s, p);
    hide Reaches, Inv, Run, SelectAfter, Next, Shows, Above, Rounds, Backlog, Cursor;
    var free := Next(w, cl, Fail(s, p));
    RoundsConverge(w, free, s, p, (Backlog(free[s], p) + 99) / 100);
  }

  /** Giving up a push leaves everything else as it was, and the peer free for the next one. */
  lemma PushOver(w: World, init: Servers, steps: seq<Step>, cl: Servers, s: Server, p: Server)
    requires Reaches(w, init, steps, cl) && s in cl && p in cl && s != p
    ensures var free := Next(w, cl, Fail(s, p));
            && ValidLibrary(w.lib) && Inv(w, free) && s in free && p in free && p !in free[s].flight
            && free[s].log == cl[s].log && (p !in cl[s].flight ==> free == cl)
            && Backlog(free[s], p) == |Above(cl[s].log, Some(Cursor(cl[s], p)))|
  {
    hide Reaches, Inv, Next, Backlog, Above, Cursor;
    ReachesInv(w, init, steps, cl);
    StepInv(w, cl, Fail(s, p));
    FailStep(w, cl, s, p);
    assert p !in cl[s].flight ==> cl[s].flight - {p} == cl[s].flight;
    BacklogIsAbove(w, Next(w, cl, Fail(s, p)), s, p);
    CursorUnmoved(cl[s], p);
  }

  lemma BacklogIsAbove(w: World, cl: Servers, s: Server, p: Server)
    requires Inv(w, cl) && s in cl
    ensures Backlog(cl[s], p) == |Above(cl[s].log, Some(Cursor(cl[s], p)))|
  {
    hide Inv, SelectAfter, Above;
    LogOkAt(w, cl, s);
    CountAbove(cl[s].log, Cursor(cl[s], p));
  }

  lemma CursorUnmoved(n: Node, p: Server)
    ensures Cursor(n.(flight := n.flight - {p}), p) == Cursor(n, p)
  {
  }
}

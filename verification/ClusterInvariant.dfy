/** The invariant of the mesh, and that every step keeps it. */
module ClusterInvariant {
  import opened Common
  import opened Associations
  import opened BatchReplay
  import opened Cluster

  function ReceiverAt(w: World, n: Node, origin: Server): Receiver {
    Receiver(w.lib, n.pepper, origin)
  }

  /** What every association in a server's history looks like. */
  predicate WellFormed(w: World, s: Server, a: Assoc) {
    && w.owner(a.tp) == s && Normalise(w.lib, a.tp) == a.tp && Lower(a.tp.address) == a.tp.address
    && (a.mxid.Some? ==> a.notBefore == Some(a.ts) && a.notAfter == Some(a.ts + THREEPID_ASSOCIATION_LIFETIME_MS))
  }

  /** The log holds, for each identifier of the history, its latest association. */
  predicate LogOk(w: World, s: Server, n: Node) {
    && Ascending(n.log) && OneRowPerThreepid(n.log)
    && (forall r | r in n.log :: r.id in n.history && n.history[r.id] == r.assoc)
    && (forall i | i in n.history :: i < n.nextId && WellFormed(w, s, n.history[i]))
    && (forall i {:trigger Superseded(n.log, i, n.history[i].tp)} | i in n.history :: Superseded(n.log, i, n.history[i].tp))
  }

  /** The log's row for the identifier is not older than `id`. */
  predicate Superseded(log: Log, id: nat, tp: Threepid) {
    exists r | r in log :: r.assoc.tp == tp && r.id >= id
  }

  /** Every row of the table is what some server's history says under that origin and id. */
  predicate FromHistory(w: World, cl: Servers, n: Node) {
    forall r | r in n.global ::
      && r.origin.server in cl && r.origin.id in cl[r.origin.server].history
      && (var item := LogRow(r.origin.id, cl[r.origin.server].history[r.origin.id]);
          Storable(item.assoc) && r == MakeRow(ReceiverAt(w, n, r.origin.server), item))
  }

  /** One log row is reflected in a table: present, or, for a tombstone, the identifier is absent. */
  predicate RowReflected(rc: Receiver, row: LogRow, t: set<GlobalRow>) {
    if row.assoc.mxid.Some? then Storable(row.assoc) && MakeRow(rc, row) in t
    else forall r | r in t :: r.tp != row.assoc.tp
  }

  predicate Reflected(rc: Receiver, log: Log, t: set<GlobalRow>, upTo: int) {
    forall row | row in log && row.id <= upTo :: RowReflected(rc, row, t)
  }

  lemma OnlyRow(log: Log, a: LogRow, b: LogRow)
    requires OneRowPerThreepid(log) && a in log && b in log && a.assoc.tp == b.assoc.tp
    ensures a == b
  {
    var i :| 0 <= i < |log| && log[i] == a;
    var j :| 0 <= j < |log| && log[j] == b;
  }

  /** The local copy: everything up to `copied` is reflected, and no own row lies above it. */
  predicate CopyOk(w: World, s: Server, n: Node) {
    && 0 <= n.copied < n.nextId
    && Reflected(ReceiverAt(w, n, s), n.log, n.global, n.copied)
    && (forall r | r in n.global && r.origin.server == s :: r.origin.id <= n.copied)
  }

  /** A batch read from the log of `n` after `cursor`, some time ago. */
  predicate BatchOk(n: Node, batch: Log, cursor: int) {
    && batch != [] && Ascending(batch) && OneRowPerThreepid(batch)
    && LastOf(batch) < n.nextId
    && (forall x | x in batch :: x.id > cursor && x.id in n.history && n.history[x.id] == x.assoc)
    && (forall r | r in n.log && cursor < r.id <= LastOf(batch) :: r in batch)
  }

  /** The push relation between a server and one of its peers. */
  predicate PeerOk(w: World, s: Server, n: Node, p: Server, peer: Node) {
    var c := Cursor(n, p);
    && c < n.nextId
    && Reflected(ReceiverAt(w, peer, s), n.log, peer.global, c)
    && (p in n.flight ==>
          && BatchOk(n, n.flight[p].batch, c)
          && (n.flight[p].Accepted? ==> Reflected(ReceiverAt(w, peer, s), n.log, peer.global, LastOf(n.flight[p].batch))))
  }

  predicate NodeOk(w: World, cl: Servers, s: Server, n: Node) {
    LogOk(w, s, n) && CopyOk(w, s, n) && FromHistory(w, cl, n)
  }

  ghost predicate Inv(w: World, cl: Servers) {
    && (forall s | s in cl :: NodeOk(w, cl, s, cl[s]))
    && (forall s, p | s in cl && p in cl && s != p :: PeerOk(w, s, cl[s], p, cl[p]))
  }

  lemma InitialInv(w: World, cl: Servers)
    requires Initial(cl)
    ensures Inv(w, cl)
  {
  }

  // ------------------------------------------------------- writing the log

  lemma AppendLogOk(w: World, s: Server, n: Node, a: Assoc)
    requires LogOk(w, s, n) && WellFormed(w, s, a)
    ensures LogOk(w, s, Append(n, a))
    ensures forall r | r in Append(n, a).log && r.id < n.nextId :: r in n.log
  {
    var row := LogRow(n.nextId, a);
    ReplaceKeepsOrder(n.log, row);
    var m := Append(n, a);
    forall i | i in m.history
      ensures Superseded(m.log, i, m.history[i].tp)
    {
      if m.history[i].tp == a.tp {
        assert row in m.log;
      } else {
        assert Superseded(n.log, i, n.history[i].tp);
        var r :| r in n.log && r.assoc.tp == n.history[i].tp && r.id >= i;
        assert r in m.log;
      }
    }
  }

  /** Histories only grow. */
  predicate HistoriesKept(cl: Servers, cl': Servers) {
    forall s | s in cl :: s in cl' && forall i | i in cl[s].history :: i in cl'[s].history && cl'[s].history[i] == cl[s].history[i]
  }

  lemma FromHistoryKept(w: World, cl: Servers, cl': Servers, n: Node)
    requires HistoriesKept(cl, cl') && FromHistory(w, cl, n)
    ensures FromHistory(w, cl', n)
  {
  }

  /** A new log row has an id above every cursor and every batch in flight. */
  lemma AppendPeerOk(w: World, s: Server, n: Node, a: Assoc, p: Server, peer: Node)
    requires LogOk(w, s, n) && WellFormed(w, s, a) && PeerOk(w, s, n, p, peer)
    ensures PeerOk(w, s, Append(n, a), p, peer)
  {
    AppendLogOk(w, s, n, a);
  }

  lemma AppendNodes(w: World, cl: Servers, s: Server, a: Assoc)
    requires Inv(w, cl) && s in cl && WellFormed(w, s, a)
    ensures var cl' := cl[s := Append(cl[s], a)]; forall q | q in cl' :: NodeOk(w, cl', q, cl'[q])
  {
    hide PeerOk;
    var cl' := cl[s := Append(cl[s], a)];
    forall q | q in cl'
      ensures NodeOk(w, cl', q, cl'[q])
    {
      assert NodeOk(w, cl, q, cl[q]) && NodeOk(w, cl, s, cl[s]);
      FromHistoryKept(w, cl, cl', cl[q]);
      if q == s { AppendLogOk(w, s, cl[s], a); }
    }
  }

  lemma AppendPeers(w: World, cl: Servers, s: Server, a: Assoc)
    requires Inv(w, cl) && s in cl && WellFormed(w, s, a)
    ensures var cl' := cl[s := Append(cl[s], a)];
            forall q, p | q in cl' && p in cl' && q != p :: PeerOk(w, q, cl'[q], p, cl'[p])
  {
    var cl' := cl[s := Append(cl[s], a)];
    assert NodeOk(w, cl, s, cl[s]);
    forall q, p | q in cl' && p in cl' && q != p
      ensures PeerOk(w, q, cl'[q], p, cl'[p])
    {
      assert PeerOk(w, q, cl[q], p, cl[p]);
      if q == s { AppendPeerOk(w, s, cl[s], a, p, cl[p]); }
      if p == s { SameTablePeerOk(w, q, cl[q], p, cl[s], cl'[s]); }
    }
  }

  lemma SameTablePeerOk(w: World, q: Server, n: Node, p: Server, a: Node, b: Node)
    requires PeerOk(w, q, n, p, a) && a.global == b.global && a.pepper == b.pepper
    ensures PeerOk(w, q, n, p, b)
  {
  }

  // ------------------------------------------------------ changing a table

  /** Batches taken from a history need no further normalisation. */
  lemma BatchSeparate(w: World, s: Server, n: Node, rc: Receiver, batch: Log)
    requires LogOk(w, s, n) && rc.lib == w.lib && Ascending(batch) && OneRowPerThreepid(batch)
    requires forall x | x in batch :: x.id in n.history && n.history[x.id] == x.assoc
    ensures Separate(rc, batch)
    ensures forall x | x in batch :: Normalise(rc.lib, x.assoc.tp) == x.assoc.tp && w.owner(x.assoc.tp) == s
    ensures forall x | x in batch && x.assoc.mxid.Some? :: Storable(x.assoc)
  {
    forall x | x in batch
      ensures WellFormed(w, s, x.assoc)
    {
    }
    assert forall i | 0 <= i < |batch| :: batch[i] in batch;
  }

  lemma BatchAgrees(w: World, cl: Servers, s: Server, p: Server, batch: Log)
    requires Inv(w, cl) && s in cl && p in cl
    requires forall x | x in batch :: x.id in cl[s].history && cl[s].history[x.id] == x.assoc
    ensures Agrees(ReceiverAt(w, cl[p], s), cl[p].global, batch)
  {
    assert NodeOk(w, cl, p, cl[p]);
  }

  /** Rows of a table are filed under the owner of their identifier. */
  lemma OriginIsOwner(w: World, cl: Servers, p: Server, r: GlobalRow)
    requires Inv(w, cl) && p in cl && r in cl[p].global
    ensures r.origin.server in cl && r.origin.server == w.owner(r.tp)
    ensures Superseded(cl[r.origin.server].log, r.origin.id, r.tp)
  {
    assert NodeOk(w, cl, p, cl[p]);
    var o := r.origin.server;
    assert NodeOk(w, cl, o, cl[o]);
    assert WellFormed(w, o, cl[o].history[r.origin.id]);
    assert Superseded(cl[o].log, r.origin.id, cl[o].history[r.origin.id].tp);
  }

  /** Replaying a batch of s at p: every log row of s up to `upTo` that is not in the batch, and every
      log row of any other server, keeps its reflection. */
  lemma ReplayKeepsReflected(w: World, cl: Servers, s: Server, p: Server, batch: Log, o: Server, upTo: int)
    requires Inv(w, cl) && s in cl && p in cl && o in cl
    requires Ascending(batch) && OneRowPerThreepid(batch)
    requires forall x | x in batch :: x.id in cl[s].history && cl[s].history[x.id] == x.assoc
    requires o == s ==> forall x | x in batch :: x.id > upTo || x in cl[s].log
    requires Reflected(ReceiverAt(w, cl[p], o), cl[o].log, cl[p].global, upTo)
    ensures Reflected(ReceiverAt(w, cl[p], o), cl[o].log, Replay(ReceiverAt(w, cl[p], s), cl[p].global, batch), upTo)
  {
    var rc, t := ReceiverAt(w, cl[p], s), cl[p].global;
    BatchSeparate(w, s, cl[s], rc, batch);
    BatchAgrees(w, cl, s, p, batch);
    ReplayClosedForm(rc, t, batch);
    forall row | row in cl[o].log && row.id <= upTo
      ensures RowReflected(ReceiverAt(w, cl[p], o), row, Replay(rc, t, batch))
    {
      assert RowReflected(ReceiverAt(w, cl[p], o), row, t);
      assert forall x | x in batch && x.assoc.tp == row.assoc.tp :: x == row by {
        UntouchedOrSame(w, cl, s, batch, o, row);
      }
      RowKeepsReflected(rc, ReceiverAt(w, cl[p], o), t, batch, row);
    }
  }

  lemma RowKeepsReflected(rc: Receiver, rc': Receiver, t: set<GlobalRow>, batch: Log, row: LogRow)
    requires rc.lib == rc'.lib && (row in batch ==> rc == rc')
    requires RowReflected(rc', row, t) && Normalise(rc.lib, row.assoc.tp) == row.assoc.tp
    requires forall r :: r in Replay(rc, t, batch) <==> Carries(rc, batch, r) || (r in t && !Clears(rc, batch, r.tp))
    requires forall x | x in batch :: Normalise(rc.lib, x.assoc.tp) == x.assoc.tp
    requires forall x | x in batch && x.assoc.tp == row.assoc.tp :: x == row
    ensures RowReflected(rc', row, Replay(rc, t, batch))
  {
    if row.assoc.mxid.Some? {
      assert !Clears(rc, batch, row.assoc.tp);
    } else {
      forall r | r in Replay(rc, t, batch)
        ensures r.tp != row.assoc.tp
      {
        if Carries(rc, batch, r) {
          var x :| x in batch && Storable(x.assoc) && MakeRow(rc, x) == r;
        }
      }
    }
  }

  /** A batch item about the identifier of a current log row is that row or an older one, never a newer. */
  lemma UntouchedOrSame(w: World, cl: Servers, s: Server, batch: Log, o: Server, row: LogRow)
    requires Inv(w, cl) && s in cl && o in cl && row in cl[o].log
    requires forall x | x in batch :: x.id in cl[s].history && cl[s].history[x.id] == x.assoc
    ensures WellFormed(w, o, row.assoc) && Normalise(w.lib, row.assoc.tp) == row.assoc.tp
    ensures forall x | x in batch && x.assoc.tp == row.assoc.tp :: o == s && x.id <= row.id && (x.id == row.id ==> x == row)
  {
    assert NodeOk(w, cl, o, cl[o]) && NodeOk(w, cl, s, cl[s]);
    forall x | x in batch && x.assoc.tp == row.assoc.tp
      ensures o == s && x.id <= row.id && (x.id == row.id ==> x == row)
    {
      assert WellFormed(w, s, x.assoc);
      assert Superseded(cl[s].log, x.id, cl[s].history[x.id].tp);
      var r :| r in cl[s].log && r.assoc.tp == x.assoc.tp && r.id >= x.id;
      OnlyRow(cl[s].log, r, row);
    }
  }

  /** Replaying a whole batch reflects every log row up to its last id. */
  lemma ReplayReflects(w: World, cl: Servers, s: Server, p: Server, batch: Log, c: int)
    requires Inv(w, cl) && s in cl && p in cl && BatchOk(cl[s], batch, c)
    requires Reflected(ReceiverAt(w, cl[p], s), cl[s].log, cl[p].global, c)
    ensures Reflected(ReceiverAt(w, cl[p], s), cl[s].log, Replay(ReceiverAt(w, cl[p], s), cl[p].global, batch), LastOf(batch))
  {
    var rc, t := ReceiverAt(w, cl[p], s), cl[p].global;
    ReplayKeepsReflected(w, cl, s, p, batch, s, c);
    BatchSeparate(w, s, cl[s], rc, batch);
    BatchAgrees(w, cl, s, p, batch);
    ReplayClosedForm(rc, t, batch);
    forall row | row in cl[s].log && c < row.id <= LastOf(batch)
      ensures RowReflected(rc, row, Replay(rc, t, batch))
    {
      assert row in batch;
      forall r | row.assoc.mxid.None? && r in Replay(rc, t, batch)
        ensures r.tp != row.assoc.tp
      {
        if Carries(rc, batch, r) {
          var x :| x in batch && Storable(x.assoc) && MakeRow(rc, x) == r;
          if x.assoc.tp == row.assoc.tp { OnlyRow(batch, x, row); }
        } else {
          assert !Clears(rc, batch, r.tp);
        }
      }
      if row.assoc.mxid.Some? {
        assert Carries(rc, batch, MakeRow(rc, row));
      }
    }
  }

  /** Rows that a batch of s adds to the table of p come from the history of s. */
  lemma ReplayFromHistory(w: World, cl: Servers, s: Server, p: Server, batch: Log)
    requires Inv(w, cl) && s in cl && p in cl
    requires Ascending(batch) && OneRowPerThreepid(batch)
    requires forall x | x in batch :: x.id in cl[s].history && cl[s].history[x.id] == x.assoc
    ensures var t' := Replay(ReceiverAt(w, cl[p], s), cl[p].global, batch);
            && FromHistory(w, cl, cl[p].(global := t'))
            && (forall r | r in t' && r.origin.server != s :: r in cl[p].global)
            && (forall r | r in t' && r !in cl[p].global :: exists x | x in batch :: x.id == r.origin.id)
  {
    var rc, t := ReceiverAt(w, cl[p], s), cl[p].global;
    BatchSeparate(w, s, cl[s], rc, batch);
    BatchAgrees(w, cl, s, p, batch);
    ReplayClosedForm(rc, t, batch);
    assert NodeOk(w, cl, p, cl[p]);
    forall r | r in Replay(rc, t, batch) && r !in t
      ensures exists x | x in batch :: x.id == r.origin.id && Storable(x.assoc) && MakeRow(rc, x) == r
    {
      assert Carries(rc, batch, r);
    }
  }

  // ----------------------------------------------------------- local copies

  /** A local push, complete or cut short, reflects everything up to the last row it handled, although
      the id it starts after may have gone backwards. */
  lemma CopyRowsOk(w: World, cl: Servers, s: Server, rows: nat)
    requires Inv(w, cl) && s in cl
    ensures CopyOk(w, s, CopyRows(w, s, cl[s], rows))
    ensures FromHistory(w, cl, CopyRows(w, s, cl[s], rows))
  {
    hide PeerOk, SelectAfter;
    var n, n' := cl[s], CopyRows(w, s, cl[s], rows);
    var last := LastIdFrom(n.global, s);
    var done := Window(n.log, last, rows);
    WindowComplete(n.log, last, rows);
    assert NodeOk(w, cl, s, n);
    assert last <= n.copied;
    ReplayKeepsReflected(w, cl, s, s, done, s, n.copied);
    ReplayFromHistory(w, cl, s, s, done);
    if done != [] {
      assert done[|done| - 1] in done;
      ReplayReflects(w, cl, s, s, done, last);
      forall r | r in n'.global && r.origin.server == s
        ensures r.origin.id <= n'.copied
      {
        if r !in n.global {
          var x :| x in done && x.id == r.origin.id;
          WithinBatch(done, x);
        }
      }
    }
  }

  lemma WithinBatch(batch: Log, x: LogRow)
    requires Ascending(batch) && x in batch
    ensures x.id <= LastOf(batch)
  {
    var i :| 0 <= i < |batch| && batch[i] == x;
  }

  lemma CopyPeers(w: World, cl: Servers, s: Server, rows: nat)
    requires Inv(w, cl) && s in cl
    ensures var cl' := cl[s := CopyRows(w, s, cl[s], rows)];
            forall q, p | q in cl' && p in cl' && q != p :: PeerOk(w, q, cl'[q], p, cl'[p])
  {
    hide NodeOk, PeerOk, Replay, SelectAfter, LastIdFrom;
    var n, n' := cl[s], CopyRows(w, s, cl[s], rows);
    var cl' := cl[s := n'];
    var done := Window(n.log, LastIdFrom(n.global, s), rows);
    WindowFromHistory(w, cl, s, LastIdFrom(n.global, s), rows);
    forall q, p | q in cl' && p in cl' && q != p
      ensures PeerOk(w, q, cl'[q], p, cl'[p])
    {
      assert PeerOk(w, q, cl[q], p, cl[p]);
      if p == s {
        ReplayKeepsPeerOk(w, cl, s, s, done, q);
        SameTablePeerOk(w, q, cl[q], p, n.(global := n'.global), n');
      }
      if q == s { SameLogPeerOk(w, s, n, n', p, cl[p]); }
    }
  }

  lemma WindowFromHistory(w: World, cl: Servers, s: Server, after: int, limit: nat)
    requires Inv(w, cl) && s in cl
    ensures var batch := Window(cl[s].log, after, limit);
            && Ascending(batch) && OneRowPerThreepid(batch)
            && forall x | x in batch :: x.id in cl[s].history && cl[s].history[x.id] == x.assoc
  {
    hide PeerOk;
    assert NodeOk(w, cl, s, cl[s]);
    WindowComplete(cl[s].log, after, limit);
  }

  lemma SameLogPeerOk(w: World, s: Server, n: Node, n': Node, p: Server, peer: Node)
    requires PeerOk(w, s, n, p, peer) && n' == n.(global := n'.global, copied := n'.copied)
    ensures PeerOk(w, s, n', p, peer)
  {
  }

  lemma CopyNodes(w: World, cl: Servers, s: Server, rows: nat)
    requires Inv(w, cl) && s in cl
    ensures var cl' := cl[s := CopyRows(w, s, cl[s], rows)]; forall q | q in cl' :: NodeOk(w, cl', q, cl'[q])
  {
    var cl' := cl[s := CopyRows(w, s, cl[s], rows)];
    CopyRowsOk(w, cl, s, rows);
    assert HistoriesKept(cl, cl');
    forall q | q in cl'
      ensures NodeOk(w, cl', q, cl'[q])
    {
      assert NodeOk(w, cl, q, cl[q]);
      FromHistoryKept(w, cl, cl', cl'[q]);
    }
  }

  /** Replaying a batch of s at p disturbs no other server's push relation with p. */
  lemma ReplayKeepsPeerOk(w: World, cl: Servers, s: Server, p: Server, batch: Log, q: Server)
    requires Inv(w, cl) && s in cl && p in cl && q in cl && q != p && q != s
    requires Ascending(batch) && OneRowPerThreepid(batch)
    requires forall x | x in batch :: x.id in cl[s].history && cl[s].history[x.id] == x.assoc
    ensures PeerOk(w, q, cl[q], p, cl[p].(global := Replay(ReceiverAt(w, cl[p], s), cl[p].global, batch)))
  {
    var n := cl[q];
    assert PeerOk(w, q, n, p, cl[p]);
    ReplayKeepsReflected(w, cl, s, p, batch, q, Cursor(n, p));
    if p in n.flight && n.flight[p].Accepted? {
      ReplayKeepsReflected(w, cl, s, p, batch, q, LastOf(n.flight[p].batch));
    }
  }

  // ----------------------------------------------------------------- pushes

  /** `stored` is what p keeps of the batch in flight from s; only a complete one is accepted. */
  predicate MayStore(cl: Servers, s: Server, p: Server, stored: Log, answer: Flight) {
    && s in cl && p in cl && s != p && p in cl[s].flight
    && answer.batch == cl[s].flight[p].batch
    && stored <= answer.batch
    && (answer.Accepted? ==> stored == answer.batch)
  }

  lemma StoredItems(w: World, cl: Servers, s: Server, p: Server, stored: Log, answer: Flight)
    requires Inv(w, cl) && MayStore(cl, s, p, stored, answer)
    ensures Ascending(stored) && OneRowPerThreepid(stored)
    ensures forall x | x in stored ::
              x.id > Cursor(cl[s], p) && x.id in cl[s].history && cl[s].history[x.id] == x.assoc
  {
    hide NodeOk;
    assert PeerOk(w, s, cl[s], p, cl[p]);
    assert forall x | x in stored :: x in answer.batch;
  }

  /** The pair that exchanges the batch: the cursor's promise stays, and an accepted batch is reflected. */
  lemma StorePair(w: World, cl: Servers, s: Server, p: Server, stored: Log, answer: Flight)
    requires Inv(w, cl) && MayStore(cl, s, p, stored, answer)
    ensures var cl' := Store(w, cl, s, p, stored, answer); PeerOk(w, s, cl'[s], p, cl'[p])
  {
    var c := Cursor(cl[s], p);
    StoredItems(w, cl, s, p, stored, answer);
    assert PeerOk(w, s, cl[s], p, cl[p]);
    ReplayKeepsReflected(w, cl, s, p, stored, s, c);
    if answer.Accepted? {
      ReplayReflects(w, cl, s, p, stored, c);
    }
  }

  lemma StorePeers(w: World, cl: Servers, s: Server, p: Server, stored: Log, answer: Flight)
    requires Inv(w, cl) && MayStore(cl, s, p, stored, answer)
    ensures var cl' := Store(w, cl, s, p, stored, answer);
            forall q, r | q in cl' && r in cl' && q != r :: PeerOk(w, q, cl'[q], r, cl'[r])
  {
    hide NodeOk, PeerOk;
    var cl' := Store(w, cl, s, p, stored, answer);
    StoredItems(w, cl, s, p, stored, answer);
    forall q, r | q in cl' && r in cl' && q != r
      ensures PeerOk(w, q, cl'[q], r, cl'[r])
    {
      assert PeerOk(w, q, cl[q], r, cl[r]);
      if r == p && q == s {
        StorePair(w, cl, s, p, stored, answer);
      } else if r == p {
        ReplayKeepsPeerOk(w, cl, s, p, stored, q);
      } else if q == s {
        OtherFlightPeerOk(w, s, cl[s], cl'[s], p, r, cl[r]);
      } else {
        if r == s { SameTablePeerOk(w, q, cl[q], s, cl[s], cl'[s]); }
        if q == p { SameLogPeerOk(w, p, cl[p], cl'[p], r, cl'[r]); }
      }
    }
  }

  lemma OtherFlightPeerOk(w: World, s: Server, n: Node, n': Node, p: Server, r: Server, peer: Node)
    requires PeerOk(w, s, n, r, peer) && r != p && n' == n.(flight := n'.flight, sent := n'.sent)
    requires (r in n.flight <==> r in n'.flight) && (r in n.flight ==> n.flight[r] == n'.flight[r])
    requires Cursor(n, r) == Cursor(n', r)
    ensures PeerOk(w, s, n', r, peer)
  {
  }

  lemma StoreAtPeer(w: World, cl: Servers, s: Server, p: Server, stored: Log, answer: Flight)
    requires Inv(w, cl) && MayStore(cl, s, p, stored, answer)
    ensures NodeOk(w, cl, p, Store(w, cl, s, p, stored, answer)[p])
  {
    StoredItems(w, cl, s, p, stored, answer);
    assert NodeOk(w, cl, p, cl[p]);
    ReplayFromHistory(w, cl, s, p, stored);
    ReplayKeepsReflected(w, cl, s, p, stored, p, cl[p].copied);
  }

  lemma NodeOkKept(w: World, cl: Servers, cl': Servers, s: Server, n: Node, n': Node)
    requires NodeOk(w, cl, s, n) && HistoriesKept(cl, cl') && n' == n.(sent := n'.sent, flight := n'.flight)
    ensures NodeOk(w, cl', s, n')
  {
  }

  lemma StoreNodes(w: World, cl: Servers, s: Server, p: Server, stored: Log, answer: Flight)
    requires Inv(w, cl) && MayStore(cl, s, p, stored, answer)
    ensures var cl' := Store(w, cl, s, p, stored, answer); forall q | q in cl' :: NodeOk(w, cl', q, cl'[q])
  {
    hide NodeOk, PeerOk, Replay;
    var cl' := Store(w, cl, s, p, stored, answer);
    assert HistoriesKept(cl, cl');
    forall q | q in cl'
      ensures NodeOk(w, cl', q, cl'[q])
    {
      if q == p {
        StoreAtPeer(w, cl, s, p, stored, answer);
        NodeOkKept(w, cl, cl', p, cl'[p], cl'[p]);
      } else {
        NodeOkKept(w, cl, cl', q, cl[q], cl'[q]);
      }
    }
  }

  lemma FlightAscending(w: World, cl: Servers, s: Server, p: Server)
    requires Inv(w, cl) && s in cl && p in cl && s != p && p in cl[s].flight
    ensures Ascending(cl[s].flight[p].batch)
  {
    assert PeerOk(w, s, cl[s], p, cl[p]);
  }

  lemma DeliverInv(w: World, cl: Servers, s: Server, p: Server, fails: set<nat>)
    requires Inv(w, cl) && s in cl && p in cl && s != p && p in cl[s].flight && cl[s].flight[p].Sent?
    ensures Inv(w, Next(w, cl, Deliver(s, p, fails)))
  {
    hide NodeOk, PeerOk, Store, Replay, SortById, FirstFailure, AfterLastTombstone, Ascending;
    var batch := cl[s].flight[p].batch;
    FlightAscending(w, cl, s, p);
    SortedAlready(batch);
    var stored := batch[..CommittedLength(batch, fails)];
    var answer := if FirstFailure(batch, fails) == |batch| then Accepted(batch) else Refused(batch);
    StoreNodes(w, cl, s, p, stored, answer);
    StorePeers(w, cl, s, p, stored, answer);
  }

  /** Steps that only change a server's cursor and flight for one peer. */
  lemma BookkeepingInv(w: World, cl: Servers, cl': Servers, s: Server, p: Server)
    requires Inv(w, cl) && s in cl && s in cl' && cl' == cl[s := cl'[s]]
    requires cl'[s] == cl[s].(sent := cl'[s].sent, flight := cl'[s].flight)
    requires forall r | r != p :: (r in cl[s].flight <==> r in cl'[s].flight) && Cursor(cl[s], r) == Cursor(cl'[s], r)
    requires forall r | r != p && r in cl[s].flight :: cl[s].flight[r] == cl'[s].flight[r]
    requires p in cl && p != s ==> PeerOk(w, s, cl'[s], p, cl[p])
    ensures Inv(w, cl')
  {
    hide NodeOk, PeerOk;
    assert HistoriesKept(cl, cl');
    forall q | q in cl'
      ensures NodeOk(w, cl', q, cl'[q])
    {
      NodeOkKept(w, cl, cl', q, cl[q], cl'[q]);
    }
    forall q, r | q in cl' && r in cl' && q != r
      ensures PeerOk(w, q, cl'[q], r, cl'[r])
    {
      assert PeerOk(w, q, cl[q], r, cl[r]);
      if q == s && r != p { OtherFlightPeerOk(w, s, cl[s], cl'[s], p, r, cl[r]); }
      if r == s { SameTablePeerOk(w, q, cl[q], s, cl[s], cl'[s]); }
    }
  }

  lemma StartPair(w: World, s: Server, n: Node, p: Server, peer: Node)
    requires LogOk(w, s, n) && PeerOk(w, s, n, p, peer) && p !in n.flight
    requires Window(n.log, Cursor(n, p), ASSOCIATIONS_PUSH_LIMIT) != []
    ensures var batch := Window(n.log, Cursor(n, p), ASSOCIATIONS_PUSH_LIMIT);
            PeerOk(w, s, n.(flight := n.flight[p := Sent(batch)]), p, peer)
  {
    var batch := Window(n.log, Cursor(n, p), ASSOCIATIONS_PUSH_LIMIT);
    WindowComplete(n.log, Cursor(n, p), ASSOCIATIONS_PUSH_LIMIT);
    assert batch[|batch| - 1] in batch;
  }

  lemma EndPair(w: World, s: Server, n: Node, p: Server, peer: Node)
    requires PeerOk(w, s, n, p, peer)
    ensures PeerOk(w, s, n.(flight := n.flight - {p}), p, peer)
    ensures p in n.flight && n.flight[p].Accepted? ==>
              PeerOk(w, s, n.(sent := n.sent[p := LastOf(n.flight[p].batch)], flight := n.flight - {p}), p, peer)
  {
  }

  lemma LogOkAt(w: World, cl: Servers, s: Server)
    requires Inv(w, cl) && s in cl
    ensures LogOk(w, s, cl[s])
  {
    assert NodeOk(w, cl, s, cl[s]);
  }

  lemma StartPushInv(w: World, cl: Servers, s: Server, p: Server)
    requires Inv(w, cl) && s in cl
    ensures Inv(w, Next(w, cl, StartPush(s, p)))
  {
    hide NodeOk, PeerOk, LogOk;
    var cl' := Next(w, cl, StartPush(s, p));
    if cl' != cl {
      LogOkAt(w, cl, s);
      StartPair(w, s, cl[s], p, cl[p]);
      BookkeepingInv(w, cl, cl', s, p);
    }
  }

  lemma EndPushInv(w: World, cl: Servers, step: Step)
    requires Inv(w, cl) && step.s in cl && (step.Acknowledge? || step.Fail?)
    ensures Inv(w, Next(w, cl, step))
  {
    hide NodeOk, PeerOk;
    var s, p, cl' := step.s, step.peer, Next(w, cl, step);
    if cl' != cl {
      if p in cl && p != s { EndPair(w, s, cl[s], p, cl[p]); }
      BookkeepingInv(w, cl, cl', s, p);
    }
  }

  lemma StepInv(w: World, cl: Servers, step: Step)
    requires ValidLibrary(w.lib) && Inv(w, cl)
    ensures Inv(w, Next(w, cl, step))
  {
    if step.s in cl {
      match step
      case Bind(s, tp, mxid, now) =>
        if MayWrite(w, s, tp) {
          AppendNodes(w, cl, s, BindAssoc(Normalise(w.lib, tp), mxid, now));
          AppendPeers(w, cl, s, BindAssoc(Normalise(w.lib, tp), mxid, now));
        }
      case Unbind(s, tp, mxid, now) =>
        if MayWrite(w, s, tp) {
          AppendNodes(w, cl, s, Tombstone(Normalise(w.lib, tp), now));
          AppendPeers(w, cl, s, Tombstone(Normalise(w.lib, tp), now));
        }
      case CopyLocally(s, rows) =>
        CopyNodes(w, cl, s, rows);
        CopyPeers(w, cl, s, rows);
      case StartPush(s, p) => StartPushInv(w, cl, s, p);
      case Deliver(s, p, fails) =>
        if p in cl && p != s && p in cl[s].flight && cl[s].flight[p].Sent? { DeliverInv(w, cl, s, p, fails); }
      case Acknowledge(_, _) => EndPushInv(w, cl, step);
      case Fail(_, _) => EndPushInv(w, cl, step);
    }
  }

  /** The invariant holds after every run from empty servers. */
  lemma {:induction false} RunInv(w: World, cl: Servers, steps: seq<Step>)
    requires ValidLibrary(w.lib) && Inv(w, cl)
    ensures Inv(w, Run(w, cl, steps))
  {
    if steps != [] {
      RunInv(w, cl, steps[..|steps| - 1]);
      StepInv(w, Run(w, cl, steps[..|steps| - 1]), steps[|steps| - 1]);
    }
  }
}

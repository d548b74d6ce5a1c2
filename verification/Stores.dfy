/** The stores, the replication endpoint and the local push as they run: objects over tables that
    statements change in place, proved against the table functions the mesh is made of. */
module Stores {
  import opened Common
  import opened Associations
  import opened BatchReplay
  import Cluster

  /** local_threepid_associations. */
  class LocalAssociationStore {
    var rows: Log
    var nextId: nat

    ghost predicate Valid() reads this {
      Ascending(rows) && OneRowPerThreepid(rows) && IdsBelow(rows, nextId)
    }

    constructor ()
      ensures Valid() && rows == [] && nextId == 1
    {
      rows, nextId := [], 1;
    }

    method AddOrUpdateAssociation(assoc: Assoc)
      requires Valid()
      modifies this
      ensures Valid() && nextId == old(nextId) + 1
      ensures rows == Replace(old(rows), LogRow(old(nextId), assoc))
      ensures forall r :: r in rows <==> r == LogRow(old(nextId), assoc) || (r in old(rows) && r.assoc.tp != assoc.tp)
    {
      ReplaceKeepsOrder(rows, LogRow(nextId, assoc));
      rows := Replace(rows, LogRow(nextId, assoc));
      nextId := nextId + 1;
    }

    /** Leaves a tombstone with a fresh id, but only where the binding to this user is the current one. */
    method RemoveAssociation(tp: Threepid, mxid: string, now: int)
      requires Valid()
      modifies this
      ensures Valid()
      ensures if HasBinding(old(rows), tp, mxid)
              then rows == Replace(old(rows), LogRow(old(nextId), Tombstone(tp, now))) && nextId == old(nextId) + 1
              else rows == old(rows) && nextId == old(nextId)
      ensures (forall r | r in old(rows) && r.assoc.tp == tp :: r.assoc.mxid != Some(mxid)) ==>
                rows == old(rows) && nextId == old(nextId)
      ensures (exists r | r in old(rows) :: r.assoc.tp == tp && r.assoc.mxid == Some(mxid)) ==>
                && nextId == old(nextId) + 1
                && forall r :: r in rows <==> r == LogRow(old(nextId), Assoc(tp, None, now, None, None))
                                              || (r in old(rows) && r.assoc.tp != tp)
    {
      if HasBinding(rows, tp, mxid) {
        AddOrUpdateAssociation(Tombstone(tp, now));
      }
    }

    /** Everything after the given id, up to the limit, and the highest id read. */
    method GetAssociationsAfterId(afterId: Option<int>, limit: Option<nat>) returns (assocs: Log, maxId: Option<nat>)
      ensures assocs == Fetch(rows, afterId, limit)
      ensures maxId == if assocs == [] then None else Some(LastOf(assocs))
      ensures Valid() ==>
                && (forall i, j | 0 <= i < j < |assocs| :: assocs[i].id < assocs[j].id)
                && (forall r :: r in assocs <==> r in Above(rows, afterId) && maxId.Some? && r.id <= maxId.value)
                && |assocs| == if limit.Some? && limit.value < |Above(rows, afterId)| then limit.value else |Above(rows, afterId)|
    {
      if Valid() { FetchReads(rows, afterId, limit); }
      hide Fetch, Above, OneRowPerThreepid, IdsBelow;
      var fetched := Fetch(rows, afterId, limit);
      assocs, maxId := [], None;
      for i := 0 to |fetched|
        invariant assocs == fetched[..i]
        invariant maxId == if i == 0 then None else Some(fetched[i - 1].id)
      {
        assocs := assocs + [fetched[i]];
        maxId := Some(fetched[i].id);
      }
    }
  }

  /** The query of getAssociationsAfterId: no id means from the start, no limit means all. */
  function Fetch(rows: Log, afterId: Option<int>, limit: Option<nat>): Log {
    var after := if afterId.None? then -1 else afterId.value;
    if limit.None? then SelectAfter(rows, after) else Window(rows, after, limit.value)
  }

  /** What the query reads: the first rows above the id, in order, as many as the limit allows, with none left
      out between them. */
  lemma FetchReads(rows: Log, afterId: Option<int>, limit: Option<nat>)
    requires Ascending(rows) && OneRowPerThreepid(rows)
    ensures var w, above := Fetch(rows, afterId, limit), Above(rows, afterId);
            && Ascending(w)
            && (forall r :: r in w <==> r in above && w != [] && r.id <= LastOf(w))
            && |w| == if limit.Some? && limit.value < |above| then limit.value else |above|
  {
    var after := if afterId.None? then -1 else afterId.value;
    CountAbove(rows, after);
    assert Above(rows, Some(after)) == Above(rows, afterId);
    var n := if limit.Some? then limit.value else |SelectAfter(rows, after)|;
    WindowComplete(rows, after, n);
    hide SelectAfter, Ascending, OneRowPerThreepid;
    var w := Window(rows, after, n);
    assert w == Fetch(rows, afterId, limit);
    forall r | r in w ensures r.id <= LastOf(w) { UpToLast(w, r); }
  }

  lemma UpToLast(w: Log, r: LogRow)
    requires Ascending(w) && r in w
    ensures r.id <= LastOf(w)
  {
    var i :| 0 <= i < |w| && w[i] == r;
  }

  /** global_threepid_associations: `rows` is what this connection sees, `committed` what a rollback restores. */
  class GlobalAssociationStore {
    var rows: set<GlobalRow>
    var committed: set<GlobalRow>

    constructor ()
      ensures rows == committed == {}
    {
      rows, committed := {}, {};
    }

    method Commit()
      modifies this`committed
      ensures committed == rows
    {
      committed := rows;
    }

    method Rollback()
      modifies this`rows
      ensures rows == committed
    {
      rows := committed;
    }

    /** INSERT OR IGNORE: a row without an mxid is dropped, like any other with a missing column. */
    method AddAssociation(rc: Receiver, item: LogRow, commit: bool)
      modifies this
      ensures rows == if item.assoc.mxid.Some? then ReplayItem(rc, old(rows), item) else old(rows)
      ensures var a := item.assoc;
              var address := if a.tp.medium == "email" then rc.lib.casefold(a.tp.address) else a.tp.address;
              if a.mxid.None? || a.notBefore.None? || a.notAfter.None?
                 || (exists r | r in old(rows) :: r.origin == Origin(rc.origin, item.id))
              then rows == old(rows)
              else rows == old(rows) + {GlobalRow(Threepid(a.tp.medium, address), rc.lib.hash(address + " " + a.tp.medium + " " + rc.pepper),
                                                  a.mxid.value, a.ts, a.notBefore.value, a.notAfter.value, Origin(rc.origin, item.id))}
      ensures committed == if commit then rows else old(committed)
    {
      if Storable(item.assoc) {
        rows := AddRow(rows, MakeRow(rc, item));
      }
      if commit {
        Commit();
      }
    }

    /** Deleting commits whatever the transaction holds so far. */
    method RemoveAssociation(tp: Threepid)
      modifies this
      ensures rows == committed == RemoveRows(old(rows), tp)
      ensures forall r :: r in rows <==> r in old(rows) && r.tp != tp
    {
      rows := RemoveRows(rows, tp);
      Commit();
    }

    method LastIdFromServer(server: Server) returns (last: Option<nat>)
      ensures LastIdFrom(rows, server) == if last.None? then -1 else last.value
      ensures last.None? <==> forall r | r in rows :: r.origin.server != server
      ensures last.Some? ==> && (exists r | r in rows :: r.origin == Origin(server, last.value))
                             && (forall r | r in rows && r.origin.server == server :: r.origin.id <= last.value)
    {
      last := None;
      var seen: set<GlobalRow>, left := {}, rows;
      while left != {}
        invariant seen + left == rows
        invariant IsLastId(seen, server, if last.None? then -1 else last.value)
        decreases left
      {
        var r :| r in left;
        if r.origin.server == server && (last.None? || r.origin.id > last.value) {
          last := Some(r.origin.id);
        }
        seen, left := seen + {r}, left - {r};
      }
      assert seen == rows;
      LastIdUnique(rows, server, LastIdFrom(rows, server), if last.None? then -1 else last.value);
    }
  }

  // ----------------------------------------------------- replication endpoint

  /** The ids reported back: every item whose signature is wrong, and the item that broke the storing. */
  function FailedIds(items: Log, unverified: set<nat>, broken: set<nat>): seq<nat> {
    if items == [] then []
    else
      var last, ids := items[|items| - 1], FailedIds(items[..|items| - 1], unverified, broken);
      if last.id in unverified || (ids == [] && last.id in broken) then ids + [last.id] else ids
  }

  /** All wrong signatures are reported; besides them at most the first failing item is; and the report is empty exactly
      when the whole batch went through. */
  lemma {:induction false} FailedIdsReport(items: Log, unverified: set<nat>, broken: set<nat>)
    ensures var ids := FailedIds(items, unverified, broken);
            && (forall x | x in items && x.id in unverified :: x.id in ids)
            && (forall i | i in ids :: i in unverified + broken && exists x | x in items :: x.id == i)
            && (forall i | i in ids && i !in unverified ::
                  FirstFailure(items, unverified + broken) < |items| && i == items[FirstFailure(items, unverified + broken)].id)
            && (ids == [] <==> FirstFailure(items, unverified + broken) == |items|)
  {
    if items != [] {
      var front, last := items[..|items| - 1], items[|items| - 1];
      assert forall x :: x in items <==> x in front || x == last;
      FailedIdsReport(front, unverified, broken);
    }
  }

  lemma FirstFailureOfPrefix(items: Log, fails: set<nat>, k: nat)
    requires k <= |items|
    ensures FirstFailure(items[..k], fails) == if FirstFailure(items, fails) < k then FirstFailure(items, fails) else k
  {
    var a, b := FirstFailure(items[..k], fails), FirstFailure(items, fails);
    assert forall i | 0 <= i < k :: items[..k][i] == items[i];
    if a < k { assert items[..k][a].id in fails; }
  }

  lemma TombstoneItem(rc: Receiver, t: set<GlobalRow>, item: LogRow)
    requires item.assoc.mxid.None?
    ensures ReplayItem(rc, t, item) == RemoveRows(t, Normalise(rc.lib, item.assoc.tp))
  {
  }

  lemma FailedIdsStep(items: Log, unverified: set<nat>, broken: set<nat>, n: nat)
    requires n < |items|
    ensures var ids := FailedIds(items[..n], unverified, broken);
            FailedIds(items[..n + 1], unverified, broken) ==
              if items[n].id in unverified || (ids == [] && items[n].id in broken) then ids + [items[n].id] else ids
    ensures (FailedIds(items[..n], unverified, broken) == []) == (FirstFailure(items, unverified + broken) >= n)
  {
    assert items[..n + 1][..n] == items[..n];
    FailedIdsReport(items[..n], unverified, broken);
    FirstFailureOfPrefix(items, unverified + broken, n);
  }

  /** The table, as seen and as committed, when n items of a batch have been handled. */
  ghost predicate Handled(rc: Receiver, t: set<GlobalRow>, items: Log, fails: set<nat>, n: nat,
                          rows: set<GlobalRow>, committed: set<GlobalRow>)
    requires n <= |items|
  {
    var k := FirstFailure(items, fails);
    if n <= k then
      rows == Replay(rc, t, items[..n]) && committed == Replay(rc, t, items[..AfterLastTombstone(items, n)])
    else
      committed == Replay(rc, t, items[..AfterLastTombstone(items, k)])
  }

  /** An item that is reported, or that follows one that was, changes nothing that is committed. */
  lemma HandledSkip(rc: Receiver, t: set<GlobalRow>, items: Log, fails: set<nat>, n: nat,
                    rows: set<GlobalRow>, committed: set<GlobalRow>)
    requires n < |items| && Handled(rc, t, items, fails, n, rows, committed)
    requires items[n].id in fails || FirstFailure(items, fails) < n
    ensures Handled(rc, t, items, fails, n + 1, rows, committed)
  {
  }

  lemma HandledAdd(rc: Receiver, t: set<GlobalRow>, items: Log, fails: set<nat>, n: nat,
                   rows: set<GlobalRow>, committed: set<GlobalRow>)
    requires n < |items| && Handled(rc, t, items, fails, n, rows, committed)
    requires items[n].id !in fails && n <= FirstFailure(items, fails) && items[n].assoc.mxid.Some?
    ensures Handled(rc, t, items, fails, n + 1, ReplayItem(rc, rows, items[n]), committed)
  {
    hide Replay, ReplayItem, FirstFailure;
    ReplayStep(rc, t, items, n);
  }

  lemma HandledRemove(rc: Receiver, t: set<GlobalRow>, items: Log, fails: set<nat>, n: nat,
                      rows: set<GlobalRow>, committed: set<GlobalRow>)
    requires n < |items| && Handled(rc, t, items, fails, n, rows, committed)
    requires items[n].id !in fails && n <= FirstFailure(items, fails) && items[n].assoc.mxid.None?
    ensures var after := RemoveRows(rows, Normalise(rc.lib, items[n].assoc.tp));
            Handled(rc, t, items, fails, n + 1, after, after)
  {
    TombstoneItem(rc, rows, items[n]);
    hide Replay, ReplayItem, FirstFailure;
    ReplayStep(rc, t, items, n);
  }

  lemma HandledAll(rc: Receiver, t: set<GlobalRow>, items: Log, fails: set<nat>, rows: set<GlobalRow>, committed: set<GlobalRow>)
    requires Handled(rc, t, items, fails, |items|, rows, committed)
    ensures (if FirstFailure(items, fails) == |items| then rows else committed)
            == Replay(rc, t, items[..CommittedLength(items, fails)])
  {
  }

  /** Handles a push from `rc.origin`. `unverified` are the ids with a bad signature, `broken` those whose
      processing raises for another reason. */
  method RenderPost(store: GlobalAssociationStore, rc: Receiver, sgAssocs: Log,
                    unverified: set<nat>, broken: set<nat>) returns (failedIds: seq<nat>)
    requires store.rows == store.committed
    modifies store
    ensures var items := SortById(sgAssocs);
            && failedIds == FailedIds(items, unverified, broken)
            && store.rows == store.committed
            && store.committed == Replay(rc, old(store.committed), items[..CommittedLength(items, unverified + broken)])
  {
    var items := SortById(sgAssocs);
    ghost var t, fails := store.committed, unverified + broken;
    assert Handled(rc, t, items, fails, 0, store.rows, store.committed);
    hide SortById, Replay, FailedIds, FirstFailure, AfterLastTombstone, ReplayItem, Handled, CommittedLength;
    failedIds := [];
    for n := 0 to |items|
      invariant failedIds == FailedIds(items[..n], unverified, broken)
      invariant (failedIds == []) == (FirstFailure(items, fails) >= n)
      invariant Handled(rc, t, items, fails, n, store.rows, store.committed)
    {
      FailedIdsStep(items, unverified, broken, n);
      var item := items[n];
      if item.id in unverified {
        failedIds := failedIds + [item.id];
        HandledSkip(rc, t, items, fails, n, store.rows, store.committed);
      } else if failedIds != [] {
        HandledSkip(rc, t, items, fails, n, store.rows, store.committed);
      } else if item.id in broken {
        failedIds := failedIds + [item.id];
        HandledSkip(rc, t, items, fails, n, store.rows, store.committed);
      } else if item.assoc.mxid.Some? {
        HandledAdd(rc, t, items, fails, n, store.rows, store.committed);
        store.AddAssociation(rc, item, false);
      } else {
        HandledRemove(rc, t, items, fails, n, store.rows, store.committed);
        store.RemoveAssociation(Normalise(rc.lib, item.assoc.tp));
      }
    }
    assert items[..|items|] == items;
    HandledAll(rc, t, items, fails, store.rows, store.committed);
    if failedIds != [] {
      store.Rollback();
    } else {
      store.Commit();
    }
  }

  // --------------------------------------------------------------- local push

  lemma ReplayNextAfter(rc: Receiver, t: set<GlobalRow>, rows: Log, lastId: int, n: nat)
    requires n < |rows|
    ensures var before := Replay(rc, t, SelectAfter(rows[..n], lastId));
            Replay(rc, t, SelectAfter(rows[..n + 1], lastId)) ==
              if rows[n].id > lastId then ReplayItem(rc, before, rows[n]) else before
  {
    hide ReplayItem;
    assert rows[..n + 1][..n] == rows[..n];
    var done := SelectAfter(rows[..n], lastId);
    assert (done + [rows[n]])[..|done|] == done;
  }

  /** LocalPeer.pushUpdates: stores the rows above the last own id, each committed by itself. */
  method PushUpdates(store: GlobalAssociationStore, rc: Receiver, lastId: int, sgAssocs: Log)
    requires store.rows == store.committed
    modifies store
    ensures store.rows == store.committed == Replay(rc, old(store.rows), SelectAfter(sgAssocs, lastId))
  {
    ghost var t := store.rows;
    assert Replay(rc, t, SelectAfter(sgAssocs[..0], lastId)) == t;
    hide Replay, ReplayItem, SelectAfter;
    for n := 0 to |sgAssocs|
      invariant store.rows == store.committed == Replay(rc, t, SelectAfter(sgAssocs[..n], lastId))
    {
      var item := sgAssocs[n];
      ReplayNextAfter(rc, t, sgAssocs, lastId, n);
      if item.id > lastId {
        if item.assoc.mxid.Some? {
          store.AddAssociation(rc, item, true);
        } else {
          TombstoneItem(rc, store.rows, item);
          store.RemoveAssociation(Normalise(rc.lib, item.assoc.tp));
        }
      }
    }
    assert sgAssocs[..|sgAssocs|] == sgAssocs;
  }

  /** Pusher.doLocalPush: copies to the global table what lies after the largest own originId. */
  method DoLocalPush(local: LocalAssociationStore, store: GlobalAssociationStore, rc: Receiver)
    requires store.rows == store.committed
    modifies store
    ensures store.rows == store.committed
    ensures store.rows == Replay(rc, old(store.rows), SelectAfter(local.rows, LastIdFrom(old(store.rows), rc.origin)))
  {
    var last := store.LastIdFromServer(rc.origin);
    var lastId := if last.None? then -1 else last.value;
    var sgAssocs, _ := local.GetAssociationsAfterId(Some(lastId), None);
    SelectAfterTwice(local.rows, lastId, lastId);
    PushUpdates(store, rc, lastId, sgAssocs);
  }

  /** One row of the peers table. */
  class PeerRow {
    var lastSentVersion: Option<int>

    constructor ()
      ensures lastSentVersion == None
    {
      lastSentVersion := None;
    }
  }

  /** The peer's table after a push of the window that follows the cursor. */
  function PushedTable(rc: Receiver, rows: Log, sent: Option<int>, t: set<GlobalRow>, fails: set<nat>): set<GlobalRow> {
    var batch := Fetch(rows, sent, Some(Cluster.ASSOCIATIONS_PUSH_LIMIT));
    Replay(rc, t, batch[..CommittedLength(batch, fails)])
  }

  /** The cursor after it: it moves to the last id of the window exactly when nothing fails and the answer arrives. */
  function PushedCursor(rows: Log, sent: Option<int>, fails: set<nat>, answerArrives: bool): Option<int> {
    var batch := Fetch(rows, sent, Some(Cluster.ASSOCIATIONS_PUSH_LIMIT));
    if batch != [] && answerArrives && FirstFailure(batch, fails) == |batch| then Some(LastOf(batch)) else sent
  }

  /** Pusher._push_to_peer together with the peer's handling of the request. */
  method PushToPeer(local: LocalAssociationStore, peer: PeerRow, remote: GlobalAssociationStore, rc: Receiver,
                    unverified: set<nat>, broken: set<nat>, answerArrives: bool)
    requires local.Valid() && remote.rows == remote.committed
    modifies peer, remote
    ensures remote.rows == remote.committed
    ensures remote.committed == PushedTable(rc, local.rows, old(peer.lastSentVersion), old(remote.committed), unverified + broken)
    ensures peer.lastSentVersion == PushedCursor(local.rows, old(peer.lastSentVersion), unverified + broken, answerArrives)
  {
    var batch, latest := local.GetAssociationsAfterId(peer.lastSentVersion, Some(Cluster.ASSOCIATIONS_PUSH_LIMIT));
    if batch == [] {
      return;
    }
    FetchReads(local.rows, peer.lastSentVersion, Some(Cluster.ASSOCIATIONS_PUSH_LIMIT));
    hide Fetch, Replay, SortById, FirstFailure, AfterLastTombstone, FailedIds, Ascending, Above;
    SortedAlready(batch);
    var failedIds := RenderPost(remote, rc, batch, unverified, broken);
    FailedIdsReport(batch, unverified, broken);
    if failedIds == [] && answerArrives {
      peer.lastSentVersion := Some(latest.value);
    }
  }

  /** ThreepidBinder.addBinding: the log gets the binding, then the local push runs. */
  method AddBinding(local: LocalAssociationStore, store: GlobalAssociationStore, rc: Receiver,
                    tp: Threepid, mxid: string, now: int)
    requires local.Valid() && store.rows == store.committed
    modifies local, store
    ensures local.Valid() && store.rows == store.committed && local.nextId == old(local.nextId) + 1
    ensures local.rows == Replace(old(local.rows), LogRow(old(local.nextId), BindAssoc(Normalise(rc.lib, tp), mxid, now)))
    ensures var stored := Threepid(tp.medium, if tp.medium == "email" then rc.lib.casefold(tp.address) else tp.address);
            var row := LogRow(old(local.nextId), Assoc(stored, Some(mxid), now, Some(now), Some(now + 3_153_600_000_000)));
            forall r :: r in local.rows <==> r == row || (r in old(local.rows) && r.assoc.tp != stored)
    ensures store.rows == Replay(rc, old(store.rows), SelectAfter(local.rows, LastIdFrom(old(store.rows), rc.origin)))
  {
    local.AddOrUpdateAssociation(BindAssoc(Normalise(rc.lib, tp), mxid, now));
    DoLocalPush(local, store, rc);
  }

  /** ThreepidBinder.removeBinding: only the user the identifier is bound to loses it. */
  method RemoveBinding(local: LocalAssociationStore, store: GlobalAssociationStore, rc: Receiver,
                       tp: Threepid, mxid: string, now: int)
    requires local.Valid() && store.rows == store.committed
    modifies local, store
    ensures local.Valid() && store.rows == store.committed
    ensures var stored := Threepid(tp.medium, if tp.medium == "email" then rc.lib.casefold(tp.address) else tp.address);
            && ((forall r | r in old(local.rows) && r.assoc.tp == stored :: r.assoc.mxid != Some(mxid)) ==>
                  local.rows == old(local.rows) && local.nextId == old(local.nextId))
            && ((exists r | r in old(local.rows) :: r.assoc.tp == stored && r.assoc.mxid == Some(mxid)) ==>
                  && local.nextId == old(local.nextId) + 1
                  && local.rows == Replace(old(local.rows), LogRow(old(local.nextId), Tombstone(stored, now)))
                  && forall r :: r in local.rows <==> r == LogRow(old(local.nextId), Assoc(stored, None, now, None, None))
                                                      || (r in old(local.rows) && r.assoc.tp != stored))
    ensures store.rows == Replay(rc, old(store.rows), SelectAfter(local.rows, LastIdFrom(old(store.rows), rc.origin)))
  {
    local.RemoveAssociation(Normalise(rc.lib, tp), mxid, now);
    DoLocalPush(local, store, rc);
  }
}

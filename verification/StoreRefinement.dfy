/** The store objects do what the steps of the mesh say: each operation of `Stores` is a short run. */
module StoreRefinement {
  import opened Common
  import opened Associations
  import opened BatchReplay
  import opened Cluster
  import opened ClusterInvariant
  import opened ClusterSteps
  import opened Stores

  function SentTo(n: Node, p: Server): Option<int> {
    if p in n.sent then Some(n.sent[p]) else None
  }

  /** One push: it starts, the peer handles it, the answer arrives or is lost, and it is over. */
  function PushSteps(s: Server, p: Server, fails: set<nat>, answerArrives: bool): seq<Step> {
    [StartPush(s, p), Deliver(s, p, fails), if answerArrives then Acknowledge(s, p) else Fail(s, p), Fail(s, p)]
  }

  lemma FetchIsWindow(n: Node, p: Server)
    ensures Fetch(n.log, SentTo(n, p), Some(ASSOCIATIONS_PUSH_LIMIT)) == Window(n.log, Cursor(n, p), ASSOCIATIONS_PUSH_LIMIT)
  {
  }

  lemma FailNothing(w: World, cl: Servers, s: Server, p: Server)
    requires s in cl && p !in cl[s].flight
    ensures Next(w, cl, Fail(s, p)) == cl
  {
    FailStep(w, cl, s, p);
    assert cl[s].flight - {p} == cl[s].flight;
  }

  lemma EmptyPush(w: World, cl: Servers, s: Server, p: Server, fails: set<nat>, answerArrives: bool)
    requires s in cl && p in cl && s != p && p !in cl[s].flight
    requires Window(cl[s].log, Cursor(cl[s], p), ASSOCIATIONS_PUSH_LIMIT) == []
    ensures Run(w, cl, PushSteps(s, p, fails, answerArrives)) == cl
  {
    assert Next(w, cl, StartPush(s, p)) == cl && Next(w, cl, Deliver(s, p, fails)) == cl;
    hide Run, Next, Window;
    var last := if answerArrives then Acknowledge(s, p) else Fail(s, p);
    RunFour(w, cl, StartPush(s, p), Deliver(s, p, fails), last, Fail(s, p));
    FailNothing(w, cl, s, p);
    NothingToAcknowledge(w, cl, s, p);
  }

  /** The state after a push of a nonempty window. */
  function Pushed(w: World, cl: Servers, s: Server, p: Server, batch: Log, fails: set<nat>, answerArrives: bool): Servers
    requires s in cl && p in cl && batch != []
  {
    var moved := answerArrives && FirstFailure(batch, fails) == |batch|;
    cl[s := cl[s].(sent := if moved then cl[s].sent[p := LastOf(batch)] else cl[s].sent)]
      [p := cl[p].(global := Replay(ReceiverAt(w, cl[p], s), cl[p].global, batch[..CommittedLength(batch, fails)]))]
  }

  lemma FullPush(w: World, cl: Servers, s: Server, p: Server, batch: Log, fails: set<nat>, answerArrives: bool)
    requires s in cl && p in cl && s != p && p !in cl[s].flight && batch != [] && Ascending(batch)
    requires Window(cl[s].log, Cursor(cl[s], p), ASSOCIATIONS_PUSH_LIMIT) == batch
    ensures Run(w, cl, PushSteps(s, p, fails, answerArrives)) == Pushed(w, cl, s, p, batch, fails, answerArrives)
  {
    hide Run, Next, Window, Replay, FirstFailure, AfterLastTombstone, Ascending, Store, Pushed;
    var last := if answerArrives then Acknowledge(s, p) else Fail(s, p);
    RunFour(w, cl, StartPush(s, p), Deliver(s, p, fails), last, Fail(s, p));
    StartStep(w, cl, s, p, batch);
    var cl1 := cl[s := cl[s].(flight := cl[s].flight[p := Sent(batch)])];
    DeliverSomeStep(w, cl1, s, p, batch, fails);
    var answer := if FirstFailure(batch, fails) == |batch| then Accepted(batch) else Refused(batch);
    var cl2 := Store(w, cl1, s, p, batch[..CommittedLength(batch, fails)], answer);
    StoredSoFar(w, cl, s, p, batch, fails, answerArrives);
    PushEnds(w, cl, cl2, s, p, batch, answer, answerArrives);
  }

  /** The sender's side of what the peer stored, and what is left to do. */
  lemma StoredSoFar(w: World, cl: Servers, s: Server, p: Server, batch: Log, fails: set<nat>, answerArrives: bool)
    requires s in cl && p in cl && s != p && p !in cl[s].flight && batch != []
    ensures var cl1 := cl[s := cl[s].(flight := cl[s].flight[p := Sent(batch)])];
            var answer := if FirstFailure(batch, fails) == |batch| then Accepted(batch) else Refused(batch);
            var cl2 := Store(w, cl1, s, p, batch[..CommittedLength(batch, fails)], answer);
            var sent := if answerArrives && answer.Accepted? then cl[s].sent[p := LastOf(batch)] else cl[s].sent;
            && s in cl2 && cl2[s] == cl[s].(flight := cl[s].flight[p := answer])
            && cl2[s := cl[s].(sent := sent)] == Pushed(w, cl, s, p, batch, fails, answerArrives)
  {
    hide Replay, FirstFailure, AfterLastTombstone;
    assert cl[s].flight[p := Sent(batch)][p := Accepted(batch)] == cl[s].flight[p := Accepted(batch)];
    assert cl[s].flight[p := Sent(batch)][p := Refused(batch)] == cl[s].flight[p := Refused(batch)];
  }

  lemma PushEnds(w: World, cl: Servers, cl2: Servers, s: Server, p: Server, batch: Log, answer: Flight, answerArrives: bool)
    requires s in cl && s in cl2 && p !in cl[s].flight && batch != [] && answer.batch == batch && !answer.Sent?
    requires cl2[s] == cl[s].(flight := cl[s].flight[p := answer])
    ensures var sent := if answerArrives && answer.Accepted? then cl[s].sent[p := LastOf(batch)] else cl[s].sent;
            Next(w, Next(w, cl2, if answerArrives then Acknowledge(s, p) else Fail(s, p)), Fail(s, p))
            == cl2[s := cl[s].(sent := sent)]
  {
    hide Next;
    assert cl2[s].flight - {p} == cl[s].flight;
    assert cl[s].flight - {p} == cl[s].flight;
    FailStep(w, cl2, s, p);
    if answerArrives && answer.Accepted? {
      AcknowledgeStep(w, cl2, s, p, batch);
      var cl3 := cl2[s := cl[s].(sent := cl[s].sent[p := LastOf(batch)])];
      FailNothing(w, cl3, s, p);
    } else if answerArrives {
      NothingToAcknowledge(w, cl2, s, p);
    } else {
      FailNothing(w, cl2[s := cl[s]], s, p);
    }
  }

  /** What a state after a push is, in the words of the contract of `PushToPeer`. */
  ghost predicate PushedAsPromised(w: World, cl: Servers, cl': Servers, s: Server, p: Server, fails: set<nat>, answerArrives: bool)
    requires s in cl && p in cl
  {
    var rc, sent := ReceiverAt(w, cl[p], s), SentTo(cl[s], p);
    && s in cl' && p in cl' && cl'.Keys == cl.Keys && (forall q | q in cl && q != s && q != p :: cl'[q] == cl[q])
    && cl'[p] == cl[p].(global := PushedTable(rc, cl[s].log, sent, cl[p].global, fails))
    && SentTo(cl'[s], p) == PushedCursor(cl[s].log, sent, fails, answerArrives)
    && cl'[s] == cl[s].(sent := cl'[s].sent) && (forall q | q != p :: SentTo(cl'[s], q) == SentTo(cl[s], q))
  }

  lemma PushedIsPromised(w: World, cl: Servers, s: Server, p: Server, batch: Log, fails: set<nat>, answerArrives: bool)
    requires s in cl && p in cl && s != p && batch != []
    requires Fetch(cl[s].log, SentTo(cl[s], p), Some(ASSOCIATIONS_PUSH_LIMIT)) == batch
    ensures PushedAsPromised(w, cl, Pushed(w, cl, s, p, batch, fails, answerArrives), s, p, fails, answerArrives)
  {
    hide Fetch, Replay, FirstFailure, AfterLastTombstone;
  }

  lemma NothingIsPromised(w: World, cl: Servers, s: Server, p: Server, fails: set<nat>, answerArrives: bool)
    requires s in cl && p in cl && s != p
    requires Fetch(cl[s].log, SentTo(cl[s], p), Some(ASSOCIATIONS_PUSH_LIMIT)) == []
    ensures PushedAsPromised(w, cl, cl, s, p, fails, answerArrives)
  {
    hide Fetch;
  }

  /** `PushToPeer` is one push of the mesh: the same window goes out, the peer's table and the cursor become what
      its contract says, and nothing else changes. */
  lemma PushToPeerIsAPush(w: World, cl: Servers, s: Server, p: Server, fails: set<nat>, answerArrives: bool)
    requires s in cl && p in cl && s != p && p !in cl[s].flight && Ascending(cl[s].log) && OneRowPerThreepid(cl[s].log)
    ensures PushedAsPromised(w, cl, Run(w, cl, PushSteps(s, p, fails, answerArrives)), s, p, fails, answerArrives)
  {
    hide PushedAsPromised, Run, Window, Fetch, Pushed, PushSteps;
    var n := cl[s];
    var batch := Window(n.log, Cursor(n, p), ASSOCIATIONS_PUSH_LIMIT);
    FetchIsWindow(n, p);
    WindowComplete(n.log, Cursor(n, p), ASSOCIATIONS_PUSH_LIMIT);
    hide Ascending, OneRowPerThreepid;
    if batch == [] {
      EmptyPush(w, cl, s, p, fails, answerArrives);
      NothingIsPromised(w, cl, s, p, fails, answerArrives);
    } else {
      FullPush(w, cl, s, p, batch, fails, answerArrives);
      PushedIsPromised(w, cl, s, p, batch, fails, answerArrives);
    }
  }

  // ------------------------------------------------------------- local pushes

  lemma CopyAllStep(w: World, cl: Servers, s: Server, rows: nat)
    requires s in cl && rows >= |SelectAfter(cl[s].log, LastIdFrom(cl[s].global, s))|
    ensures var n, n' := cl[s], CopyRows(w, s, cl[s], rows);
            && n' == n.(global := n'.global, copied := n'.copied)
            && n'.global == Replay(ReceiverAt(w, n, s), n.global, SelectAfter(n.log, LastIdFrom(n.global, s)))
    ensures Next(w, cl, CopyLocally(s, rows)) == cl[s := CopyRows(w, s, cl[s], rows)]
  {
    CopyStep(w, cl, s, rows);
  }

  /** `DoLocalPush`, `AddBinding` and `RemoveBinding` are an optional write followed by a complete local copy: log and
      table become what their contracts say. */
  lemma AddBindingIsItsSteps(w: World, cl: Servers, s: Server, tp: Threepid, mxid: string, now: int, rows: nat)
    requires s in cl && MayWrite(w, s, tp)
    requires var log := Replace(cl[s].log, LogRow(cl[s].nextId, BindAssoc(Normalise(w.lib, tp), mxid, now)));
             rows >= |SelectAfter(log, LastIdFrom(cl[s].global, s))|
    ensures var cl' := Next(w, Next(w, cl, Bind(s, tp, mxid, now)), CopyLocally(s, rows));
            && s in cl' && (forall q | q in cl && q != s :: q in cl' && cl'[q] == cl[q])
            && cl'[s].log == Replace(cl[s].log, LogRow(cl[s].nextId, BindAssoc(Normalise(w.lib, tp), mxid, now)))
            && cl'[s].nextId == cl[s].nextId + 1
            && cl'[s].global == Replay(ReceiverAt(w, cl[s], s), cl[s].global, SelectAfter(cl'[s].log, LastIdFrom(cl[s].global, s)))
  {
    hide Next, MayWrite, Normalise, Replay, SelectAfter, LastIdFrom, CopyRows;
    BindAnyStep(w, cl, s, tp, mxid, now);
    CopyAllStep(w, Next(w, cl, Bind(s, tp, mxid, now)), s, rows);
  }

  lemma RemoveBindingIsItsSteps(w: World, cl: Servers, s: Server, tp: Threepid, mxid: string, now: int, rows: nat)
    requires s in cl && MayWrite(w, s, tp)
    requires var n := Next(w, cl, Unbind(s, tp, mxid, now));
             s in n && rows >= |SelectAfter(n[s].log, LastIdFrom(n[s].global, s))|
    ensures var stored := Normalise(w.lib, tp);
            var cl' := Next(w, Next(w, cl, Unbind(s, tp, mxid, now)), CopyLocally(s, rows));
            && s in cl' && (forall q | q in cl && q != s :: q in cl' && cl'[q] == cl[q])
            && (if exists r | r in cl[s].log :: r.assoc.tp == stored && r.assoc.mxid == Some(mxid)
                then cl'[s].log == Replace(cl[s].log, LogRow(cl[s].nextId, Tombstone(stored, now))) && cl'[s].nextId == cl[s].nextId + 1
                else cl'[s].log == cl[s].log && cl'[s].nextId == cl[s].nextId)
            && cl'[s].global == Replay(ReceiverAt(w, cl[s], s), cl[s].global, SelectAfter(cl'[s].log, LastIdFrom(cl[s].global, s)))
  {
    hide Next, MayWrite, Normalise, Replay, SelectAfter, LastIdFrom, CopyRows;
    UnbindStep(w, cl, s, tp, mxid, now);
    CopyAllStep(w, Next(w, cl, Unbind(s, tp, mxid, now)), s, rows);
  }
}

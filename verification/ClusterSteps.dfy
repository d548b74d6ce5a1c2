/** What single steps and short runs of the mesh come to. */
module ClusterSteps {
  import opened Common
  import opened Associations
  import opened BatchReplay
  import opened Cluster

  lemma NoFailure(items: Log)
    ensures FirstFailure(items, {}) == |items|
  {
  }

  lemma {:induction false} RunAppend(w: World, cl: Servers, a: seq<Step>, b: seq<Step>)
    ensures Run(w, cl, a + b) == Run(w, Run(w, cl, a), b)
  {
    if b == [] {
      assert a + b == a;
    } else {
      RunAppend(w, cl, a, b[..|b| - 1]);
      assert (a + b)[..|a + b| - 1] == a + b[..|b| - 1];
    }
  }

  lemma RunOne(w: World, cl: Servers, a: Step)
    ensures Run(w, cl, [a]) == Next(w, cl, a)
  {
    hide Next;
    assert [a][..0] == [];
  }

  lemma RunThree(w: World, cl: Servers, a: Step, b: Step, c: Step)
    ensures Run(w, cl, [a, b, c]) == Next(w, Next(w, Next(w, cl, a), b), c)
  {
    hide Next;
    assert [a, b, c][..2] == [a, b] && [a, b][..1] == [a] && [a][..0] == [];
    assert Run(w, cl, [a]) == Next(w, cl, a);
    assert Run(w, cl, [a, b]) == Next(w, Next(w, cl, a), b);
  }

  lemma RunFour(w: World, cl: Servers, a: Step, b: Step, c: Step, d: Step)
    ensures Run(w, cl, [a, b, c, d]) == Next(w, Next(w, Next(w, Next(w, cl, a), b), c), d)
  {
    hide Next;
    assert [a, b, c, d][..3] == [a, b, c] && [a, b, c][..2] == [a, b] && [a, b][..1] == [a] && [a][..0] == [];
    assert Run(w, cl, [a]) == Next(w, cl, a);
    assert Run(w, cl, [a, b]) == Next(w, Next(w, cl, a), b);
    assert Run(w, cl, [a, b, c]) == Next(w, Next(w, Next(w, cl, a), b), c);
  }

  lemma BindAnyStep(w: World, cl: Servers, s: Server, tp: Threepid, mxid: string, now: int)
    requires s in cl && MayWrite(w, s, tp)
    ensures Next(w, cl, Bind(s, tp, mxid, now)) == cl[s := Append(cl[s], BindAssoc(Normalise(w.lib, tp), mxid, now))]
  {
  }

  lemma UnbindStep(w: World, cl: Servers, s: Server, tp: Threepid, mxid: string, now: int)
    requires s in cl
    ensures Next(w, cl, Unbind(s, tp, mxid, now)) ==
            if MayWrite(w, s, tp) && HasBinding(cl[s].log, Normalise(w.lib, tp), mxid)
            then cl[s := Append(cl[s], Tombstone(Normalise(w.lib, tp), now))] else cl
  {
  }

  lemma CopyStep(w: World, cl: Servers, s: Server, rows: nat)
    requires s in cl
    ensures Next(w, cl, CopyLocally(s, rows)) == cl[s := CopyRows(w, s, cl[s], rows)]
  {
  }

  lemma StartStep(w: World, cl: Servers, s: Server, p: Server, batch: Log)
    requires s in cl && p in cl && s != p && p !in cl[s].flight && batch != []
    requires Window(cl[s].log, Cursor(cl[s], p), ASSOCIATIONS_PUSH_LIMIT) == batch
    ensures Next(w, cl, StartPush(s, p)) == cl[s := cl[s].(flight := cl[s].flight[p := Sent(batch)])]
  {
    hide Window;
  }

  lemma DeliverAllStep(w: World, cl: Servers, s: Server, p: Server, batch: Log)
    requires s in cl && p in cl && s != p && p in cl[s].flight && cl[s].flight[p] == Sent(batch) && Ascending(batch)
    ensures Next(w, cl, Deliver(s, p, {})) == Store(w, cl, s, p, batch, Accepted(batch))
  {
    hide Replay, SortById, FirstFailure, AfterLastTombstone, Store;
    SortedAlready(batch);
    NoFailure(batch);
    assert batch[..|batch|] == batch;
  }

  lemma AcknowledgeStep(w: World, cl: Servers, s: Server, p: Server, batch: Log)
    requires s in cl && p in cl[s].flight && cl[s].flight[p] == Accepted(batch) && batch != []
    ensures Next(w, cl, Acknowledge(s, p)) ==
            cl[s := cl[s].(sent := cl[s].sent[p := LastOf(batch)], flight := cl[s].flight - {p})]
  {
  }

  /** The peer handles the request: what it keeps, and its answer. */
  lemma DeliverSomeStep(w: World, cl: Servers, s: Server, p: Server, batch: Log, fails: set<nat>)
    requires s in cl && p in cl && s != p && p in cl[s].flight && cl[s].flight[p] == Sent(batch) && Ascending(batch)
    ensures Next(w, cl, Deliver(s, p, fails)) ==
            Store(w, cl, s, p, batch[..CommittedLength(batch, fails)],
                  if FirstFailure(batch, fails) == |batch| then Accepted(batch) else Refused(batch))
  {
    hide Replay, SortById, FirstFailure, AfterLastTombstone, Store;
    SortedAlready(batch);
  }

  lemma FailStep(w: World, cl: Servers, s: Server, p: Server)
    requires s in cl
    ensures Next(w, cl, Fail(s, p)) == cl[s := cl[s].(flight := cl[s].flight - {p})]
  {
  }

  /** Without a push in flight, or with a refused one, there is nothing to acknowledge. */
  lemma NothingToAcknowledge(w: World, cl: Servers, s: Server, p: Server)
    requires s in cl && (p !in cl[s].flight || !cl[s].flight[p].Accepted?)
    ensures Next(w, cl, Acknowledge(s, p)) == cl
  {
  }
}

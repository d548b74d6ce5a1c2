/** From the user's side: who can unbind, and what binding and unbinding do to lookups anywhere in the mesh. */
module BindingRuns {
  import opened Common
  import opened Associations
  import opened BatchReplay
  import opened Cluster
  import opened ClusterInvariant
  import opened ClusterSteps
  import opened ClusterTheorems

  /** The server owns the identifier, and phone numbers have no upper-case letters. */
  predicate Bindable(w: World, s: Server, tp: Threepid, stored: Threepid) {
    && stored == Threepid(tp.medium, if tp.medium == "email" then w.lib.casefold(tp.address) else tp.address)
    && w.owner(stored) == s
    && (tp.medium != "email" ==> forall i | 0 <= i < |tp.address| :: !('A' <= tp.address[i] <= 'Z'))
  }

  lemma BindableMayWrite(w: World, s: Server, tp: Threepid, stored: Threepid)
    requires ValidLibrary(w.lib) && Bindable(w, s, tp, stored)
    ensures MayWrite(w, s, tp) && Normalise(w.lib, tp) == stored
  {
    if tp.medium != "email" {
      assert Lower(tp.address) == tp.address;
    } else {
      assert Lower(w.lib.casefold(tp.address)) == w.lib.casefold(tp.address);
    }
  }

  /** In every run, unbinding by a user to whom the log does not bind the identifier changes nothing anywhere;
      by the user to whom it does, it replaces that row by a tombstone with a fresh id and touches no other
      row, table, cursor or server. */
  lemma UnbindNeedsItsUser(w: World, init: Servers, steps: seq<Step>, cl: Servers, s: Server,
                           tp: Threepid, stored: Threepid, mxid: string, now: int)
    requires Reaches(w, init, steps, cl) && s in cl
    requires stored == Threepid(tp.medium, if tp.medium == "email" then w.lib.casefold(tp.address) else tp.address)
    ensures (forall r | r in cl[s].log && r.assoc.tp == stored :: r.assoc.mxid != Some(mxid)) ==>
              Next(w, cl, Unbind(s, tp, mxid, now)) == cl
    ensures (exists r | r in cl[s].log :: r.assoc.tp == stored && r.assoc.mxid == Some(mxid)) && Bindable(w, s, tp, stored) ==>
              var cl' := Next(w, cl, Unbind(s, tp, mxid, now));
              && cl'.Keys == cl.Keys && (forall q | q in cl && q != s :: cl'[q] == cl[q])
              && cl'[s] == cl[s].(log := cl'[s].log, nextId := cl[s].nextId + 1, history := cl'[s].history)
              && forall r :: r in cl'[s].log <==> r == LogRow(cl[s].nextId, Assoc(stored, None, now, None, None))
                                                  || (r in cl[s].log && r.assoc.tp != stored)
  {
    assert Normalise(w.lib, tp) == stored;
    if Bindable(w, s, tp, stored) { BindableMayWrite(w, s, tp, stored); }
    hide Reaches, Next, MayWrite, Normalise, Bindable, Without;
    UnbindStep(w, cl, s, tp, mxid, now);
  }

  /** A log row stays as long as its identifier is not bound or unbound again. */
  lemma StepKeepsRow(w: World, cl: Servers, step: Step, s: Server, row: LogRow)
    requires s in cl && row in cl[s].log
    requires Writes(step, s) ==> Normalise(w.lib, step.tp) != row.assoc.tp
    ensures s in Next(w, cl, step) && row in Next(w, cl, step)[s].log
  {
    hide Replay, SelectAfter, SortById, FirstFailure, LastIdFrom;
  }

  /** No step of the run binds or unbinds the stored identifier at the server. */
  predicate LeavesAlone(w: World, steps: seq<Step>, s: Server, stored: Threepid) {
    forall i | 0 <= i < |steps| && Writes(steps[i], s) :: Normalise(w.lib, steps[i].tp) != stored
  }

  lemma {:induction false} RunKeepsRow(w: World, cl: Servers, steps: seq<Step>, s: Server, row: LogRow)
    requires s in cl && row in cl[s].log && LeavesAlone(w, steps, s, row.assoc.tp)
    ensures s in Run(w, cl, steps) && row in Run(w, cl, steps)[s].log
  {
    hide Next, Normalise;
    if steps != [] {
      var front, last := steps[..|steps| - 1], steps[|steps| - 1];
      RunKeepsRow(w, cl, front, s, row);
      StepKeepsRow(w, Run(w, cl, front), last, s, row);
    }
  }

  /** The whole run: something before, one write, something after. */
  function Around(before: seq<Step>, write: Step, after: seq<Step>): seq<Step> {
    before + [write] + after
  }

  /** The write's row is in the log at the end, and lookups wherever it has been delivered agree with it. */
  lemma WriteDecides(w: World, init: Servers, before: seq<Step>, write: Step, after: seq<Step>, s: Server, p: Server,
                     row: LogRow, address: string, now: int)
    requires ValidLibrary(w.lib) && Initial(init) && s in init && p in Run(w, init, Around(before, write, after))
    requires s in Run(w, init, before) && s in Next(w, Run(w, init, before), write)
    requires row in Next(w, Run(w, init, before), write)[s].log && LeavesAlone(w, after, s, row.assoc.tp)
    requires ClockAdvances(Around(before, write, after), s) && row.assoc.ts < now && CaseVariant(address, row.assoc.tp.address)
    requires var cl := Run(w, init, Around(before, write, after)); s in cl ==> Delivered(cl, s, p, row)
    ensures forall answer ::
              Answers(Run(w, init, Around(before, write, after))[p].global, row.assoc.tp.medium, address, now, answer)
              <==> answer == Expected(row, now)
  {
    hide Next, Answers, CaseVariant, Lower, Inv, Delivered;
    var steps := Around(before, write, after);
    RunAppend(w, init, before + [write], after);
    RunAppend(w, init, before, [write]);
    RunOne(w, Run(w, init, before), write);
    RunKeepsRow(w, Run(w, init, before + [write]), after, s, row);
    var cl := Run(w, init, steps);
    HistoryInOrder(w, init, steps, s);
    assert Reaches(w, init, steps, cl);
    hide Run, ClockAdvances;
    ReachesInv(w, init, steps, cl);
    LogOkAt(w, cl, s);
    LookupAgreesWithLog(w, init, steps, cl, s, p, row, address, now);
  }

  /** In every run, once a binding has been copied locally or acknowledged by a peer, and until the identifier is
      written again, every lookup there within the next 100 years, in whatever letter case, finds exactly that user. */
  lemma BoundThenFound(w: World, init: Servers, before: seq<Step>, after: seq<Step>, s: Server, p: Server,
                       tp: Threepid, stored: Threepid, mxid: string, at: int, address: string, now: int)
    requires ValidLibrary(w.lib) && Initial(init) && s in init && Bindable(w, s, tp, stored)
    requires var steps := Around(before, Bind(s, tp, mxid, at), after);
             && ClockAdvances(steps, s) && LeavesAlone(w, after, s, stored)
             && s in Run(w, init, before) && p in Run(w, init, steps) && s in Run(w, init, steps)
             && Run(w, init, before)[s].nextId <=
                  if p == s then Run(w, init, steps)[s].copied else Cursor(Run(w, init, steps)[s], p)
    requires at < now < at + 100 * 365 * 24 * 60 * 60 * 1000 && CaseVariant(address, stored.address)
    ensures var cl := Run(w, init, Around(before, Bind(s, tp, mxid, at), after));
            forall answer :: Answers(cl[p].global, tp.medium, address, now, answer) <==> answer == Some(mxid)
  {
    hide Run, Answers, CaseVariant, ClockAdvances, LeavesAlone, Around, Lower;
    BindableMayWrite(w, s, tp, stored);
    var cl0, write := Run(w, init, before), Bind(s, tp, mxid, at);
    var row := LogRow(cl0[s].nextId, Assoc(stored, Some(mxid), at, Some(at), Some(at + 3_153_600_000_000)));
    assert Next(w, cl0, write)[s].log == Replace(cl0[s].log, row);
    WriteDecides(w, init, before, write, after, s, p, row, address, now);
  }

  /** In every run, once an unbinding by the bound user has been copied locally or acknowledged by a peer, and
      until the identifier is written again, no lookup there finds anyone. */
  lemma UnboundThenGone(w: World, init: Servers, before: seq<Step>, after: seq<Step>, s: Server, p: Server,
                        tp: Threepid, stored: Threepid, mxid: string, at: int, address: string, now: int)
    requires ValidLibrary(w.lib) && Initial(init) && s in init && Bindable(w, s, tp, stored)
    requires var steps := Around(before, Unbind(s, tp, mxid, at), after);
             && ClockAdvances(steps, s) && LeavesAlone(w, after, s, stored)
             && s in Run(w, init, before) && p in Run(w, init, steps) && s in Run(w, init, steps)
             && (exists r | r in Run(w, init, before)[s].log :: r.assoc.tp == stored && r.assoc.mxid == Some(mxid))
             && Run(w, init, before)[s].nextId <=
                  if p == s then Run(w, init, steps)[s].copied else Cursor(Run(w, init, steps)[s], p)
    requires at < now && CaseVariant(address, stored.address)
    ensures var cl := Run(w, init, Around(before, Unbind(s, tp, mxid, at), after));
            forall answer :: Answers(cl[p].global, tp.medium, address, now, answer) <==> answer == None
  {
    hide Run, Answers, CaseVariant, ClockAdvances, LeavesAlone, Around, Lower;
    BindableMayWrite(w, s, tp, stored);
    var cl0, write := Run(w, init, before), Unbind(s, tp, mxid, at);
    var row := LogRow(cl0[s].nextId, Assoc(stored, None, at, None, None));
    assert Next(w, cl0, write)[s].log == Replace(cl0[s].log, row);
    WriteDecides(w, init, before, write, after, s, p, row, address, now);
  }
}

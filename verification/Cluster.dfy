/** A mesh of servers: binds and unbinds write each server's log, local pushes copy the log to the
    server's own global table, and scheduled pushes replay it at every peer. */
module Cluster {
  import opened Common
  import opened Associations
  import opened BatchReplay

  const ASSOCIATIONS_PUSH_LIMIT: nat := 100

  /** `owner` names the one server at which an identifier is bound and unbound. */
  datatype World = World(lib: Library, owner: Threepid -> Server)

  /** A push in flight. The receiver has not seen it, has stored all of it, or has refused it. */
  datatype Flight = Sent(batch: Log) | Accepted(batch: Log) | Refused(batch: Log)

  /** `history` (every association ever given an id) and `copied` (the highest log id that a local
      push has handled) are not read by any step. */
  datatype Node = Node(pepper: string, log: Log, nextId: nat, global: set<GlobalRow>,
                       sent: map<Server, int>, flight: map<Server, Flight>,
                       history: map<nat, Assoc>, copied: int)

  type Servers = map<Server, Node>

  datatype Step =
    | Bind(s: Server, tp: Threepid, mxid: string, now: int)
    | Unbind(s: Server, tp: Threepid, mxid: string, now: int)
    /** doLocalPush; a crash may end it after any number of rows. */
    | CopyLocally(s: Server, rows: nat)
    | StartPush(s: Server, peer: Server)
    /** The peer handles the request; the items in `fails` raise. */
    | Deliver(s: Server, peer: Server, fails: set<nat>)
    | Acknowledge(s: Server, peer: Server)
    /** The request or its answer is lost, or the answer is an error. */
    | Fail(s: Server, peer: Server)

  function Cursor(n: Node, peer: Server): int {
    if peer in n.sent then n.sent[peer] else -1
  }

  function Append(n: Node, a: Assoc): Node {
    n.(log := Replace(n.log, LogRow(n.nextId, a)), nextId := n.nextId + 1, history := n.history[n.nextId := a])
  }

  /** The identifier is written at this server, and its stored form has no upper-case ASCII letter
      (folded emails never do, phone numbers have no letters). */
  predicate MayWrite(w: World, s: Server, tp: Threepid) {
    var stored := Normalise(w.lib, tp);
    w.owner(stored) == s && Lower(stored.address) == stored.address
  }

  ghost function CopyRows(w: World, s: Server, n: Node, rows: nat): Node {
    var pending := SelectAfter(n.log, LastIdFrom(n.global, s));
    var done := Take(pending, rows);
    n.(global := Replay(Receiver(w.lib, n.pepper, s), n.global, done),
       copied := if done != [] && LastOf(done) > n.copied then LastOf(done) else n.copied)
  }

  /** p has stored some items that s sent, and the request is answered. */
  function Store(w: World, cl: Servers, s: Server, p: Server, stored: Log, answer: Flight): Servers
    requires s in cl && p in cl
  {
    cl[s := cl[s].(flight := cl[s].flight[p := answer])]
      [p := cl[p].(global := Replay(Receiver(w.lib, cl[p].pepper, s), cl[p].global, stored))]
  }

  ghost function Next(w: World, cl: Servers, step: Step): Servers {
    if step.s !in cl then cl
    else
      var n := cl[step.s];
      match step
      case Bind(s, tp, mxid, now) =>
        if MayWrite(w, s, tp) then cl[s := Append(n, BindAssoc(Normalise(w.lib, tp), mxid, now))] else cl
      case Unbind(s, tp, mxid, now) =>
        if MayWrite(w, s, tp) && HasBinding(n.log, Normalise(w.lib, tp), mxid)
        then cl[s := Append(n, Tombstone(Normalise(w.lib, tp), now))] else cl
      case CopyLocally(s, rows) => cl[s := CopyRows(w, s, n, rows)]
      case StartPush(s, p) =>
        var batch := Window(n.log, Cursor(n, p), ASSOCIATIONS_PUSH_LIMIT);
        if p in cl && p != s && p !in n.flight && batch != []
        then cl[s := n.(flight := n.flight[p := Sent(batch)])] else cl
      case Deliver(s, p, fails) =>
        if p in cl && p != s && p in n.flight && n.flight[p].Sent? then
          var batch := n.flight[p].batch;
          var items := SortById(batch);
          var stored := items[..CommittedLength(items, fails)];
          var answer := if FirstFailure(items, fails) == |items| then Accepted(batch) else Refused(batch);
          Store(w, cl, s, p, stored, answer)
        else cl
      case Acknowledge(s, p) =>
        if p in n.flight && n.flight[p].Accepted? && n.flight[p].batch != []
        then cl[s := n.(sent := n.sent[p := LastOf(n.flight[p].batch)], flight := n.flight - {p})] else cl
      case Fail(s, p) => cl[s := n.(flight := n.flight - {p})]
  }

  ghost function Run(w: World, cl: Servers, steps: seq<Step>): Servers {
    if steps == [] then cl else Next(w, Run(w, cl, steps[..|steps| - 1]), steps[|steps| - 1])
  }

  predicate Initial(cl: Servers) {
    forall s | s in cl ::
      var n := cl[s];
      n.log == [] && n.nextId == 1 && n.global == {} && n.sent == map[] && n.flight == map[]
      && n.history == map[] && n.copied == 0
  }
}

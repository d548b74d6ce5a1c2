/** Runs that show where the mesh gives less than its comments say, and why the theorems have their conditions. */
module ClusterWitnesses {
  import opened Common
  import opened Associations
  import opened BatchReplay
  import opened Cluster
  import opened ClusterInvariant
  import opened ClusterSteps
  import opened ClusterTheorems
  import Lookups

  /** Why each identifier must have one writing server: a deletion removes rows of every origin, so a
      tombstone from `b` takes away a binding that `a` has been told is stored. */
  lemma ForeignDeletion(lib: Library, pepper: string, now: int)
    ensures var tp := Threepid("msisdn", "447700900000");
            var bound := Replay(Receiver(lib, pepper, "a"), {}, [LogRow(1, BindAssoc(tp, "@u", now))]);
            && Shows(Receiver(lib, pepper, "a"), bound, LogRow(1, BindAssoc(tp, "@u", now)))
            && Replay(Receiver(lib, pepper, "b"), bound, [LogRow(1, Tombstone(tp, now + 1))]) == {}
  {
    var tp := Threepid("msisdn", "447700900000");
    var a, b := Receiver(lib, pepper, "a"), Receiver(lib, pepper, "b");
    var bind, gone := LogRow(1, BindAssoc(tp, "@u", now)), LogRow(1, Tombstone(tp, now + 1));
    var bound := Replay(a, {}, [bind]);
    ReplayStep(a, {}, [bind], 0);
    assert [bind][..0] == [] && [bind][..1] == [bind];
    assert bound == {MakeRow(a, bind)};
    ReplayStep(b, bound, [gone], 0);
    assert [gone][..0] == [] && [gone][..1] == [gone];
  }

  // --------------------------------------------------------- binding twice

  /** Copying a log whose only row has an id above every own row of the table. */
  lemma CopyOneRow(w: World, s: Server, n: Node, row: LogRow)
    requires n.log == [row] && n.copied < row.id && row.assoc.mxid.Some? && Storable(row.assoc)
    requires forall r | r in n.global :: r.origin.server == s && r.origin.id < row.id
    ensures CopyRows(w, s, n, 1) == n.(global := n.global + {MakeRow(ReceiverAt(w, n, s), row)}, copied := row.id)
  {
    var last := LastIdFrom(n.global, s);
    assert last < row.id;
    assert n.log[..0] == [] && n.log[0] == row;
    assert SelectAfter(n.log, last) == [row];
    ReplayStep(ReceiverAt(w, n, s), n.global, [row], 0);
    assert [row][..1] == [row] && [row][..0] == [];
  }

  /** Two binds of one identifier, each followed by its local push. */
  function RebindSteps(s: Server, first: string, at: int, second: string, later: int): seq<Step> {
    [Bind(s, Lookups.PHONE, first, at), CopyLocally(s, 1), Bind(s, Lookups.PHONE, second, later), CopyLocally(s, 1)]
  }

  /** They leave both rows in the global table, whoever the users are and whatever the clock says. */
  lemma RebindReaches(w: World, init: Servers, s: Server, first: string, at: int, second: string, later: int)
    requires Initial(init) && s in init && w.owner(Lookups.PHONE) == s
    ensures var cl := Run(w, init, RebindSteps(s, first, at, second, later));
            && s in cl
            && cl[s].global == Lookups.Rebound(LookupHash(w.lib, Lookups.PHONE, init[s].pepper), s, first, at, second, later)
            && cl[s].log == [LogRow(2, BindAssoc(Lookups.PHONE, second, later))]
  {
    hide Run, Next, CopyRows, Replay;
    var tp := Lookups.PHONE;
    var b1, c, b2 := Bind(s, tp, first, at), CopyLocally(s, 1), Bind(s, tp, second, later);
    RunFour(w, init, b1, c, b2, c);
    var n0 := init[s];
    var r1, r2 := LogRow(1, BindAssoc(tp, first, at)), LogRow(2, BindAssoc(tp, second, later));
    var n1 := n0.(log := [r1], nextId := 2, history := map[1 := r1.assoc]);
    BindStep(w, init, s, n0, first, at);
    assert Without([], tp) == [];
    assert Append(n0, r1.assoc) == n1;
    var cl1 := init[s := n1];
    assert Next(w, init, b1) == cl1;
    var n2 := n1.(global := n1.global + {MakeRow(ReceiverAt(w, n1, s), r1)}, copied := 1);
    CopyOneRow(w, s, n1, r1);
    CopyStep(w, init[s := n1], s, 1);
    assert cl1[s := n2] == init[s := n2];
    assert Next(w, cl1, c) == init[s := n2];
    BindStep(w, init[s := n2], s, n2, second, later);
    WithoutOnly(r1);
    var n3 := Append(n2, r2.assoc);
    assert n3.log == [r2] && init[s := n2][s := n3] == init[s := n3];
    assert Next(w, init[s := n2], b2) == init[s := n3];
    CopyOneRow(w, s, n3, r2);
    CopyStep(w, init[s := n3], s, 1);
    var n4 := n3.(global := n3.global + {MakeRow(ReceiverAt(w, n3, s), r2)}, copied := 2);
    assert Run(w, init, [b1, c, b2, c]) == init[s := n3][s := n4];
    assert Normalise(w.lib, tp) == tp;
  }

  /** A run after which the hashed lookup gives the old user although the plain lookup gives only the new one. */
  lemma StaleTableIsReachable(w: World, init: Servers, s: Server, results: map<string, string>)
    requires Initial(init) && s in init && w.owner(Lookups.PHONE) == s
    requires var cl, h := Run(w, init, RebindSteps(s, "@z", 1, "@a", 2)), LookupHash(w.lib, Lookups.PHONE, init[s].pepper);
             s in cl && Lookups.HashAnswer(results, cl[s].global, [h], 3)
    ensures var cl, h := Run(w, init, RebindSteps(s, "@z", 1, "@a", 2)), LookupHash(w.lib, Lookups.PHONE, init[s].pepper);
            && results == map[h := "@z"]
            && Answers(cl[s].global, Lookups.PHONE.medium, Lookups.PHONE.address, 3, Some("@a"))
            && !Answers(cl[s].global, Lookups.PHONE.medium, Lookups.PHONE.address, 3, Some("@z"))
  {
    hide Run, Answers, Lookups.HashAnswer, Lookups.Rebound, LookupHash;
    RebindReaches(w, init, s, "@z", 1, "@a", 2);
    Lookups.HashedCanBeStale(results, LookupHash(w.lib, Lookups.PHONE, init[s].pepper), s);
  }

  /** Two binds in one millisecond make the lookup ambiguous: afterwards both users are possible answers, for
      as long as the bindings are valid. */
  lemma EqualTimestampsAreAmbiguous(w: World, init: Servers, s: Server, first: string, second: string, at: int, now: int)
    requires Initial(init) && s in init && w.owner(Lookups.PHONE) == s
    requires at < now < at + THREEPID_ASSOCIATION_LIFETIME_MS
    ensures var cl := Run(w, init, RebindSteps(s, first, at, second, at));
            && s in cl
            && Answers(cl[s].global, Lookups.PHONE.medium, Lookups.PHONE.address, now, Some(first))
            && Answers(cl[s].global, Lookups.PHONE.medium, Lookups.PHONE.address, now, Some(second))
  {
    hide Run;
    RebindReaches(w, init, s, first, at, second, at);
    var h, life := LookupHash(w.lib, Lookups.PHONE, init[s].pepper), THREEPID_ASSOCIATION_LIFETIME_MS;
    var t := Lookups.Rebound(h, s, first, at, second, at);
    var a := GlobalRow(Lookups.PHONE, h, first, at, at, at + life, Origin(s, 1));
    var b := GlobalRow(Lookups.PHONE, h, second, at, at, at + life, Origin(s, 2));
    assert a in t && ValidFor(a, Lookups.PHONE.medium, Lookups.PHONE.address, now);
    assert b in t && ValidFor(b, Lookups.PHONE.medium, Lookups.PHONE.address, now);
  }

  lemma BindStep(w: World, cl: Servers, s: Server, n: Node, mxid: string, now: int)
    requires s in cl && cl[s] == n && w.owner(Lookups.PHONE) == s
    ensures Next(w, cl, Bind(s, Lookups.PHONE, mxid, now)) == cl[s := Append(n, BindAssoc(Lookups.PHONE, mxid, now))]
  {
    assert Lower(Lookups.PHONE.address) == Lookups.PHONE.address;
    BindAnyStep(w, cl, s, Lookups.PHONE, mxid, now);
  }

  lemma WithoutOnly(r: LogRow)
    ensures Without([r], r.assoc.tp) == []
  {
    assert [r][..0] == [];
  }

  // -------------------------------------------------------- a partial delivery

  const OTHER_PHONE := Threepid("msisdn", "447700900001")

  /** Bind one phone number and push it; unbind it, bind another, and start the next push. */
  function PartialSteps(s: Server, p: Server): seq<Step> {
    [Bind(s, Lookups.PHONE, "@a", 10)] + Round(s, p)
    + [Unbind(s, Lookups.PHONE, "@a", 20), Bind(s, OTHER_PHONE, "@b", 30), StartPush(s, p)]
  }

  lemma WindowOfAll(log: Log, after: int)
    requires |log| <= ASSOCIATIONS_PUSH_LIMIT && forall i | 0 <= i < |log| :: log[i].id > after
    ensures Window(log, after, ASSOCIATIONS_PUSH_LIMIT) == log
  {
    hide SelectAfter;
    SelectsTail(log, after, 0);
    assert log[0..] == log;
  }

  lemma ReplayOne(rc: Receiver, r: LogRow)
    requires Storable(r.assoc)
    ensures Replay(rc, {}, [r]) == {MakeRow(rc, r)}
  {
    assert [r][..1] == [r] && [r][..0] == [];
    ReplayStep(rc, {}, [r], 0);
  }

  /** The first successful push of a log of one binding. */
  lemma FirstRound(w: World, cl: Servers, s: Server, p: Server, r: LogRow)
    requires s in cl && p in cl && s != p && cl[s].log == [r] && cl[s].flight == map[] && cl[s].sent == map[]
    requires cl[p].global == {} && Storable(r.assoc)
    ensures Run(w, cl, Round(s, p)) ==
            cl[s := cl[s].(sent := map[p := r.id])][p := cl[p].(global := {MakeRow(ReceiverAt(w, cl[p], s), r)})]
  {
    hide Run, Next, Replay, SortById, Window;
    RunRound(w, cl, s, p);
    var n := cl[s];
    WindowOfAll([r], -1);
    StartStep(w, cl, s, p, [r]);
    var cl1 := cl[s := n.(flight := map[p := Sent([r])])];
    assert n.flight[p := Sent([r])] == map[p := Sent([r])];
    DeliverAllStep(w, cl1, s, p, [r]);
    ReplayOne(ReceiverAt(w, cl[p], s), r);
    var cl2 := Store(w, cl1, s, p, [r], Accepted([r]));
    AcknowledgeStep(w, cl2, s, p, [r]);
    assert cl2[s].flight - {p} == map[] && cl2[s].sent[p := r.id] == map[p := r.id];
    assert cl2[s := n.(sent := map[p := r.id])] == Run(w, cl, Round(s, p));
  }

  lemma PhonesMayBeWritten(w: World, s: Server)
    requires w.owner(Lookups.PHONE) == s && w.owner(OTHER_PHONE) == s
    ensures MayWrite(w, s, Lookups.PHONE) && MayWrite(w, s, OTHER_PHONE)
    ensures Normalise(w.lib, Lookups.PHONE) == Lookups.PHONE && Normalise(w.lib, OTHER_PHONE) == OTHER_PHONE
    ensures Lookups.PHONE != OTHER_PHONE
  {
    assert Lower(Lookups.PHONE.address) == Lookups.PHONE.address && Lower(OTHER_PHONE.address) == OTHER_PHONE.address;
    assert Lookups.PHONE.address[11] != OTHER_PHONE.address[11];
  }

  /** Unbinding that number, binding another, and reading the next window. */
  lemma SecondBatch(w: World, cl: Servers, s: Server, p: Server)
    requires s in cl && p in cl && s != p && w.owner(Lookups.PHONE) == s && w.owner(OTHER_PHONE) == s
    requires var n := cl[s];
             n.log == [LogRow(1, BindAssoc(Lookups.PHONE, "@a", 10))] && n.nextId == 2 && n.flight == map[] && n.sent == map[p := 1]
    ensures var steps := [Unbind(s, Lookups.PHONE, "@a", 20), Bind(s, OTHER_PHONE, "@b", 30), StartPush(s, p)];
            var cl' := Run(w, cl, steps);
            && s in cl' && p in cl' && cl'[p] == cl[p]
            && cl'[s].flight == map[p := Sent([LogRow(2, Tombstone(Lookups.PHONE, 20)), LogRow(3, BindAssoc(OTHER_PHONE, "@b", 30))])]
  {
    hide Run, Next, MayWrite, Normalise, Without, Window;
    PhonesMayBeWritten(w, s);
    var a, b := Lookups.PHONE, OTHER_PHONE;
    RunThree(w, cl, Unbind(s, a, "@a", 20), Bind(s, b, "@b", 30), StartPush(s, p));
    var r1, r2, r3 := LogRow(1, BindAssoc(a, "@a", 10)), LogRow(2, Tombstone(a, 20)), LogRow(3, BindAssoc(b, "@b", 30));
    assert r1 in cl[s].log && HasBinding(cl[s].log, a, "@a");
    UnbindStep(w, cl, s, a, "@a", 20);
    WithoutOnly(r1);
    var n1 := Append(cl[s], r2.assoc);
    assert n1.log == [r2] && n1.nextId == 3;
    BindAnyStep(w, cl[s := n1], s, b, "@b", 30);
    WithoutOther(r2, b);
    var n2 := Append(n1, r3.assoc);
    assert n2.log == [r2, r3];
    WindowOfAll([r2, r3], 1);
    StartStep(w, cl[s := n1][s := n2], s, p, [r2, r3]);
    assert n2.flight[p := Sent([r2, r3])] == map[p := Sent([r2, r3])];
  }

  lemma WithoutOther(r: LogRow, tp: Threepid)
    requires r.assoc.tp != tp
    ensures Without([r], tp) == [r]
  {
    assert [r][..0] == [];
  }

  /** A run in which a failing push leaves the peer with neither the table it had nor the complete batch. */
  lemma PartialDeliveryIsReachable(w: World, init: Servers, s: Server, p: Server)
    requires Initial(init) && s in init && p in init && s != p
    requires w.owner(Lookups.PHONE) == s && w.owner(OTHER_PHONE) == s
    ensures var cl := Run(w, init, PartialSteps(s, p));
            && s in cl && p in cl && p in cl[s].flight && cl[s].flight[p].Sent?
            && (var rc, t, items := ReceiverAt(w, cl[p], s), cl[p].global, cl[s].flight[p].batch;
                var cl' := Next(w, cl, Deliver(s, p, {3}));
                p in cl' && cl'[p].global != t && cl'[p].global != Replay(rc, t, items))
  {
    hide Run, Next, Replay, SortById;
    var r1 := LogRow(1, BindAssoc(Lookups.PHONE, "@a", 10));
    var first, rest := [Bind(s, Lookups.PHONE, "@a", 10)], [Unbind(s, Lookups.PHONE, "@a", 20), Bind(s, OTHER_PHONE, "@b", 30), StartPush(s, p)];
    RunAppend(w, init, first + Round(s, p), rest);
    RunAppend(w, init, first, Round(s, p));
    RunOne(w, init, first[0]);
    BindStep(w, init, s, init[s], "@a", 10);
    assert Without([], Lookups.PHONE) == [];
    var cl1 := init[s := Append(init[s], r1.assoc)];
    assert Run(w, init, first) == cl1 && cl1[s].log == [r1];
    FirstRound(w, cl1, s, p, r1);
    var cl2 := Run(w, cl1, Round(s, p));
    SecondBatch(w, cl2, s, p);
    var cl := Run(w, cl2, rest);
    var rc := ReceiverAt(w, cl[p], s);
    TombstoneBreaksAllOrNothing(rc);
    var items := cl[s].flight[p].batch;
    SortedAlready(items);
    DeliverStep(w, cl, s, p, {3});
  }

  lemma DeliverStep(w: World, cl: Servers, s: Server, p: Server, fails: set<nat>)
    requires s in cl && p in cl && s != p && p in cl[s].flight && cl[s].flight[p].Sent? && Ascending(cl[s].flight[p].batch)
    ensures var items := cl[s].flight[p].batch;
            var cl' := Next(w, cl, Deliver(s, p, fails));
            p in cl' && cl'[p].global == Replay(ReceiverAt(w, cl[p], s), cl[p].global, items[..CommittedLength(items, fails)])
  {
    hide Replay, SortById;
    SortedAlready(cl[s].flight[p].batch);
  }
}

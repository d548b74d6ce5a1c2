/** Replaying a batch of log rows into a global table: the meaning, its closed form, and what a
    failed request leaves committed. */
module BatchReplay {
  import opened Common
  import opened Associations

  /** The server that stores a batch: its own pepper, and the origin the batch is filed under. */
  datatype Receiver = Receiver(lib: Library, pepper: string, origin: Server)

  /** No NOT NULL column of the global table is missing. */
  predicate Storable(a: Assoc) {
    a.mxid.Some? && a.notBefore.Some? && a.notAfter.Some?
  }

  function MakeRow(rc: Receiver, item: LogRow): GlobalRow
    requires Storable(item.assoc)
  {
    var tp := Normalise(rc.lib, item.assoc.tp);
    GlobalRow(tp, LookupHash(rc.lib, tp, rc.pepper), item.assoc.mxid.value, item.assoc.ts,
              item.assoc.notBefore.value, item.assoc.notAfter.value, Origin(rc.origin, item.id))
  }

  function ReplayItem(rc: Receiver, t: set<GlobalRow>, item: LogRow): set<GlobalRow> {
    if item.assoc.mxid.None? then RemoveRows(t, Normalise(rc.lib, item.assoc.tp))
    else if Storable(item.assoc) then AddRow(t, MakeRow(rc, item))
    else t
  }

  function Replay(rc: Receiver, t: set<GlobalRow>, items: Log): set<GlobalRow> {
    if items == [] then t else ReplayItem(rc, Replay(rc, t, items[..|items| - 1]), items[|items| - 1])
  }

  lemma ReplayStep(rc: Receiver, t: set<GlobalRow>, items: Log, k: nat)
    requires k < |items|
    ensures Replay(rc, t, items[..k + 1]) == ReplayItem(rc, Replay(rc, t, items[..k]), items[k])
  {
    assert items[..k + 1][..k] == items[..k];
  }

  lemma {:induction false} ReplayAppend(rc: Receiver, t: set<GlobalRow>, a: Log, b: Log)
    ensures Replay(rc, t, a + b) == Replay(rc, Replay(rc, t, a), b)
  {
    hide ReplayItem;
    if b == [] {
      assert a + b == a;
    } else {
      ReplayAppend(rc, t, a, b[..|b| - 1]);
      assert (a + b)[..|a + b| - 1] == a + b[..|b| - 1];
    }
  }

  // ------------------------------------------------------------ closed form

  /** The batch deletes the identifier. */
  predicate Clears(rc: Receiver, items: Log, tp: Threepid) {
    exists x | x in items :: x.assoc.mxid.None? && Normalise(rc.lib, x.assoc.tp) == tp
  }

  /** The batch carries the row. */
  predicate Carries(rc: Receiver, items: Log, r: GlobalRow) {
    exists x | x in items :: Storable(x.assoc) && MakeRow(rc, x) == r
  }

  /** After normalisation each identifier still occurs once. */
  predicate Separate(rc: Receiver, items: Log) {
    forall i, j | 0 <= i < j < |items| ::
      items[i].id != items[j].id && Normalise(rc.lib, items[i].assoc.tp) != Normalise(rc.lib, items[j].assoc.tp)
  }

  /** What the table already holds under an (origin, id) of the batch is what the batch says. */
  predicate Agrees(rc: Receiver, t: set<GlobalRow>, items: Log) {
    forall r, x | r in t && x in items && r.origin == Origin(rc.origin, x.id) ::
      Storable(x.assoc) && r == MakeRow(rc, x)
  }

  lemma {:induction false} ReplayClosedForm(rc: Receiver, t: set<GlobalRow>, items: Log)
    requires Separate(rc, items) && Agrees(rc, t, items)
    ensures forall r :: r in Replay(rc, t, items) <==> Carries(rc, items, r) || (r in t && !Clears(rc, items, r.tp))
  {
    if items != [] {
      var front, last := items[..|items| - 1], items[|items| - 1];
      assert forall x :: x in items <==> x in front || x == last;
      ReplayClosedForm(rc, t, front);
      forall r
        ensures r in Replay(rc, t, items) <==> Carries(rc, items, r) || (r in t && !Clears(rc, items, r.tp))
      {
        ReplayClosedFormLast(rc, t, items, r);
      }
    }
  }

  lemma ReplayClosedFormLast(rc: Receiver, t: set<GlobalRow>, items: Log, r: GlobalRow)
    requires items != [] && Separate(rc, items) && Agrees(rc, t, items)
    requires var front := items[..|items| - 1];
             forall x :: x in Replay(rc, t, front) <==> Carries(rc, front, x) || (x in t && !Clears(rc, front, x.tp))
    ensures r in Replay(rc, t, items) <==> Carries(rc, items, r) || (r in t && !Clears(rc, items, r.tp))
  {
    var front, last := items[..|items| - 1], items[|items| - 1];
    var mid := Replay(rc, t, front);
    var lastTp := Normalise(rc.lib, last.assoc.tp);
    assert forall x :: x in items <==> x in front || x == last;
    assert Clears(rc, items, r.tp) <==> Clears(rc, front, r.tp) || (last.assoc.mxid.None? && lastTp == r.tp);
    assert Carries(rc, items, r) <==> Carries(rc, front, r) || (Storable(last.assoc) && MakeRow(rc, last) == r);
    // Earlier items speak about other identifiers and other ids.
    assert forall x | x in front :: x.id != last.id && Normalise(rc.lib, x.assoc.tp) != lastTp;
    assert !Clears(rc, front, lastTp);
    assert forall y | Carries(rc, front, y) :: y.tp != lastTp && y.origin != Origin(rc.origin, last.id);
    if Storable(last.assoc) {
      var row := MakeRow(rc, last);
      if y :| y in mid && y.origin == row.origin {
        assert y in t && y == row;
      }
    }
  }

  /** Re-sending a batch of which a prefix was kept gives what one complete replay gives. */
  lemma ResendConverges(rc: Receiver, t: set<GlobalRow>, items: Log, k: nat)
    requires Separate(rc, items) && Agrees(rc, t, items) && k <= |items|
    ensures Replay(rc, Replay(rc, t, items[..k]), items) == Replay(rc, t, items)
  {
    var pre := items[..k];
    var mid := Replay(rc, t, pre);
    assert forall x | x in pre :: x in items;
    assert Agrees(rc, t, pre);
    ReplayClosedForm(rc, t, pre);
    assert Agrees(rc, mid, items) by { PrefixAgrees(rc, t, items, k); }
    ReplayClosedForm(rc, mid, items);
    ReplayClosedForm(rc, t, items);
    forall r
      ensures r in Replay(rc, mid, items) <==> r in Replay(rc, t, items)
    {
      if Carries(rc, pre, r) { assert Carries(rc, items, r); }
      if Clears(rc, pre, r.tp) { assert Clears(rc, items, r.tp); }
    }
  }

  lemma SameIdSameItem(rc: Receiver, items: Log, x: LogRow, y: LogRow)
    requires Separate(rc, items) && x in items && y in items && x.id == y.id
    ensures x == y
  {
    var i :| 0 <= i < |items| && items[i] == x;
    var j :| 0 <= j < |items| && items[j] == y;
  }

  /** A table into which a prefix was replayed still agrees with the whole batch. */
  lemma PrefixAgrees(rc: Receiver, t: set<GlobalRow>, items: Log, k: nat)
    requires Separate(rc, items) && Agrees(rc, t, items) && k <= |items|
    ensures Agrees(rc, Replay(rc, t, items[..k]), items)
  {
    hide Replay;
    var pre := items[..k];
    assert forall x | x in pre :: x in items;
    assert Agrees(rc, t, pre);
    ReplayClosedForm(rc, t, pre);
    forall r, x | r in Replay(rc, t, pre) && x in items && r.origin == Origin(rc.origin, x.id)
      ensures Storable(x.assoc) && r == MakeRow(rc, x)
    {
      if Carries(rc, pre, r) {
        var y :| y in pre && Storable(y.assoc) && MakeRow(rc, y) == r;
        SameIdSameItem(rc, items, x, y);
      }
    }
  }

  // ------------------------------------------- what a failed request leaves

  /** The position of the first item that fails, or the length of the batch. */
  function FirstFailure(items: Log, fails: set<nat>): (k: nat)
    ensures k <= |items|
    ensures k < |items| ==> items[k].id in fails
    ensures forall i | 0 <= i < k :: items[i].id !in fails
  {
    if items == [] then 0
    else
      var k := FirstFailure(items[..|items| - 1], fails);
      if k < |items| - 1 then k
      else if items[|items| - 1].id in fails then |items| - 1
      else |items|
  }

  /** The number of leading items up to and including the last tombstone among the first k. */
  function AfterLastTombstone(items: Log, k: nat): (n: nat)
    requires k <= |items|
    ensures n <= k
    ensures n > 0 ==> items[n - 1].assoc.mxid.None?
    ensures forall i | n <= i < k :: items[i].assoc.mxid.Some?
  {
    if k == 0 then 0
    else if items[k - 1].assoc.mxid.None? then k
    else AfterLastTombstone(items, k - 1)
  }

  /** How many leading items survive in the committed table: all of them, or, when some item fails,
      those up to the last tombstone before it, because deleting commits. */
  function CommittedLength(items: Log, fails: set<nat>): nat {
    var k := FirstFailure(items, fails);
    if k == |items| then k else AfterLastTombstone(items, k)
  }

  /** The table already says what the items say: it holds every row they carry, and none of an identifier
      that they delete. */
  predicate AlreadySaid(rc: Receiver, t: set<GlobalRow>, items: Log) {
    && (forall x | x in items && Storable(x.assoc) :: MakeRow(rc, x) in t)
    && (forall x, r | x in items && x.assoc.mxid.None? && r in t :: r.tp != Normalise(rc.lib, x.assoc.tp))
  }

  /** A replay leaves the table alone exactly when the table already says what the items say. */
  lemma ReplayUnchangedIff(rc: Receiver, t: set<GlobalRow>, items: Log)
    requires Separate(rc, items) && Agrees(rc, t, items)
    ensures Replay(rc, t, items) == t <==> AlreadySaid(rc, t, items)
  {
    hide Replay;
    ReplayClosedForm(rc, t, items);
    if AlreadySaid(rc, t, items) {
      assert forall r :: r in Replay(rc, t, items) <==> r in t;
    }
    if Replay(rc, t, items) == t {
      forall x | x in items && Storable(x.assoc)
        ensures MakeRow(rc, x) in t
      {
        assert Carries(rc, items, MakeRow(rc, x));
      }
      forall x, r | x in items && x.assoc.mxid.None? && r in t
        ensures r.tp != Normalise(rc.lib, x.assoc.tp)
      {
        if r.tp == Normalise(rc.lib, x.assoc.tp) { DeletedIsGone(rc, t, items, x, r); }
      }
    }
  }

  /** No row of an identifier that the batch deletes is there afterwards. */
  lemma DeletedIsGone(rc: Receiver, t: set<GlobalRow>, items: Log, x: LogRow, r: GlobalRow)
    requires Separate(rc, items) && Agrees(rc, t, items)
    requires x in items && x.assoc.mxid.None? && r.tp == Normalise(rc.lib, x.assoc.tp)
    ensures r !in Replay(rc, t, items)
  {
    hide Replay;
    ReplayClosedForm(rc, t, items);
    assert Clears(rc, items, r.tp);
    assert !Carries(rc, items, r);
  }

  lemma SeparateParts(rc: Receiver, t: set<GlobalRow>, items: Log, n: nat)
    requires Separate(rc, items) && Agrees(rc, t, items) && n <= |items|
    ensures Separate(rc, items[..n]) && Separate(rc, items[n..])
    ensures Agrees(rc, t, items[..n]) && Agrees(rc, t, items[n..])
    ensures forall x, y | x in items[..n] && y in items[n..] ::
              x.id != y.id && Normalise(rc.lib, x.assoc.tp) != Normalise(rc.lib, y.assoc.tp)
  {
    assert forall x | x in items[..n] || x in items[n..] :: x in items;
    forall x, y | x in items[..n] && y in items[n..]
      ensures x.id != y.id && Normalise(rc.lib, x.assoc.tp) != Normalise(rc.lib, y.assoc.tp)
    {
      var i :| 0 <= i < n && items[i] == x;
      var j :| 0 <= j < |items| - n && items[n..][j] == y;
      assert items[n + j] == y;
    }
  }

  /** The rest of a batch is about other identifiers and ids, so the first part does not change what the
      table says about it. */
  lemma RestUnaffected(rc: Receiver, t: set<GlobalRow>, items: Log, n: nat)
    requires Separate(rc, items) && Agrees(rc, t, items) && n <= |items|
    ensures AlreadySaid(rc, Replay(rc, t, items[..n]), items[n..]) <==> AlreadySaid(rc, t, items[n..])
  {
    hide Replay;
    SeparateParts(rc, t, items, n);
    var pre, rest := items[..n], items[n..];
    hide Separate, Agrees;
    ReplayClosedForm(rc, t, pre);
    forall x, r: GlobalRow | x in rest && r.tp == Normalise(rc.lib, x.assoc.tp)
      ensures r in Replay(rc, t, pre) <==> r in t
    {
      assert !Clears(rc, pre, r.tp) && !Carries(rc, pre, r);
    }
  }

  lemma AgreesWithRest(rc: Receiver, t: set<GlobalRow>, items: Log, n: nat)
    requires Separate(rc, items) && Agrees(rc, t, items) && n <= |items|
    ensures Separate(rc, items[n..]) && Agrees(rc, Replay(rc, t, items[..n]), items[n..])
  {
    hide Replay;
    SeparateParts(rc, t, items, n);
    PrefixAgrees(rc, t, items, n);
    assert forall x | x in items[n..] :: x in items;
  }

  /** Keeping the first n items gives the old table exactly when it already says what they say, and the table
      of the complete batch exactly when the old one already says what the other items say. */
  lemma KeptPartIff(rc: Receiver, t: set<GlobalRow>, items: Log, n: nat)
    requires Separate(rc, items) && Agrees(rc, t, items) && n <= |items|
    ensures Replay(rc, t, items[..n]) == t <==> AlreadySaid(rc, t, items[..n])
    ensures Replay(rc, t, items[..n]) == Replay(rc, t, items) <==> AlreadySaid(rc, t, items[n..])
  {
    hide Replay, Separate, Agrees, AlreadySaid;
    var mid := Replay(rc, t, items[..n]);
    SeparateParts(rc, t, items, n);
    ReplayUnchangedIff(rc, t, items[..n]);
    AgreesWithRest(rc, t, items, n);
    ReplayUnchangedIff(rc, mid, items[n..]);
    RestUnaffected(rc, t, items, n);
    ReplayAppend(rc, t, items[..n], items[n..]);
    assert items[..n] + items[n..] == items;
  }

  /** The table that a request leaves is the old one or that of the complete batch exactly when the old table
      already says what the kept items say, or already says what the lost items say. */
  lemma AllOrNothingIff(rc: Receiver, t: set<GlobalRow>, items: Log, fails: set<nat>)
    requires Separate(rc, items) && Agrees(rc, t, items)
    ensures var n := CommittedLength(items, fails);
            Replay(rc, t, items[..n]) in {t, Replay(rc, t, items)} <==>
            (AlreadySaid(rc, t, items[..n]) || AlreadySaid(rc, t, items[n..]))
  {
    hide Replay, Separate, Agrees, AlreadySaid;
    KeptPartIff(rc, t, items, CommittedLength(items, fails));
  }

  /** Without tombstones a batch is stored completely when no item fails, and not at all otherwise, whatever
      the table holds. */
  lemma AllOrNothingWithoutTombstones(rc: Receiver, t: set<GlobalRow>, items: Log, fails: set<nat>)
    requires forall x | x in items :: x.assoc.mxid.Some?
    ensures Replay(rc, t, items[..CommittedLength(items, fails)]) ==
            if exists x | x in items :: x.id in fails then t else Replay(rc, t, items)
  {
    assert Replay(rc, t, []) == t;
    hide Replay;
    assert items[..|items|] == items;
    assert items[..0] == [];
    assert forall i | 0 <= i < |items| :: items[i] in items;
  }

  /** A failing batch of a deletion and a binding, as a log window can be, is neither: the deletion stays and
      the binding is lost. */
  lemma TombstoneBreaksAllOrNothing(rc: Receiver)
    ensures var a, b := Threepid("msisdn", "447700900000"), Threepid("msisdn", "447700900001");
            var items: Log := [LogRow(2, Tombstone(a, 20)), LogRow(3, BindAssoc(b, "@b", 30))];
            var t := {MakeRow(rc, LogRow(1, BindAssoc(a, "@a", 10)))};
            var kept := Replay(rc, t, items[..CommittedLength(items, {3})]);
            && Ascending(items) && OneRowPerThreepid(items) && Separate(rc, items) && Agrees(rc, t, items)
            && kept == {} && kept != t && kept != Replay(rc, t, items)
  {
    var a, b := Threepid("msisdn", "447700900000"), Threepid("msisdn", "447700900001");
    var gone, bind := LogRow(2, Tombstone(a, 20)), LogRow(3, BindAssoc(b, "@b", 30));
    var items := [gone, bind];
    var t := {MakeRow(rc, LogRow(1, BindAssoc(a, "@a", 10)))};
    assert items[1].id == 3 && FirstFailure(items, {3}) == 1;
    assert items[0].assoc.mxid.None? && CommittedLength(items, {3}) == 1;
    assert items[..1] == [gone] && [gone][..0] == [] && items[..2] == items;
    ReplayStep(rc, t, items, 0);
    ReplayStep(rc, t, items, 1);
    assert MakeRow(rc, bind) in Replay(rc, t, items);
  }

  // --------------------------------------------------- order of origin ids

  predicate InIdOrder(rows: Log) {
    forall i, j | 0 <= i < j < |rows| :: rows[i].id <= rows[j].id
  }

  function InsertById(rows: Log, row: LogRow): Log {
    if rows == [] || rows[|rows| - 1].id <= row.id then rows + [row]
    else InsertById(rows[..|rows| - 1], row) + [rows[|rows| - 1]]
  }

  /** sorted(..., key=int(originId)) */
  function SortById(rows: Log): Log {
    if rows == [] then [] else InsertById(SortById(rows[..|rows| - 1]), rows[|rows| - 1])
  }

  lemma InOrderAppend(rows: Log, row: LogRow)
    requires InIdOrder(rows) && forall x | x in rows :: x.id <= row.id
    ensures InIdOrder(rows + [row])
  {
    assert forall i | 0 <= i < |rows| :: rows[i] in rows;
  }

  lemma {:induction false} InsertKeepsOrder(rows: Log, row: LogRow)
    requires InIdOrder(rows)
    ensures InIdOrder(InsertById(rows, row))
    ensures multiset(InsertById(rows, row)) == multiset(rows) + multiset{row}
  {
    if rows == [] || rows[|rows| - 1].id <= row.id {
      InOrderAppend(rows, row);
    } else {
      var front, last := rows[..|rows| - 1], rows[|rows| - 1];
      assert rows == front + [last];
      InsertKeepsOrder(front, row);
      forall x | x in InsertById(front, row)
        ensures x.id <= last.id
      {
        assert x in multiset(InsertById(front, row));
      }
      InOrderAppend(InsertById(front, row), last);
    }
  }

  /** Whatever order a batch arrives in, it is replayed in id order, every item once. */
  lemma {:induction false} SortByIdSorts(rows: Log)
    ensures InIdOrder(SortById(rows)) && multiset(SortById(rows)) == multiset(rows)
  {
    hide InsertById;
    if rows != [] {
      var front, last := rows[..|rows| - 1], rows[|rows| - 1];
      assert rows == front + [last];
      SortByIdSorts(front);
      InsertKeepsOrder(SortById(front), last);
    }
  }

  lemma InsertLast(rows: Log, row: LogRow)
    requires rows == [] || rows[|rows| - 1].id <= row.id
    ensures InsertById(rows, row) == rows + [row]
  {
  }

  /** A window, which is already in id order, is replayed in the order it was read. */
  lemma {:induction false} SortedAlready(rows: Log)
    requires Ascending(rows)
    ensures SortById(rows) == rows
  {
    hide InsertById;
    if rows != [] {
      var front, last := rows[..|rows| - 1], rows[|rows| - 1];
      SortedAlready(front);
      assert |front| > 0 ==> front[|front| - 1].id < last.id;
      InsertLast(front, last);
    }
  }
}

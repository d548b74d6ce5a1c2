/** The association log of one server and the global association table: what each SQL statement does. */
module Associations {
  import opened Common

  /** mxid is None in a deletion row (a tombstone). */
  datatype Assoc = Assoc(tp: Threepid, mxid: Option<string>, ts: int, notBefore: Option<int>, notAfter: Option<int>)

  datatype LogRow = LogRow(id: nat, assoc: Assoc)

  datatype Origin = Origin(server: Server, id: nat)

  datatype GlobalRow = GlobalRow(tp: Threepid, lookupHash: string, mxid: string, ts: int,
                                 notBefore: int, notAfter: int, origin: Origin)

  /** Rows of local_threepid_associations in id order. */
  type Log = seq<LogRow>

  /** 100 years. */
  const THREEPID_ASSOCIATION_LIFETIME_MS: int := 100 * 365 * 24 * 60 * 60 * 1000

  // ---------------------------------------------------------------- the log

  predicate Ascending(log: Log) {
    forall i, j | 0 <= i < j < |log| :: log[i].id < log[j].id
  }

  /** The unique index on (medium, address). */
  predicate OneRowPerThreepid(log: Log) {
    forall i, j | 0 <= i < j < |log| :: log[i].assoc.tp != log[j].assoc.tp
  }

  predicate IdsBelow(log: Log, bound: int) {
    forall r | r in log :: r.id < bound
  }

  /** DELETE ... WHERE medium = ? AND address = ? */
  function Without(log: Log, tp: Threepid): (rest: Log)
    ensures forall r :: r in rest <==> r in log && r.assoc.tp != tp
  {
    if log == [] then []
    else
      var rest := Without(log[..|log| - 1], tp);
      var last := log[|log| - 1];
      assert log == log[..|log| - 1] + [last];
      if last.assoc.tp == tp then rest else rest + [last]
  }

  /** INSERT OR REPLACE: the row with the same identifier goes, the new row gets a fresh id at the end. */
  function Replace(log: Log, row: LogRow): Log {
    Without(log, row.assoc.tp) + [row]
  }

  /** SELECT ... WHERE id > ? ORDER BY id ASC */
  function SelectAfter(log: Log, after: int): (rows: Log)
    ensures forall r :: r in rows <==> r in log && r.id > after
  {
    if log == [] then []
    else
      var rows := SelectAfter(log[..|log| - 1], after);
      var last := log[|log| - 1];
      assert log == log[..|log| - 1] + [last];
      if last.id > after then rows + [last] else rows
  }

  function Take(log: Log, limit: nat): Log {
    if |log| <= limit then log else log[..limit]
  }

  /** SELECT ... WHERE id > ? ORDER BY id ASC LIMIT ? */
  function Window(log: Log, after: int, limit: nat): Log {
    Take(SelectAfter(log, after), limit)
  }

  /** The highest id of a nonempty batch in id order. */
  function LastOf(log: Log): nat
    requires log != []
  {
    log[|log| - 1].id
  }

  predicate HasBinding(log: Log, tp: Threepid, mxid: string) {
    exists r | r in log :: r.assoc.tp == tp && r.assoc.mxid == Some(mxid)
  }

  function BindAssoc(tp: Threepid, mxid: string, now: int): Assoc {
    Assoc(tp, Some(mxid), now, Some(now), Some(now + THREEPID_ASSOCIATION_LIFETIME_MS))
  }

  function Tombstone(tp: Threepid, now: int): Assoc {
    Assoc(tp, None, now, None, None)
  }

  lemma AppendKeepsOrder(rows: Log, last: LogRow)
    requires Ascending(rows) && OneRowPerThreepid(rows)
    requires forall r | r in rows :: r.id < last.id && r.assoc.tp != last.assoc.tp
    ensures Ascending(rows + [last]) && OneRowPerThreepid(rows + [last])
  {
    assert forall i | 0 <= i < |rows| :: rows[i] in rows;
  }

  lemma LastIsLargest(log: Log, r: LogRow)
    requires log != [] && Ascending(log) && OneRowPerThreepid(log) && r in log[..|log| - 1]
    ensures r.id < log[|log| - 1].id && r.assoc.tp != log[|log| - 1].assoc.tp
  {
    var i :| 0 <= i < |log| - 1 && log[i] == r;
  }

  lemma {:induction false} WithoutKeepsOrder(log: Log, tp: Threepid)
    requires Ascending(log) && OneRowPerThreepid(log)
    ensures Ascending(Without(log, tp)) && OneRowPerThreepid(Without(log, tp))
  {
    if log != [] {
      var front, last := log[..|log| - 1], log[|log| - 1];
      WithoutKeepsOrder(front, tp);
      if last.assoc.tp != tp {
        forall r | r in Without(front, tp) ensures r.id < last.id && r.assoc.tp != last.assoc.tp { LastIsLargest(log, r); }
        AppendKeepsOrder(Without(front, tp), last);
      }
    }
  }

  lemma ReplaceKeepsOrder(log: Log, row: LogRow)
    requires Ascending(log) && OneRowPerThreepid(log) && IdsBelow(log, row.id)
    ensures Ascending(Replace(log, row)) && OneRowPerThreepid(Replace(log, row))
    ensures forall r :: r in Replace(log, row) <==> r == row || (r in log && r.assoc.tp != row.assoc.tp)
  {
    WithoutKeepsOrder(log, row.assoc.tp);
    AppendKeepsOrder(Without(log, row.assoc.tp), row);
  }

  lemma {:induction false} SelectAfterKeepsOrder(log: Log, after: int)
    requires Ascending(log) && OneRowPerThreepid(log)
    ensures Ascending(SelectAfter(log, after)) && OneRowPerThreepid(SelectAfter(log, after))
  {
    if log != [] {
      var front, last := log[..|log| - 1], log[|log| - 1];
      SelectAfterKeepsOrder(front, after);
      if last.id > after {
        forall r | r in SelectAfter(front, after) ensures r.id < last.id && r.assoc.tp != last.assoc.tp {
          LastIsLargest(log, r);
        }
        AppendKeepsOrder(SelectAfter(front, after), last);
      }
    }
  }

  lemma PrefixHolds(rows: Log, k: nat, r: LogRow)
    requires Ascending(rows) && 0 < k <= |rows| && r in rows && r.id <= rows[k - 1].id
    ensures r in rows[..k]
  {
    var i :| 0 <= i < |rows| && rows[i] == r;
    assert rows[..k][i] == r;
  }

  /** A windowed read is in order, and nothing between the cursor and its last id is left out. */
  lemma WindowComplete(log: Log, after: int, limit: nat)
    requires Ascending(log) && OneRowPerThreepid(log)
    ensures var w := Window(log, after, limit);
            && Ascending(w) && OneRowPerThreepid(w)
            && |w| == (if |SelectAfter(log, after)| <= limit then |SelectAfter(log, after)| else limit)
            && (forall r | r in w :: r in log && r.id > after)
            && (w != [] ==> forall r | r in log && after < r.id <= LastOf(w) :: r in w)
            && (w == [] && limit > 0 ==> forall r | r in log :: r.id <= after)
  {
    hide SelectAfter;
    SelectAfterKeepsOrder(log, after);
    var rows, w := SelectAfter(log, after), Window(log, after, limit);
    assert w == rows[..|w|];
    assert forall r | r in w :: r in rows;
    if w != [] {
      forall r | r in log && after < r.id <= LastOf(w)
        ensures r in w
      {
        PrefixHolds(rows, |w|, r);
      }
    }
  }

  lemma SelectAfterLast(log: Log, after: int)
    requires log != []
    ensures var rows, last := SelectAfter(log[..|log| - 1], after), log[|log| - 1];
            SelectAfter(log, after) == if last.id > after then rows + [last] else rows
  {
  }

  lemma {:induction false} NothingAbove(log: Log, after: int)
    requires forall r | r in log :: r.id <= after
    ensures SelectAfter(log, after) == []
  {
    if log != [] {
      assert log[|log| - 1] in log;
      NothingAbove(log[..|log| - 1], after);
    }
  }

  /** Reading after the last id of the first k rows gives the rows from k on. */
  lemma {:induction false} SelectAfterOfAscending(rows: Log, k: nat)
    requires Ascending(rows) && 0 < k <= |rows|
    ensures SelectAfter(rows, rows[k - 1].id) == rows[k..]
  {
    hide SelectAfter;
    var n := |rows|;
    if k < n {
      var front := rows[..n - 1];
      SelectAfterOfAscending(front, k);
      SelectAfterLast(rows, rows[k - 1].id);
      assert front[k - 1] == rows[k - 1] && rows[k - 1].id < rows[n - 1].id;
      assert front[k..] + [rows[n - 1]] == rows[k..];
    } else {
      NothingAbove(rows, rows[n - 1].id);
    }
  }

  /** Rows in id order are those up to a cursor followed by those after it. */
  lemma SplitAtCursor(rows: Log, cursor: int) returns (k: nat)
    requires Ascending(rows)
    ensures k <= |rows| && rows[k..] == SelectAfter(rows, cursor)
    ensures forall i | 0 <= i < k :: rows[i].id <= cursor
  {
    hide SelectAfter;
    k := |rows|;
    while k > 0 && rows[k - 1].id > cursor
      invariant k <= |rows| && forall i | k <= i < |rows| :: rows[i].id > cursor
    {
      k := k - 1;
    }
    assert forall i | 0 <= i < k :: rows[i].id <= rows[k - 1].id;
    SelectsTail(rows, cursor, k);
  }

  lemma {:induction false} SelectsTail(rows: Log, cursor: int, k: nat)
    requires k <= |rows|
    requires forall i | 0 <= i < |rows| :: rows[i].id <= cursor <==> i < k
    ensures SelectAfter(rows, cursor) == rows[k..]
  {
    hide SelectAfter;
    var n := |rows|;
    if k < n {
      var front := rows[..n - 1];
      SelectsTail(front, cursor, k);
      SelectAfterLast(rows, cursor);
      assert front[k..] + [rows[n - 1]] == rows[k..];
    } else {
      NothingAbove(rows, cursor);
    }
  }

  lemma {:induction false} SelectAfterTwice(log: Log, a: int, b: int)
    requires a <= b
    ensures SelectAfter(SelectAfter(log, a), b) == SelectAfter(log, b)
  {
    if log != [] {
      var front, last := log[..|log| - 1], log[|log| - 1];
      SelectAfterTwice(front, a, b);
      var s := SelectAfter(front, a);
      if last.id > a {
        assert (s + [last])[..|s|] == s;
      }
    }
  }

  /** A push that succeeds shortens the backlog by exactly the rows it sent. */
  lemma BacklogShrinks(log: Log, after: int, limit: nat)
    requires Ascending(log) && OneRowPerThreepid(log) && Window(log, after, limit) != []
    ensures var w := Window(log, after, limit);
            SelectAfter(log, LastOf(w)) == SelectAfter(log, after)[|w|..]
  {
    SelectAfterKeepsOrder(log, after);
    var rows, w := SelectAfter(log, after), Window(log, after, limit);
    assert rows[|w| - 1] == w[|w| - 1];
    SelectAfterOfAscending(rows, |w|);
    assert w[|w| - 1] in rows;
    SelectAfterTwice(log, after, LastOf(w));
  }

  // ------------------------------------------------------- the global table

  /** INSERT OR IGNORE: the unique index is on (originServer, originId). */
  function AddRow(t: set<GlobalRow>, row: GlobalRow): set<GlobalRow> {
    if exists x | x in t :: x.origin == row.origin then t else t + {row}
  }

  /** DELETE ... WHERE medium = ? AND address = ?, whatever the origin. */
  function RemoveRows(t: set<GlobalRow>, tp: Threepid): set<GlobalRow> {
    set r | r in t && r.tp != tp
  }

  predicate IsLastId(t: set<GlobalRow>, server: Server, last: int) {
    && (forall r | r in t && r.origin.server == server :: r.origin.id <= last)
    && (last == -1 || exists r | r in t :: r.origin.server == server && r.origin.id == last)
  }

  /** The largest originId stored for a server, or -1 when there is none. */
  ghost function LastIdFrom(t: set<GlobalRow>, server: Server): (last: int)
    ensures IsLastId(t, server, last) && last >= -1
  {
    if t == {} then -1
    else
      var r :| r in t;
      var rest := LastIdFrom(t - {r}, server);
      if r.origin.server == server && r.origin.id > rest then r.origin.id else rest
  }

  lemma LastIdUnique(t: set<GlobalRow>, server: Server, a: int, b: int)
    requires IsLastId(t, server, a) && IsLastId(t, server, b) && a >= -1 && b >= -1
    ensures a == b
  {
  }

  /** The rows a lookup for (medium, address) may return at time `now`. */
  ghost predicate ValidFor(r: GlobalRow, medium: string, address: string, now: int) {
    r.tp.medium == medium && Lower(r.tp.address) == Lower(address) && r.notBefore < now < r.notAfter
  }

  /** SELECT mxid ... ORDER BY ts DESC LIMIT 1: `answer` is one of the results SQLite may give;
      rows with equal ts come in no promised order. */
  ghost predicate Answers(t: set<GlobalRow>, medium: string, address: string, now: int, answer: Option<string>) {
    match answer
    case None => forall r | r in t :: !ValidFor(r, medium, address, now)
    case Some(mxid) =>
      exists r | r in t :: ValidFor(r, medium, address, now) && r.mxid == mxid
        && forall x | x in t && ValidFor(x, medium, address, now) :: x.ts <= r.ts
  }

  /** A row is seen by a lookup exactly when it has the medium, its address is the one asked for up to the case
      of ASCII letters, and its validity, bounds excluded, covers the time. */
  lemma ValidForIff(r: GlobalRow, medium: string, address: string, now: int)
    ensures ValidFor(r, medium, address, now) <==>
            (r.tp.medium == medium && CaseVariant(r.tp.address, address) && r.notBefore < now && now < r.notAfter)
  {
    hide Lower, CaseVariant;
    LowerEqualIff(r.tp.address, address);
  }

  lemma CaseVariantsSeeTheSame(r: GlobalRow, medium: string, a: string, b: string, now: int)
    requires CaseVariant(a, b)
    ensures ValidFor(r, medium, a, now) <==> ValidFor(r, medium, b, now)
  {
    hide Lower, CaseVariant;
    LowerEqualIff(a, b);
  }

  /** Lookups do not depend on the case of ASCII letters. */
  lemma LookupIgnoresCase(t: set<GlobalRow>, medium: string, a: string, b: string, now: int, answer: Option<string>)
    requires CaseVariant(a, b)
    ensures Answers(t, medium, a, now, answer) <==> Answers(t, medium, b, now, answer)
  {
    hide ValidFor, CaseVariant;
    forall r
      ensures ValidFor(r, medium, a, now) <==> ValidFor(r, medium, b, now)
    {
      CaseVariantsSeeTheSame(r, medium, a, b, now);
    }
  }

  /** The rows with an id above the given one; all of them when there is none. */
  function Above(log: Log, after: Option<int>): set<LogRow> {
    set r | r in log && (after.Some? ==> r.id > after.value)
  }

  lemma AboveLast(log: Log, after: int)
    requires log != [] && Ascending(log)
    ensures var front, last := log[..|log| - 1], log[|log| - 1];
            && last !in Above(front, Some(after))
            && Above(log, Some(after)) == if last.id > after then Above(front, Some(after)) + {last} else Above(front, Some(after))
  {
    var front, last := log[..|log| - 1], log[|log| - 1];
    assert log == front + [last];
    assert forall i | 0 <= i < |front| :: front[i] == log[i] && log[i].id < last.id;
  }

  lemma {:induction false} CountAbove(log: Log, after: int)
    requires Ascending(log)
    ensures |SelectAfter(log, after)| == |Above(log, Some(after))|
  {
    if log == [] {
      assert Above(log, Some(after)) == {};
    } else {
      hide SelectAfter, Above;
      CountAbove(log[..|log| - 1], after);
      SelectAfterLast(log, after);
      AboveLast(log, after);
    }
  }
}

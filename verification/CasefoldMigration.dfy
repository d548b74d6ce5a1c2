/** The migration that case-folds the email addresses of the local association table. */
module CasefoldMigration {
  import opened Common

  /** One email row; the address is its key. mxid is None in a deletion row. */
  datatype Row = Row(mxid: Option<string>, ts: int, lookupHash: Option<string>)

  /** The email rows of local_threepid_associations: the unique index makes the address a key. */
  type Table = map<string, Row>

  /** What the first query returns for a row. */
  datatype Fetched = Fetched(address: string, mxid: Option<string>)

  /** How the run was asked to behave, and how the mail server answers attempt i for an address. */
  datatype Job = Job(lib: Library, pepper: string, sendEmail: bool, smtp: (string, nat) -> bool)

  /** What the script does, in order: a mail that went out, a row deleted, a row renamed and rehashed. */
  datatype Event =
    | Emailed(address: string, mxid: Option<string>)
    | Deleted(address: string)
    | Updated(row: Fetched, address: string, lookupHash: string)

  const MAX_ATTEMPTS_FOR_EMAIL: nat := 5

  function Hash(job: Job, folded: string): string {
    LookupHash(job.lib, Threepid(EMAIL, folded), job.pepper)
  }

  predicate Distinct(fs: seq<Fetched>) {
    forall i, j | 0 <= i < j < |fs| :: fs[i].address != fs[j].address
  }

  /** SELECT address, mxid ... ORDER BY ts DESC, in any order where ts is equal. */
  ghost predicate IsFetched(fetched: seq<Fetched>, t: Table) {
    && Distinct(fetched)
    && (forall i | 0 <= i < |fetched| :: fetched[i].address in t && fetched[i].mxid == t[fetched[i].address].mxid)
    && (forall a | a in t :: Fetched(a, t[a].mxid) in fetched)
    && (forall i, j | 0 <= i < j < |fetched| && fetched[i].address in t && fetched[j].address in t ::
          t[fetched[i].address].ts >= t[fetched[j].address].ts)
  }

  /** The fetched rows whose address folds to c, newest first. */
  function Group(job: Job, fetched: seq<Fetched>, c: string): (g: seq<Fetched>)
    ensures forall f :: f in g <==> f in fetched && job.lib.casefold(f.address) == c
  {
    if fetched == [] then []
    else
      var g := Group(job, fetched[..|fetched| - 1], c);
      var last := fetched[|fetched| - 1];
      assert fetched == fetched[..|fetched| - 1] + [last];
      if job.lib.casefold(last.address) == c then g + [last] else g
  }

  /** A single row that is folded already needs nothing. */
  predicate NeedsDelta(c: string, g: seq<Fetched>) {
    !(|g| == 1 && g[0].address == c)
  }

  // ------------------------------------------------------------------ emails

  /** Some attempt succeeds. */
  predicate Delivered(job: Job, address: string) {
    exists i | 0 <= i < MAX_ATTEMPTS_FOR_EMAIL :: job.smtp(address, i)
  }

  /** Tries up to five times, sleeping 1, 2, 4, ... seconds after each failure. */
  method SendEmailWithBackoff(job: Job, address: string) returns (sent: bool, slept: nat)
    ensures sent <==> Delivered(job, address)
    ensures sent <==> exists attempt | 0 <= attempt < 5 :: job.smtp(address, attempt)
    ensures !sent ==> slept == 31
    ensures slept <= 31
  {
    var backoff := 1;
    slept := 0;
    for i := 0 to MAX_ATTEMPTS_FOR_EMAIL
      invariant forall k | 0 <= k < i :: !job.smtp(address, k)
      invariant backoff == [1, 2, 4, 8, 16, 32][i] && slept == backoff - 1
    {
      if job.smtp(address, i) {
        return true, slept;
      }
      slept := slept + backoff;
      backoff := backoff * 2;
    }
    return false, slept;
  }

  /** The owner of the deleted row must be told, and is not: the group is skipped from here on. */
  predicate Blocks(job: Job, survivor: Fetched, f: Fetched) {
    job.sendEmail && f.mxid != survivor.mxid && !Delivered(job, f.address)
  }

  /** The position of the first blocked row after the survivor, or the size of the group. */
  function FirstBlocked(job: Job, g: seq<Fetched>, from: nat): (j: nat)
    requires 0 < from <= |g|
    ensures from <= j <= |g|
    ensures forall i | from <= i < j :: !Blocks(job, g[0], g[i])
    ensures j < |g| ==> Blocks(job, g[0], g[j])
    decreases |g| - from
  {
    if from == |g| then from else if Blocks(job, g[0], g[from]) then from else FirstBlocked(job, g, from + 1)
  }

  /** Mails are off, or every duplicate of another user than the survivor's has its mail delivered at one of five
      attempts. */
  predicate MailsArrive(job: Job, g: seq<Fetched>) {
    !job.sendEmail
    || forall j | 0 < j < |g| && g[j].mxid != g[0].mxid :: exists attempt | 0 <= attempt < 5 :: job.smtp(g[j].address, attempt)
  }

  lemma NoneBlocked(job: Job, g: seq<Fetched>)
    requires g != []
    ensures MailsArrive(job, g) <==> FirstBlocked(job, g, 1) == |g|
  {
    if MailsArrive(job, g) {
      forall j | 0 < j < |g|
        ensures !Blocks(job, g[0], g[j])
      {
        if job.sendEmail && g[j].mxid != g[0].mxid {
          var attempt :| 0 <= attempt < 5 && job.smtp(g[j].address, attempt);
          assert Delivered(job, g[j].address);
        }
      }
    } else {
      var j :| 0 < j < |g| && g[j].mxid != g[0].mxid && !exists attempt | 0 <= attempt < 5 :: job.smtp(g[j].address, attempt);
      assert Blocks(job, g[0], g[j]);
    }
  }

  // ------------------------------------------------------------- one group

  function Addresses(g: seq<Fetched>): set<string> {
    set f | f in g :: f.address
  }

  function Drop(t: Table, g: seq<Fetched>): Table {
    t - Addresses(g)
  }

  /** UPDATE ... SET address, lookup_hash WHERE address = ? AND mxid = ?; a null mxid equals nothing. */
  function Rename(t: Table, f: Fetched, c: string, h: string): Table {
    if f.mxid.Some? && f.address in t && t[f.address].mxid == f.mxid
    then (t - {f.address})[c := t[f.address].(lookupHash := Some(h))]
    else t
  }

  /** What the run does to one group: delete up to the first blocked row, and, if none is, fold the survivor. */
  function ApplyGroup(job: Job, t: Table, c: string, g: seq<Fetched>): Table {
    if g == [] then t
    else
      var j := FirstBlocked(job, g, 1);
      var t1 := Drop(t, g[1..j]);
      if j < |g| then t1 else Rename(t1, g[0], c, Hash(job, c))
  }

  function GroupOutcome(job: Job, t: Table, fetched: seq<Fetched>, c: string): Table {
    var g := Group(job, fetched, c);
    if NeedsDelta(c, g) then ApplyGroup(job, t, c, g) else t
  }

  /** Two tables agree on the addresses that fold to c. */
  ghost predicate SameOn(job: Job, t: Table, u: Table, c: string) {
    forall a | job.lib.casefold(a) == c :: (a in t <==> a in u) && (a in t ==> t[a] == u[a])
  }

  ghost predicate GroupOf(job: Job, c: string, g: seq<Fetched>) {
    job.lib.casefold(c) == c && forall f | f in g :: job.lib.casefold(f.address) == c
  }

  /** A group's treatment depends on, and changes, its own addresses only. */
  lemma ApplyGroupLocal(job: Job, t: Table, u: Table, c: string, g: seq<Fetched>)
    requires GroupOf(job, c, g) && SameOn(job, t, u, c)
    ensures SameOn(job, ApplyGroup(job, t, c, g), ApplyGroup(job, u, c, g), c)
    ensures forall d | d != c :: SameOn(job, ApplyGroup(job, t, c, g), t, d)
  {
    if g != [] {
      var j := FirstBlocked(job, g, 1);
      assert g[0] in g;
      assert forall f | f in g[1..j] :: f in g;
    }
  }

  // ---------------------------------------------------------------- results

  lemma GroupLast(job: Job, fetched: seq<Fetched>, c: string)
    requires fetched != []
    ensures var g, last := Group(job, fetched[..|fetched| - 1], c), fetched[|fetched| - 1];
            Group(job, fetched, c) == if job.lib.casefold(last.address) == c then g + [last] else g
  {
  }

  /** A group is empty exactly when no fetched row folds to its address. */
  lemma {:induction false} EmptyGroupIff(job: Job, fetched: seq<Fetched>, c: string)
    ensures Group(job, fetched, c) == [] <==> forall i | 0 <= i < |fetched| :: job.lib.casefold(fetched[i].address) != c
  {
    hide Group;
    if fetched == [] {
      EmptyGroupOfNothing(job, c);
    } else {
      EmptyGroupIff(job, fetched[..|fetched| - 1], c);
      GroupLast(job, fetched, c);
    }
  }

  lemma EmptyGroupOfNothing(job: Job, c: string)
    ensures Group(job, [], c) == []
  {
  }

  /** The position of the first fetched row of a group. */
  lemma {:induction false} FirstIndex(job: Job, fetched: seq<Fetched>, c: string) returns (k: nat)
    requires Group(job, fetched, c) != []
    ensures k < |fetched| && fetched[k] == Group(job, fetched, c)[0]
    ensures forall i | 0 <= i < k :: job.lib.casefold(fetched[i].address) != c
  {
    hide Group;
    if fetched == [] { EmptyGroupOfNothing(job, c); }
    var front := fetched[..|fetched| - 1];
    GroupLast(job, fetched, c);
    if Group(job, front, c) != [] {
      k := FirstIndex(job, front, c);
    } else {
      k := |front|;
      EmptyGroupIff(job, front, c);
    }
  }

  /** The survivor of a group is a most recent row of it. */
  lemma SurvivorIsNewest(job: Job, fetched: seq<Fetched>, t: Table, c: string)
    requires IsFetched(fetched, t) && Group(job, fetched, c) != []
    ensures var g := Group(job, fetched, c);
            forall f | f in g :: f.address in t && g[0].address in t && t[g[0].address].ts >= t[f.address].ts
  {
    hide Group;
    var g := Group(job, fetched, c);
    var k := FirstIndex(job, fetched, c);
    forall f | f in g
      ensures f.address in t && g[0].address in t && t[g[0].address].ts >= t[f.address].ts
    {
      var i :| 0 <= i < |fetched| && fetched[i] == f;
      assert k <= i;
    }
  }

  lemma {:induction false} GroupDistinct(job: Job, fetched: seq<Fetched>, c: string)
    requires Distinct(fetched)
    ensures Distinct(Group(job, fetched, c))
  {
    if fetched != [] {
      var front, last := fetched[..|fetched| - 1], fetched[|fetched| - 1];
      GroupDistinct(job, front, c);
      var g := Group(job, front, c);
      forall f | f in g
        ensures f.address != last.address
      {
        var k :| 0 <= k < |front| && front[k] == f;
        assert fetched[k].address != fetched[|front|].address;
      }
      assert forall i | 0 <= i < |g| :: g[i] in g;
    }
  }

  /** The group of a folded address in the table: its rows are exactly the table's rows that fold to it. */
  lemma GroupIsComplete(job: Job, fetched: seq<Fetched>, t: Table, c: string)
    requires IsFetched(fetched, t)
    ensures var g := Group(job, fetched, c);
            && Distinct(g)
            && (forall f | f in g :: f.address in t && t[f.address].mxid == f.mxid)
            && (forall a | a in t && job.lib.casefold(a) == c :: exists f | f in g :: f.address == a)
  {
    GroupDistinct(job, fetched, c);
    var g := Group(job, fetched, c);
    forall f | f in g
      ensures f.address in t && t[f.address].mxid == f.mxid
    {
      var i :| 0 <= i < |fetched| && fetched[i] == f;
    }
    forall a | a in t && job.lib.casefold(a) == c
      ensures exists f | f in g :: f.address == a
    {
      assert Fetched(a, t[a].mxid) in fetched;
      assert Fetched(a, t[a].mxid) in g;
    }
  }

  /** A group whose emails succeed ends as one row, the most recent binding under the folded address with the
      matching hash, exactly when that most recent row is a binding: a deletion row is never renamed. */
  lemma DoneGroupOutcome(job: Job, t: Table, fetched: seq<Fetched>, c: string)
    requires IsFetched(fetched, t) && job.lib.casefold(c) == c
    requires var g := Group(job, fetched, c); g != [] && NeedsDelta(c, g) && MailsArrive(job, g)
    ensures var g := Group(job, fetched, c);
            var u := GroupOutcome(job, t, fetched, c);
            && g[0].address in t
            && (forall f | f in g :: f.address in t && t[f.address].ts <= t[g[0].address].ts)
            && (g[0].mxid.Some? ==>
                  SameOn(job, u, map[c := t[g[0].address].(lookupHash := Some(job.lib.hash(c + " " + "email" + " " + job.pepper)))], c))
            && (g[0].mxid.None? ==> SameOn(job, u, map[g[0].address := t[g[0].address]], c))
  {
    hide Group, FirstBlocked, IsFetched, MailsArrive;
    var g := Group(job, fetched, c);
    SurvivorIsNewest(job, fetched, t, c);
    GroupIsComplete(job, fetched, t, c);
    NoneBlocked(job, g);
    assert g[0] in g;
    assert g[1..|g|] == g[1..];
    DropLeavesSurvivor(job, t, c, g);
  }

  lemma DropLeavesSurvivor(job: Job, t: Table, c: string, g: seq<Fetched>)
    requires g != [] && Distinct(g) && g[0].address in t
    requires forall a | a in t && job.lib.casefold(a) == c :: exists f | f in g :: f.address == a
    ensures forall a | job.lib.casefold(a) == c || a == g[0].address :: a in Drop(t, g[1..]) <==> a == g[0].address
  {
    forall a | job.lib.casefold(a) == c || a == g[0].address
      ensures a in Drop(t, g[1..]) <==> a == g[0].address
    {
      if a == g[0].address {
        forall f | f in g[1..]
          ensures f.address != a
        {
          var i :| 0 <= i < |g[1..]| && g[1..][i] == f;
          assert g[i + 1] == f;
        }
      } else if a in t {
        var f :| f in g && f.address == a;
        var i :| 0 <= i < |g| && g[i] == f;
        assert g[1..][i - 1] == f;
      }
    }
  }

  /** A group in which some mail fails five times keeps its survivor, and every row from the first such one on,
      unchanged; the duplicates before it are gone. */
  lemma BlockedGroupKeepsSurvivor(job: Job, t: Table, fetched: seq<Fetched>, c: string)
    requires IsFetched(fetched, t)
    requires var g := Group(job, fetched, c); g != [] && !MailsArrive(job, g)
    ensures var g := Group(job, fetched, c);
            var u := GroupOutcome(job, t, fetched, c);
            exists j | 0 < j < |g| :: Stops(job, g, j)
              && (forall i | i == 0 || j <= i < |g| :: g[i].address in t && g[i].address in u && u[g[i].address] == t[g[i].address])
              && (forall i | 0 < i < j :: g[i].address !in u)
  {
    hide Group, FirstBlocked, IsFetched, MailsArrive;
    var g := Group(job, fetched, c);
    GroupIsComplete(job, fetched, t, c);
    NoneBlocked(job, g);
    var j := FirstBlocked(job, g, 1);
    StopsThere(job, g);
    forall i | 0 <= i < |g|
      ensures g[i].address in t
      ensures g[i].address in Addresses(g[1..j]) <==> 0 < i < j
    {
      assert g[i] in g;
      SliceAddresses(g, j, i);
    }
  }

  /** Position j is the first duplicate of another user whose five mails all fail. */
  predicate Stops(job: Job, g: seq<Fetched>, j: nat) {
    && j < |g| && g[j].mxid != g[0].mxid && (forall attempt | 0 <= attempt < 5 :: !job.smtp(g[j].address, attempt))
    && forall i | 0 < i < j && g[i].mxid != g[0].mxid :: exists attempt | 0 <= attempt < 5 :: job.smtp(g[i].address, attempt)
  }

  lemma StopsThere(job: Job, g: seq<Fetched>)
    requires g != [] && FirstBlocked(job, g, 1) < |g|
    ensures Stops(job, g, FirstBlocked(job, g, 1))
  {
    var j := FirstBlocked(job, g, 1);
    forall i | 0 < i < j && g[i].mxid != g[0].mxid
      ensures exists attempt | 0 <= attempt < 5 :: job.smtp(g[i].address, attempt)
    {
      assert !Blocks(job, g[0], g[i]) && Delivered(job, g[i].address);
      var k :| 0 <= k < MAX_ATTEMPTS_FOR_EMAIL && job.smtp(g[i].address, k);
    }
    assert Blocks(job, g[0], g[j]);
  }

  lemma SliceAddresses(g: seq<Fetched>, j: nat, i: nat)
    requires Distinct(g) && 1 <= j <= |g| && i < |g|
    ensures g[i].address in Addresses(g[1..j]) <==> 0 < i < j
  {
    if 0 < i < j { assert g[1..j][i - 1] == g[i]; }
    if f :| f in g[1..j] && f.address == g[i].address {
      var k :| 0 <= k < |g[1..j]| && g[1..j][k] == f;
      assert g[k + 1] == f;
    }
  }

  /** Every address is folded, and no two rows fold together. */
  ghost predicate Folded(job: Job, t: Table) {
    forall a | a in t :: job.lib.casefold(a) == a
  }

  /** A second run over folded addresses changes nothing, whatever the mail server does. */
  lemma FoldedNeedsNothing(job: Job, t: Table, fetched: seq<Fetched>, c: string)
    requires IsFetched(fetched, t) && Folded(job, t)
    ensures GroupOutcome(job, t, fetched, c) == t
  {
    hide Distinct, Group, IsFetched;
    var g := Group(job, fetched, c);
    GroupIsComplete(job, fetched, t, c);
    if g != [] { assert g[0] in g && g[0].address == c; }
    if |g| > 1 {
      assert g[1] in g;
      Apart(g);
    }
  }

  /** All emails went out and no group's most recent row is a deletion. */
  ghost predicate FullSuccess(job: Job, fetched: seq<Fetched>) {
    forall c :: var g := Group(job, fetched, c); g != [] ==> MailsArrive(job, g) && g[0].mxid.Some?
  }

  /** After a run with full success every address is folded, and a second run, with any mail server, finds
      nothing to change. */
  lemma SecondRunChangesNothing(job: Job, t: Table, fetched: seq<Fetched>, u: Table, again: Job, refetched: seq<Fetched>, c: string)
    requires ValidLibrary(job.lib) && IsFetched(fetched, t) && FullSuccess(job, fetched)
    requires forall d :: SameOn(job, u, GroupOutcome(job, t, fetched, d), d)
    requires again.lib == job.lib && IsFetched(refetched, u)
    ensures Folded(job, u) && GroupOutcome(again, u, refetched, c) == u
  {
    hide Group, IsFetched, GroupOutcome, MailsArrive;
    forall a | a in u
      ensures job.lib.casefold(a) == a
    {
      var d := job.lib.casefold(a);
      assert job.lib.casefold(d) == d;
      assert SameOn(job, u, GroupOutcome(job, t, fetched, d), d);
      OutcomeIsFolded(job, t, fetched, d, a);
    }
    FoldedNeedsNothing(again, u, refetched, c);
  }

  lemma OutcomeIsFolded(job: Job, t: Table, fetched: seq<Fetched>, c: string, a: string)
    requires IsFetched(fetched, t) && FullSuccess(job, fetched) && job.lib.casefold(c) == c
    requires a in GroupOutcome(job, t, fetched, c) && job.lib.casefold(a) == c
    ensures a == c
  {
    hide Group, IsFetched, MailsArrive;
    var g := Group(job, fetched, c);
    GroupIsComplete(job, fetched, t, c);
    if g != [] && NeedsDelta(c, g) {
      DoneGroupOutcome(job, t, fetched, c);
    } else {
      var f :| f in g && f.address == a;
      assert f == g[0];
    }
  }

  lemma Apart(g: seq<Fetched>)
    requires Distinct(g) && |g| > 1
    ensures g[0].address != g[1].address
  {
  }

  // -------------------------------------------------------------- the script

  function Effect(t: Table, e: Event): Table {
    match e
    case Emailed(_, _) => t
    case Deleted(a) => t - {a}
    case Updated(f, c, h) => Rename(t, f, c, h)
  }

  function After(t: Table, events: seq<Event>): Table {
    if events == [] then t else Effect(After(t, events[..|events| - 1]), events[|events| - 1])
  }

  lemma AfterOneMore(t: Table, events: seq<Event>, e: Event)
    ensures After(t, events + [e]) == Effect(After(t, events), e)
  {
    assert (events + [e])[..|events|] == events;
  }

  class LocalTable {
    var rows: Table
    ghost const initial: Table
    /** Everything done since the start; the table is what these events make of the initial one. */
    ghost var events: seq<Event>

    ghost predicate Valid() reads this {
      rows == After(initial, events)
    }

    constructor (rows: Table)
      ensures Valid() && this.rows == rows && initial == rows && events == []
    {
      this.rows := rows;
      initial, events := rows, [];
    }

    /** The mail to the user of a row that is to go. */
    method Email(job: Job, f: Fetched) returns (sent: bool)
      requires Valid()
      modifies this`events
      ensures Valid()
      ensures sent <==> Delivered(job, f.address)
      ensures events == if sent then old(events) + [Emailed(f.address, f.mxid)] else old(events)
    {
      hide Delivered;
      var delivered, _ := SendEmailWithBackoff(job, f.address);
      sent := delivered;
      if sent {
        AfterOneMore(initial, events, Emailed(f.address, f.mxid));
        events := events + [Emailed(f.address, f.mxid)];
      }
    }

    method Delete(address: string)
      requires Valid()
      modifies this
      ensures Valid()
      ensures rows == old(rows) - {address}
      ensures events == old(events) + [Deleted(address)]
    {
      AfterOneMore(initial, events, Deleted(address));
      rows := rows - {address};
      events := events + [Deleted(address)];
    }

    /** False is a violation of the unique index: another row has the new address. */
    method Update(f: Fetched, c: string, h: string) returns (ok: bool)
      requires Valid()
      modifies this
      ensures Valid()
      ensures ok <==> (Rename(old(rows), f, c, h) == old(rows) || c == f.address || c !in old(rows))
      ensures rows == if ok then Rename(old(rows), f, c, h) else old(rows)
      ensures events == if ok then old(events) + [Updated(f, c, h)] else old(events)
    {
      if Rename(rows, f, c, h) != rows && c != f.address && c in rows {
        return false;
      }
      AfterOneMore(initial, events, Updated(f, c, h));
      rows := Rename(rows, f, c, h);
      events := events + [Updated(f, c, h)];
      return true;
    }
  }

  /** The dictionary has exactly the nonempty groups; its keys, in order of insertion, are listed once each. */
  ghost predicate Grouped(job: Job, fetched: seq<Fetched>, keys: seq<string>, groups: map<string, seq<Fetched>>) {
    && (forall i, j | 0 <= i < j < |keys| :: keys[i] != keys[j])
    && (forall c :: c in keys <==> c in groups)
    && (forall c :: c in groups <==> Group(job, fetched, c) != [])
    && (forall c | c in groups :: groups[c] == Group(job, fetched, c))
  }

  lemma GroupedOld(job: Job, fetched: seq<Fetched>, n: nat, keys: seq<string>, groups: map<string, seq<Fetched>>)
    requires n < |fetched| && Grouped(job, fetched[..n], keys, groups) && job.lib.casefold(fetched[n].address) in groups
    ensures var c := job.lib.casefold(fetched[n].address);
            Grouped(job, fetched[..n + 1], keys, groups[c := groups[c] + [fetched[n]]])
  {
    hide Group;
    GroupStep(job, fetched, n);
  }

  lemma GroupedNew(job: Job, fetched: seq<Fetched>, n: nat, keys: seq<string>, groups: map<string, seq<Fetched>>)
    requires n < |fetched| && Grouped(job, fetched[..n], keys, groups) && job.lib.casefold(fetched[n].address) !in groups
    ensures var c := job.lib.casefold(fetched[n].address);
            Grouped(job, fetched[..n + 1], keys + [c], groups[c := [fetched[n]]])
  {
    hide Group;
    GroupStep(job, fetched, n);
    var c := job.lib.casefold(fetched[n].address);
    assert Group(job, fetched[..n], c) == [];
    assert forall i | 0 <= i < |keys| :: keys[i] in keys;
  }

  method BuildAssociations(job: Job, fetched: seq<Fetched>) returns (keys: seq<string>, groups: map<string, seq<Fetched>>)
    ensures Grouped(job, fetched, keys, groups)
  {
    keys, groups := [], map[];
    assert Grouped(job, fetched[..0], keys, groups);
    hide Grouped;
    for n := 0 to |fetched|
      invariant Grouped(job, fetched[..n], keys, groups)
    {
      var f := fetched[n];
      var c := job.lib.casefold(f.address);
      if c in groups {
        GroupedOld(job, fetched, n, keys, groups);
        groups := groups[c := groups[c] + [f]];
      } else {
        GroupedNew(job, fetched, n, keys, groups);
        keys := keys + [c];
        groups := groups[c := [f]];
      }
    }
    assert fetched[..|fetched|] == fetched;
  }

  lemma GroupStep(job: Job, fetched: seq<Fetched>, n: nat)
    requires n < |fetched|
    ensures forall c :: Group(job, fetched[..n + 1], c) ==
                        Group(job, fetched[..n], c) + if job.lib.casefold(fetched[n].address) == c then [fetched[n]] else []
  {
    assert fetched[..n + 1][..n] == fetched[..n];
  }

  predicate EmailedBefore(events: seq<Event>, start: nat, i: nat, f: Fetched) {
    exists k | start <= k < i <= |events| :: events[k] == Emailed(f.address, f.mxid)
  }

  /** The event at position i is one that the treatment of the group calls for: a mail that went out to the
      user of a duplicate who is not the survivor's user; the deletion of a duplicate, whose user, if not the
      survivor's, was emailed before; or the folding of the survivor. */
  predicate Justified(job: Job, c: string, g: seq<Fetched>, events: seq<Event>, start: nat, i: nat)
    requires i < |events|
  {
    && g != []
    && match events[i]
       case Emailed(a, mxid) =>
         exists j | 0 < j < |g| :: g[j] == Fetched(a, mxid) && mxid != g[0].mxid && Delivered(job, a)
       case Deleted(a) =>
         exists j | 0 < j < |g| ::
           g[j].address == a && (job.sendEmail && g[j].mxid != g[0].mxid ==> EmailedBefore(events, start, i, g[j]))
       case Updated(f, to_, h) => f == g[0] && to_ == c && h == Hash(job, c)
  }

  predicate AllJustified(job: Job, c: string, g: seq<Fetched>, events: seq<Event>, start: nat) {
    forall i | start <= i < |events| :: Justified(job, c, g, events, start, i)
  }

  /** Whether an event is justified depends on the events up to it. */
  lemma JustifiedKept(job: Job, c: string, g: seq<Fetched>, events: seq<Event>, more: seq<Event>, start: nat, earlier: nat, i: nat)
    requires events <= more && earlier <= start && i < |events| && Justified(job, c, g, events, start, i)
    ensures Justified(job, c, g, more, earlier, i)
  {
    hide Delivered;
    assert events[i] == more[i];
    forall f | EmailedBefore(events, start, i, f)
      ensures EmailedBefore(more, earlier, i, f)
    {
      var k :| start <= k < i && events[k] == Emailed(f.address, f.mxid);
      assert more[k] == events[k];
    }
  }

  lemma JustifiedNext(job: Job, c: string, g: seq<Fetched>, events: seq<Event>, start: nat, e: Event)
    requires AllJustified(job, c, g, events, start) && Justified(job, c, g, events + [e], start, |events|)
    ensures AllJustified(job, c, g, events + [e], start)
  {
    hide Justified;
    forall i | start <= i < |events|
      ensures Justified(job, c, g, events + [e], start, i)
    {
      JustifiedKept(job, c, g, events, events + [e], start, start, i);
    }
  }

  lemma EmailJustified(job: Job, c: string, g: seq<Fetched>, events: seq<Event>, start: nat, n: nat)
    requires AllJustified(job, c, g, events, start) && start <= |events| && 0 < n < |g|
    requires g[n].mxid != g[0].mxid && Delivered(job, g[n].address)
    ensures AllJustified(job, c, g, events + [Emailed(g[n].address, g[n].mxid)], start)
    ensures EmailedBefore(events + [Emailed(g[n].address, g[n].mxid)], start, |events| + 1, g[n])
  {
    hide AllJustified, Delivered;
    var e := Emailed(g[n].address, g[n].mxid);
    assert (events + [e])[|events|] == e && g[n] == Fetched(e.address, e.mxid);
    JustifiedNext(job, c, g, events, start, e);
  }

  lemma DeleteJustified(job: Job, c: string, g: seq<Fetched>, events: seq<Event>, start: nat, n: nat)
    requires AllJustified(job, c, g, events, start) && start <= |events| && 0 < n < |g|
    requires job.sendEmail && g[n].mxid != g[0].mxid ==> EmailedBefore(events, start, |events|, g[n])
    ensures AllJustified(job, c, g, events + [Deleted(g[n].address)], start)
  {
    hide AllJustified;
    var e := Deleted(g[n].address);
    assert (events + [e])[|events|] == e;
    if EmailedBefore(events, start, |events|, g[n]) {
      var k :| start <= k < |events| && events[k] == Emailed(g[n].address, g[n].mxid);
      assert (events + [e])[k] == events[k];
    }
    JustifiedNext(job, c, g, events, start, e);
  }

  lemma UpdateJustified(job: Job, c: string, g: seq<Fetched>, events: seq<Event>, start: nat)
    requires AllJustified(job, c, g, events, start) && g != []
    ensures AllJustified(job, c, g, events + [Updated(g[0], c, Hash(job, c))], start)
  {
    hide AllJustified;
    var e := Updated(g[0], c, Hash(job, c));
    assert (events + [e])[|events|] == e;
    JustifiedNext(job, c, g, events, start, e);
  }

  ghost predicate SomeGroupJustifies(job: Job, fetched: seq<Fetched>, events: seq<Event>, start: nat, i: nat)
    requires i < |events|
  {
    exists c :: Justified(job, c, Group(job, fetched, c), events, start, i)
  }

  /** Every event since `start` belongs to the treatment of some group. */
  ghost predicate WhollyJustified(job: Job, fetched: seq<Fetched>, events: seq<Event>, start: nat) {
    forall i | start <= i < |events| :: SomeGroupJustifies(job, fetched, events, start, i)
  }

  lemma GroupJustified(job: Job, fetched: seq<Fetched>, c: string, before: seq<Event>, events: seq<Event>, start: nat)
    requires WhollyJustified(job, fetched, before, start) && start <= |before| && before <= events
    requires AllJustified(job, c, Group(job, fetched, c), events, |before|)
    ensures WhollyJustified(job, fetched, events, start)
  {
    hide Justified, Group;
    forall i | start <= i < |events|
      ensures SomeGroupJustifies(job, fetched, events, start, i)
    {
      if i < |before| {
        assert SomeGroupJustifies(job, fetched, before, start, i);
        var d :| Justified(job, d, Group(job, fetched, d), before, start, i);
        JustifiedKept(job, d, Group(job, fetched, d), before, events, start, start, i);
      } else {
        JustifiedKept(job, c, Group(job, fetched, c), events, events, |before|, start, i);
      }
    }
  }

  /** First the mail, then the deletion. */
  predicate EmailedThenDeleted(events: seq<Event>, start: nat, i: nat, f: Fetched) {
    start <= i < |events| && events[i] == Deleted(f.address) && EmailedBefore(events, start, i, f)
  }

  /** A row that is no longer there was deleted or renamed by some event. */
  lemma {:induction false} RemovingEvent(t: Table, events: seq<Event>, start: nat, a: string) returns (i: nat)
    requires start <= |events| && a in After(t, events[..start]) && a !in After(t, events)
    ensures start <= i < |events|
    ensures events[i] == Deleted(a) || (events[i].Updated? && events[i].row.address == a)
  {
    var n := |events|;
    assert events[..n] == events;
    var front := events[..n - 1];
    if a in After(t, front) {
      i := n - 1;
    } else {
      assert front[..start] == events[..start];
      i := RemovingEvent(t, front, start, a);
    }
  }

  /** When mails are sent, every row that is gone although its user is not the survivor's user was deleted
      after that user had been emailed. */
  lemma NobodyVanishesUnwarned(job: Job, t: Table, fetched: seq<Fetched>, events: seq<Event>, start: nat, f: Fetched)
    requires WhollyJustified(job, fetched, events, start) && start <= |events| && Distinct(fetched) && f in fetched
    requires f.address in After(t, events[..start]) && f.address !in After(t, events)
    requires job.sendEmail && f.mxid != Group(job, fetched, job.lib.casefold(f.address))[0].mxid
    ensures exists i :: EmailedThenDeleted(events, start, i, f)
  {
    hide After, Group, Delivered, Distinct;
    var i := RemovingEvent(t, events, start, f.address);
    assert SomeGroupJustifies(job, fetched, events, start, i);
    var c :| Justified(job, c, Group(job, fetched, c), events, start, i);
    var g := Group(job, fetched, c);
    match events[i] {
      case Deleted(a) =>
        var j :| 0 < j < |g| && g[j].address == a
                 && (job.sendEmail && g[j].mxid != g[0].mxid ==> EmailedBefore(events, start, i, g[j]));
        assert g[j] in g;
        SameAddressSameRow(fetched, g[j], f);
        assert EmailedThenDeleted(events, start, i, f);
      case Updated(row, _, _) =>
        assert g[0] in g;
        SameAddressSameRow(fetched, row, f);
        assert false;
      case Emailed(_, _) =>
        assert false;
    }
  }

  lemma SameAddressSameRow(fetched: seq<Fetched>, a: Fetched, b: Fetched)
    requires Distinct(fetched) && a in fetched && b in fetched && a.address == b.address
    ensures a == b
  {
    var i :| 0 <= i < |fetched| && fetched[i] == a;
    var j :| 0 <= j < |fetched| && fetched[j] == b;
  }

  lemma DropOneMore(t: Table, g: seq<Fetched>, n: nat)
    requires 1 <= n < |g|
    ensures Drop(t, g[1..n]) - {g[n].address} == Drop(t, g[1..n + 1])
  {
    assert g[1..n + 1] == g[1..n] + [g[n]];
    assert Addresses(g[1..n + 1]) == Addresses(g[1..n]) + {g[n].address};
  }

  /** When no row is blocked, nothing is left under the folded address but possibly the survivor itself. */
  lemma ApplyGroupDone(job: Job, t: Table, c: string, g: seq<Fetched>)
    requires GroupOf(job, c, g) && g != [] && Distinct(g) && FirstBlocked(job, g, 1) == |g| && g[0].address in t
    requires forall a | a in t && job.lib.casefold(a) == c :: exists f | f in g :: f.address == a
    ensures ApplyGroup(job, t, c, g) == Rename(Drop(t, g[1..]), g[0], c, Hash(job, c))
    ensures c == g[0].address || c !in Drop(t, g[1..])
  {
    hide Drop, Rename, FirstBlocked;
    assert g[1..|g|] == g[1..];
    assert g[0] in g;
    DropLeavesSurvivor(job, t, c, g);
  }

  /** Applies one group's changes: mails and deletes the duplicates in turn, then folds the survivor; a mail
      that cannot be sent ends the group. The unique index is never violated, and the table's history shows
      for every deletion the mail before it. */
  method ApplyDelta(job: Job, db: LocalTable, c: string, g: seq<Fetched>) returns (indexOk: bool)
    requires db.Valid() && GroupOf(job, c, g) && g != [] && Distinct(g)
    requires forall a | a in db.rows && job.lib.casefold(a) == c :: exists f | f in g :: f.address == a
    requires forall f | f in g :: f.address in db.rows
    modifies db
    ensures db.Valid() && indexOk
    ensures db.rows == ApplyGroup(job, old(db.rows), c, g)
    ensures old(db.events) <= db.events && AllJustified(job, c, g, db.events, |old(db.events)|)
  {
    hide Drop, Rename, AllJustified, EmailedBefore, Delivered, Distinct, After;
    indexOk := true;
    ghost var t, start := db.rows, |db.events|;
    NothingDropped(t, g);
    NoEvents(job, c, g, db.events);
    for n := 1 to |g|
      invariant db.Valid() && old(db.events) <= db.events
      invariant db.rows == Drop(t, g[1..n])
      invariant AllJustified(job, c, g, db.events, start)
      invariant FirstBlocked(job, g, 1) == FirstBlocked(job, g, n)
    {
      var f := g[n];
      if job.sendEmail && f.mxid != g[0].mxid {
        ghost var before := db.events;
        var sent := db.Email(job, f);
        if !sent {
          return;
        }
        EmailJustified(job, c, g, before, start, n);
      }
      DeleteJustified(job, c, g, db.events, start, n);
      DropOneMore(t, g, n);
      db.Delete(f.address);
    }
    assert g[1..|g|] == g[1..] && g[0] in g;
    ApplyGroupDone(job, t, c, g);
    UpdateJustified(job, c, g, db.events, start);
    indexOk := db.Update(g[0], c, Hash(job, c));
  }

  lemma NoEvents(job: Job, c: string, g: seq<Fetched>, events: seq<Event>)
    ensures AllJustified(job, c, g, events, |events|)
  {
  }

  lemma NothingDropped(t: Table, g: seq<Fetched>)
    requires g != []
    ensures Drop(t, g[1..1]) == t
  {
  }

  /** Groups in `done` have their outcome, the others are as they were. */
  ghost predicate Progress(job: Job, t: Table, rows: Table, fetched: seq<Fetched>, done: seq<string>) {
    forall c :: SameOn(job, rows, Target(job, t, fetched, done, c), c)
  }

  function Target(job: Job, t: Table, fetched: seq<Fetched>, done: seq<string>, c: string): Table {
    if c in done then GroupOutcome(job, t, fetched, c) else t
  }

  lemma SameOnTransitive(job: Job, a: Table, b: Table, d: Table, c: string)
    requires SameOn(job, a, b, c) && SameOn(job, b, d, c)
    ensures SameOn(job, a, d, c)
  {
  }

  lemma ProgressStep(job: Job, t: Table, rows: Table, fetched: seq<Fetched>, keys: seq<string>, n: nat)
    requires n < |keys| && forall i, j | 0 <= i < j < |keys| :: keys[i] != keys[j]
    requires Progress(job, t, rows, fetched, keys[..n]) && GroupOf(job, keys[n], Group(job, fetched, keys[n]))
    ensures SameOn(job, rows, t, keys[n])
    ensures var g := Group(job, fetched, keys[n]);
            Progress(job, t, if NeedsDelta(keys[n], g) then ApplyGroup(job, rows, keys[n], g) else rows, fetched, keys[..n + 1])
  {
    hide SameOn, ApplyGroup, Group, GroupOf;
    var c, g := keys[n], Group(job, fetched, keys[n]);
    assert keys[..n + 1] == keys[..n] + [c];
    assert c !in keys[..n];
    assert SameOn(job, rows, Target(job, t, fetched, keys[..n], c), c);
    ApplyGroupLocal(job, rows, t, c, g);
    var rows' := if NeedsDelta(c, g) then ApplyGroup(job, rows, c, g) else rows;
    var done := keys[..n + 1];
    forall d
      ensures SameOn(job, rows', Target(job, t, fetched, done, d), d)
    {
      var target := Target(job, t, fetched, keys[..n], d);
      assert SameOn(job, rows, target, d);
      if d != c && NeedsDelta(c, g) { SameOnTransitive(job, rows', rows, target, d); }
    }
  }

  /** When mails are sent, the user of every fetched row that is gone, unless it is also the user of the group's
      most recent row, was emailed before the row was deleted. */
  ghost predicate EveryoneWarned(job: Job, fetched: seq<Fetched>, rows: Table, events: seq<Event>, start: nat) {
    job.sendEmail ==>
      forall f | f in fetched && f.address !in rows && f.mxid != Group(job, fetched, job.lib.casefold(f.address))[0].mxid ::
        exists i :: EmailedThenDeleted(events, start, i, f)
  }

  /** How a group ends, in terms of the rows it had and of the mail server's answers: with all mails delivered, as
      one row, which is a most recent one, folded and rehashed if it is a binding (and not a lone folded row
      already); otherwise stopped at the first duplicate that cannot be warned, with its survivor unchanged. */
  ghost predicate EndsRight(job: Job, before: Table, after: Table, c: string, g: seq<Fetched>) {
    g != [] ==>
      && (forall f | f in g :: f.address in before && g[0].address in before && before[f.address].ts <= before[g[0].address].ts)
      && (MailsArrive(job, g) && g[0].mxid.Some? && g[0].address in before ==>
            var row := before[g[0].address];
            var hash := if |g| == 1 && g[0].address == c then row.lookupHash
                        else Some(job.lib.hash(c + " " + "email" + " " + job.pepper));
            forall a | job.lib.casefold(a) == c :: (a in after <==> a == c) && (a in after ==> after[a] == row.(lookupHash := hash)))
      && (MailsArrive(job, g) && g[0].mxid.None? && g[0].address in before ==>
            forall a | job.lib.casefold(a) == c ::
              (a in after <==> a == g[0].address) && (a in after ==> after[a] == before[g[0].address]))
      && (!MailsArrive(job, g) ==>
            exists j | 0 < j < |g| :: Stops(job, g, j)
              && (forall i | i == 0 || j <= i < |g| ::
                    g[i].address in before && g[i].address in after && after[g[i].address] == before[g[i].address])
              && (forall i | 0 < i < j :: g[i].address !in after))
  }

  lemma OutcomeEndsRight(job: Job, t: Table, rows: Table, fetched: seq<Fetched>, c: string)
    requires ValidLibrary(job.lib) && IsFetched(fetched, t) && SameOn(job, rows, GroupOutcome(job, t, fetched, c), c)
    ensures EndsRight(job, t, rows, c, Group(job, fetched, c))
  {
    hide Group, IsFetched, MailsArrive, Stops, GroupOutcome, Distinct;
    var g := Group(job, fetched, c);
    if g != [] {
      KeyIsFolded(job, fetched, c);
      SurvivorIsNewest(job, fetched, t, c);
      assert g[0] in g;
      if !MailsArrive(job, g) {
        BlockedGroupKeepsSurvivor(job, t, fetched, c);
        assert forall i | 0 <= i < |g| :: g[i] in g;
      } else if NeedsDelta(c, g) {
        DoneGroupOutcome(job, t, fetched, c);
      } else {
        LoneRow(job, t, fetched, c);
      }
    }
  }

  /** A lone folded row is the only one of its group, and nothing happens to it. */
  lemma LoneRow(job: Job, t: Table, fetched: seq<Fetched>, c: string)
    requires IsFetched(fetched, t) && !NeedsDelta(c, Group(job, fetched, c))
    ensures GroupOutcome(job, t, fetched, c) == t
    ensures forall a | a in t && job.lib.casefold(a) == c :: a == c
  {
    hide Group, IsFetched;
    GroupIsComplete(job, fetched, t, c);
  }

  /** The whole run over the local table. Every group ends as its own outcome says, the unique index is never
      violated, every event of the table's history is justified, no row whose user is not the survivor's goes
      without a mail before its deletion, and a dry run does nothing. */
  method UpdateLocalAssociations(job: Job, db: LocalTable, fetched: seq<Fetched>, dryRun: bool) returns (indexOk: bool)
    requires db.Valid() && ValidLibrary(job.lib) && IsFetched(fetched, db.rows)
    modifies db
    ensures db.Valid() && indexOk && old(db.events) <= db.events
    ensures dryRun ==> db.rows == old(db.rows) && db.events == old(db.events)
    ensures !dryRun ==> forall c :: SameOn(job, db.rows, GroupOutcome(job, old(db.rows), fetched, c), c)
    ensures !dryRun ==> forall c :: EndsRight(job, old(db.rows), db.rows, c, Group(job, fetched, c))
    ensures WhollyJustified(job, fetched, db.events, |old(db.events)|)
    ensures EveryoneWarned(job, fetched, db.rows, db.events, |old(db.events)|)
  {
    var keys, groups := BuildAssociations(job, fetched);
    ghost var t, start := db.rows, |db.events|;
    indexOk := true;
    NothingDone(job, fetched, db.rows, db.events);
    if dryRun {
      return;
    }
    hide EveryoneWarned, EndsRight, SameOn, ApplyGroup, Group, GroupOf, Justified, AllJustified, WhollyJustified, IsFetched, GroupOutcome, After, EmailedThenDeleted;
    NoProgress(job, t, fetched);
    for n := 0 to |keys|
      invariant indexOk && db.Valid() && old(db.events) <= db.events
      invariant Progress(job, t, db.rows, fetched, keys[..n])
      invariant WhollyJustified(job, fetched, db.events, start)
    {
      var c := keys[n];
      assert c in keys;
      var g := groups[c];
      KeyIsFolded(job, fetched, c);
      ProgressStep(job, t, db.rows, fetched, keys, n);
      if NeedsDelta(c, g) {
        GroupPrecondition(job, t, db.rows, fetched, c);
        ghost var before := db.events;
        var ok := ApplyDelta(job, db, c, g);
        GroupJustified(job, fetched, c, before, db.events, start);
        indexOk := indexOk && ok;
      }
    }
    assert keys[..|keys|] == keys;
    forall c
      ensures SameOn(job, db.rows, GroupOutcome(job, t, fetched, c), c)
    {
      assert SameOn(job, db.rows, Target(job, t, fetched, keys, c), c);
      if c !in keys { EmptyGroup(job, t, fetched, c); }
    }
    forall c ensures EndsRight(job, t, db.rows, c, Group(job, fetched, c)) { OutcomeEndsRight(job, t, db.rows, fetched, c); }
    assert db.events[..start] == old(db.events);
    WarnedThroughout(job, t, db.rows, fetched, db.initial, db.events, start);
  }

  lemma WarnedThroughout(job: Job, t: Table, rows: Table, fetched: seq<Fetched>, initial: Table, events: seq<Event>, start: nat)
    requires IsFetched(fetched, t) && WhollyJustified(job, fetched, events, start) && start <= |events|
    requires t == After(initial, events[..start]) && rows == After(initial, events)
    ensures EveryoneWarned(job, fetched, rows, events, start)
  {
    FetchedPresent(fetched, t);
    hide After, Group, WhollyJustified, EmailedThenDeleted;
    if job.sendEmail {
      forall f | f in fetched && f.address !in rows && f.mxid != Group(job, fetched, job.lib.casefold(f.address))[0].mxid
        ensures exists i :: EmailedThenDeleted(events, start, i, f)
      {
        NobodyVanishesUnwarned(job, initial, fetched, events, start, f);
      }
    }
  }

  lemma FetchedPresent(fetched: seq<Fetched>, t: Table)
    requires IsFetched(fetched, t)
    ensures forall f | f in fetched :: f.address in t
  {
  }

  lemma NothingDone(job: Job, fetched: seq<Fetched>, t: Table, events: seq<Event>)
    requires IsFetched(fetched, t)
    ensures WhollyJustified(job, fetched, events, |events|) && EveryoneWarned(job, fetched, t, events, |events|)
  {
    FetchedPresent(fetched, t);
  }

  lemma NoProgress(job: Job, t: Table, fetched: seq<Fetched>)
    ensures Progress(job, t, t, fetched, [])
  {
  }

  lemma EmptyGroup(job: Job, t: Table, fetched: seq<Fetched>, c: string)
    requires Group(job, fetched, c) == []
    ensures GroupOutcome(job, t, fetched, c) == t
  {
  }

  lemma KeyIsFolded(job: Job, fetched: seq<Fetched>, c: string)
    requires ValidLibrary(job.lib) && Group(job, fetched, c) != []
    ensures GroupOf(job, c, Group(job, fetched, c))
  {
    hide Group;
    var f := Group(job, fetched, c)[0];
    assert f in Group(job, fetched, c);
    assert job.lib.casefold(job.lib.casefold(f.address)) == job.lib.casefold(f.address);
  }

  lemma GroupPrecondition(job: Job, t: Table, now: Table, fetched: seq<Fetched>, c: string)
    requires ValidLibrary(job.lib) && IsFetched(fetched, t) && SameOn(job, now, t, c) && Group(job, fetched, c) != []
    ensures var g := Group(job, fetched, c);
            && GroupOf(job, c, g) && Distinct(g)
            && (forall a | a in now && job.lib.casefold(a) == c :: exists f | f in g :: f.address == a)
            && (forall f | f in g :: f.address in now)
  {
    hide Group, IsFetched;
    var g := Group(job, fetched, c);
    GroupIsComplete(job, fetched, t, c);
    assert g[0] in g;
    assert job.lib.casefold(job.lib.casefold(g[0].address)) == job.lib.casefold(g[0].address);
  }
}

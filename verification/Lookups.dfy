/** The bulk lookup and the hashed lookup, compared with the single newest-row lookup. */
module Lookups {
  import opened Common
  import opened Associations
  import opened Text

  predicate ValidAt(r: GlobalRow, now: int) {
    r.notBefore < now < r.notAfter
  }

  /** Batches of 500 go into the temporary table until every request is in it. */
  method FillTemporaryTable<T>(requests: seq<T>) returns (table: seq<T>)
    ensures table == requests
  {
    table := [];
    var inserted := 0;
    while inserted < |requests|
      invariant 0 <= inserted
      invariant table == if inserted <= |requests| then requests[..inserted] else requests
    {
      var upTo := if inserted + 500 <= |requests| then inserted + 500 else |requests|;
      table := table + requests[inserted..upTo];
      inserted := inserted + 500;
    }
  }

  // ----------------------------------------------------------- bulk lookup

  predicate Matches(r: GlobalRow, q: Threepid) {
    r.tp.medium == q.medium && Lower(r.tp.address) == Lower(q.address)
  }

  predicate Requested(requests: seq<Threepid>, r: GlobalRow) {
    exists q | q in requests :: Matches(r, q)
  }

  /** ORDER BY medium, address, ts DESC keeps the rows of one identifier together, newest first.
      A row occurs once per request it matches. */
  ghost predicate IsJoin(fetched: seq<GlobalRow>, t: set<GlobalRow>, requests: seq<Threepid>, now: int) {
    && (forall r :: r in fetched <==> r in t && ValidAt(r, now) && Requested(requests, r))
    && (forall i, j, k | 0 <= i < j < k < |fetched| && fetched[i].tp == fetched[k].tp :: fetched[j].tp == fetched[i].tp)
    && (forall i, j | 0 <= i < j < |fetched| && fetched[i].tp == fetched[j].tp :: fetched[i].ts >= fetched[j].ts)
  }

  datatype Match = Match(tp: Threepid, mxid: string)

  predicate Newest(t: set<GlobalRow>, now: int, r: GlobalRow) {
    && r in t && ValidAt(r, now)
    && forall x | x in t && ValidAt(x, now) && x.tp == r.tp :: x.ts <= r.ts
  }

  /** One match per stored identifier that was asked for and has a valid row, with a newest row's mxid. */
  ghost predicate BulkAnswer(results: seq<Match>, t: set<GlobalRow>, requests: seq<Threepid>, now: int) {
    && (forall i, j | 0 <= i < j < |results| :: results[i].tp != results[j].tp)
    && (forall m | m in results :: exists r :: Newest(t, now, r) && r.tp == m.tp && r.mxid == m.mxid && Requested(requests, r))
    && (forall r | r in t && ValidAt(r, now) && Requested(requests, r) :: exists m | m in results :: m.tp == r.tp)
  }

  /** The match was taken from the first row of its identifier among the first n. */
  predicate Picked(fetched: seq<GlobalRow>, n: nat, m: Match) {
    exists k | 0 <= k < n <= |fetched| :: FirstOfItsKind(fetched, k) && m == Match(fetched[k].tp, fetched[k].mxid)
  }

  predicate Lists(results: seq<Match>, tp: Threepid) {
    exists m | m in results :: m.tp == tp
  }

  /** The first n rows gave these matches: one for each identifier among them, from its first row. */
  ghost predicate Collected(fetched: seq<GlobalRow>, n: nat, results: seq<Match>) {
    && n <= |fetched|
    && (forall i, j | 0 <= i < j < |results| :: results[i].tp != results[j].tp)
    && (forall m | m in results :: Picked(fetched, n, m))
    && (forall k | 0 <= k < n :: Lists(results, fetched[k].tp))
  }

  method GetMxids(t: set<GlobalRow>, requests: seq<Threepid>, now: int, fetched: seq<GlobalRow>) returns (results: seq<Match>)
    requires IsJoin(fetched, t, requests, now)
    ensures BulkAnswer(results, t, requests, now)
    ensures forall r | r in t :: Lists(results, r.tp) <==> SomeValidVariant(t, requests, now, r.tp)
  {
    var asked := FillTemporaryTable(requests);
    assert IsJoin(fetched, t, asked, now);
    assert Collected(fetched, 0, []);
    hide IsJoin, BulkAnswer, Collected, FirstOfItsKind;
    results := [];
    var current: Option<Threepid> := None;
    for n := 0 to |fetched|
      invariant current == if n == 0 then None else Some(fetched[n - 1].tp)
      invariant Collected(fetched, n, results)
    {
      var row := fetched[n];
      if Some(row.tp) != current {
        NewGroup(t, requests, now, fetched, n);
        CollectNew(fetched, n, results);
        current := Some(row.tp);
        results := results + [Match(row.tp, row.mxid)];
      } else {
        CollectSame(fetched, n, results);
      }
    }
    BulkFromPicked(t, requests, now, fetched, results);
    forall r | r in t ensures Lists(results, r.tp) <==> SomeValidVariant(t, requests, now, r.tp) {
      ListedIff(results, t, requests, now, r.tp);
    }
  }

  /** The identifier has a valid row, and a request has its medium and, up to the case of ASCII letters, its address. */
  ghost predicate SomeValidVariant(t: set<GlobalRow>, requests: seq<Threepid>, now: int, tp: Threepid) {
    && (exists r | r in t :: r.tp == tp && r.notBefore < now && now < r.notAfter)
    && (exists q | q in requests :: q.medium == tp.medium && CaseVariant(tp.address, q.address))
  }

  lemma RequestedIff(requests: seq<Threepid>, r: GlobalRow)
    ensures Requested(requests, r) <==> exists q | q in requests :: q.medium == r.tp.medium && CaseVariant(r.tp.address, q.address)
  {
    hide Lower, CaseVariant;
    forall q: Threepid
      ensures Matches(r, q) <==> q.medium == r.tp.medium && CaseVariant(r.tp.address, q.address)
    {
      LowerEqualIff(r.tp.address, q.address);
    }
    assert Requested(requests, r) <==> exists q | q in requests :: Matches(r, q);
  }

  lemma ListedIff(results: seq<Match>, t: set<GlobalRow>, requests: seq<Threepid>, now: int, tp: Threepid)
    requires BulkAnswer(results, t, requests, now)
    ensures Lists(results, tp) <==> SomeValidVariant(t, requests, now, tp)
  {
    hide Requested, CaseVariant;
    forall r: GlobalRow
      ensures Requested(requests, r) <==> exists q | q in requests :: q.medium == r.tp.medium && CaseVariant(r.tp.address, q.address)
    {
      RequestedIff(requests, r);
    }
    if SomeValidVariant(t, requests, now, tp) {
      var r :| r in t && r.tp == tp && r.notBefore < now && now < r.notAfter;
      assert ValidAt(r, now) && Requested(requests, r);
    }
  }

  lemma CollectNew(fetched: seq<GlobalRow>, n: nat, results: seq<Match>)
    requires Collected(fetched, n, results) && FirstOfItsKind(fetched, n)
    ensures Collected(fetched, n + 1, results + [Match(fetched[n].tp, fetched[n].mxid)])
  {
    var m := Match(fetched[n].tp, fetched[n].mxid);
    assert m in results + [m];
    forall tp | Lists(results, tp)
      ensures Lists(results + [m], tp)
    {
      var x :| x in results && x.tp == tp;
      assert x in results + [m];
    }
    assert forall x | x in results :: Picked(fetched, n, x) && x.tp != m.tp;
  }

  lemma CollectSame(fetched: seq<GlobalRow>, n: nat, results: seq<Match>)
    requires Collected(fetched, n, results) && 0 < n < |fetched| && fetched[n - 1].tp == fetched[n].tp
    ensures Collected(fetched, n + 1, results)
  {
    assert Lists(results, fetched[n - 1].tp);
  }

  lemma BulkFromPicked(t: set<GlobalRow>, requests: seq<Threepid>, now: int, fetched: seq<GlobalRow>, results: seq<Match>)
    requires IsJoin(fetched, t, requests, now) && Collected(fetched, |fetched|, results)
    ensures BulkAnswer(results, t, requests, now)
  {
    hide Requested;
    forall m | m in results
      ensures exists r :: Newest(t, now, r) && r.tp == m.tp && r.mxid == m.mxid && Requested(requests, r)
    {
      var k :| 0 <= k < |fetched| && FirstOfItsKind(fetched, k) && m == Match(fetched[k].tp, fetched[k].mxid);
      FirstIsNewest(t, requests, now, fetched, k);
    }
    forall r | r in t && ValidAt(r, now) && Requested(requests, r)
      ensures Lists(results, r.tp)
    {
      var k :| 0 <= k < |fetched| && fetched[k] == r;
    }
  }

  predicate FirstOfItsKind(fetched: seq<GlobalRow>, k: nat) {
    k < |fetched| && forall i | 0 <= i < k :: fetched[i].tp != fetched[k].tp
  }

  lemma NewGroup(t: set<GlobalRow>, requests: seq<Threepid>, now: int, fetched: seq<GlobalRow>, n: nat)
    requires IsJoin(fetched, t, requests, now) && n < |fetched| && (n > 0 ==> fetched[n - 1].tp != fetched[n].tp)
    ensures FirstOfItsKind(fetched, n)
  {
    hide Requested;
  }

  lemma FirstIsNewest(t: set<GlobalRow>, requests: seq<Threepid>, now: int, fetched: seq<GlobalRow>, k: nat)
    requires IsJoin(fetched, t, requests, now) && FirstOfItsKind(fetched, k)
    ensures Newest(t, now, fetched[k]) && Requested(requests, fetched[k])
  {
    var r := fetched[k];
    assert r in fetched;
    var q :| q in requests && Matches(r, q);
    forall x | x in t && ValidAt(x, now) && x.tp == r.tp
      ensures x.ts <= r.ts
    {
      assert Matches(x, q);
      var i :| 0 <= i < |fetched| && fetched[i] == x;
    }
  }

  /** With lower-cased stored addresses, the rows a request sees are those of one stored identifier. */
  lemma SeenRows(t: set<GlobalRow>, requests: seq<Threepid>, now: int, q: Threepid, r: GlobalRow)
    requires q in requests && r in t && Lower(r.tp.address) == r.tp.address
    ensures ValidFor(r, q.medium, q.address, now) <==> ValidAt(r, now) && r.tp == Threepid(q.medium, Lower(q.address))
    ensures r.tp == Threepid(q.medium, Lower(q.address)) ==> Requested(requests, r)
  {
    LowerIdempotent(q.address);
    assert r.tp == Threepid(q.medium, Lower(q.address)) ==> Matches(r, q);
  }

  /** A request all of whose rows are those of one stored identifier, with a single newest one, has one answer. */
  lemma NewestAnswers(t: set<GlobalRow>, q: Threepid, now: int, stored: Threepid, x: GlobalRow)
    requires forall r | r in t :: ValidFor(r, q.medium, q.address, now) <==> ValidAt(r, now) && r.tp == stored
    requires forall r, y | r in t && y in t && r.tp == y.tp && r.ts == y.ts :: r == y
    requires Newest(t, now, x) && x.tp == stored
    ensures forall answer :: Answers(t, q.medium, q.address, now, answer) <==> answer == Some(x.mxid)
  {
    hide ValidFor, ValidAt;
    assert ValidFor(x, q.medium, q.address, now);
    assert forall r | r in t && ValidFor(r, q.medium, q.address, now) && r.ts >= x.ts :: r == x;
  }

  /** With lower-cased stored addresses and distinct timestamps the bulk lookup gives, for every request,
      what the single lookup gives. */
  lemma BulkIsPointwiseSingle(results: seq<Match>, t: set<GlobalRow>, requests: seq<Threepid>, now: int,
                              q: Threepid, answer: Option<string>)
    requires BulkAnswer(results, t, requests, now) && q in requests
    requires forall r | r in t :: Lower(r.tp.address) == r.tp.address
    requires forall r, x | r in t && x in t && r.tp == x.tp && r.ts == x.ts :: r == x
    ensures Answers(t, q.medium, q.address, now, answer) <==> answer == BulkLookup(results, Threepid(q.medium, Lower(q.address)))
  {
    hide Lower, Requested, Newest, ValidFor, ValidAt;
    var stored := Threepid(q.medium, Lower(q.address));
    forall r | r in t
      ensures ValidFor(r, q.medium, q.address, now) <==> ValidAt(r, now) && r.tp == stored
      ensures r.tp == stored ==> Requested(requests, r)
    {
      SeenRows(t, requests, now, q, r);
    }
    if m :| m in results && m.tp == stored {
      var x :| Newest(t, now, x) && x.tp == m.tp && x.mxid == m.mxid;
      BulkLookupFinds(results, m);
      NewestAnswers(t, q, now, stored, x);
    }
  }

  /** What a list of matches says about an identifier. */
  function BulkLookup(results: seq<Match>, tp: Threepid): (mxid: Option<string>)
    ensures mxid.None? <==> forall m | m in results :: m.tp != tp
    ensures mxid.Some? ==> Match(tp, mxid.value) in results
  {
    if results == [] then None
    else if results[0].tp == tp then Some(results[0].mxid)
    else BulkLookup(results[1..], tp)
  }

  lemma BulkLookupFinds(results: seq<Match>, m: Match)
    requires m in results && forall i, j | 0 <= i < j < |results| :: results[i].tp != results[j].tp
    ensures BulkLookup(results, m.tp) == Some(m.mxid)
  {
    var found := BulkLookup(results, m.tp);
    var i :| 0 <= i < |results| && results[i] == m;
    var j :| 0 <= j < |results| && results[j] == Match(m.tp, found.value);
  }

  // --------------------------------------------------------- hashed lookup

  /** ORDER BY lookup_hash, mxid, ts: among rows of one hash, by mxid first and only then by ts. */
  ghost predicate IsHashJoin(fetched: seq<GlobalRow>, t: set<GlobalRow>, hashes: seq<string>, now: int) {
    && (forall r :: r in fetched <==> r in t && ValidAt(r, now) && r.lookupHash in hashes)
    && (forall i, j | 0 <= i < j < |fetched| && fetched[i].lookupHash == fetched[j].lookupHash ::
          TextLe(fetched[i].mxid, fetched[j].mxid) && (fetched[i].mxid == fetched[j].mxid ==> fetched[i].ts <= fetched[j].ts))
  }

  /** Each hash with a valid row is mapped to the greatest mxid of its valid rows. */
  ghost predicate HashAnswer(results: map<string, string>, t: set<GlobalRow>, hashes: seq<string>, now: int) {
    && (forall h | h in results :: h in hashes && exists r | r in t :: ValidAt(r, now) && r.lookupHash == h && r.mxid == results[h])
    && (forall r | r in t && ValidAt(r, now) && r.lookupHash in hashes ::
          r.lookupHash in results && TextLe(r.mxid, results[r.lookupHash]))
  }

  method RetrieveMxidsForHashes(t: set<GlobalRow>, hashes: seq<string>, now: int, fetched: seq<GlobalRow>)
      returns (results: map<string, string>)
    requires IsHashJoin(fetched, t, hashes, now)
    ensures HashAnswer(results, t, hashes, now)
  {
    hide TextLe;
    var asked := FillTemporaryTable(hashes);
    assert IsHashJoin(fetched, t, asked, now);
    results := map[];
    for n := 0 to |fetched|
      invariant forall h | h in results :: exists k | 0 <= k < n :: fetched[k].lookupHash == h && fetched[k].mxid == results[h]
      invariant forall k | 0 <= k < n :: fetched[k].lookupHash in results && TextLe(fetched[k].mxid, results[fetched[k].lookupHash])
    {
      var row := fetched[n];
      TextLeReflexive(row.mxid);
      results := results[row.lookupHash := row.mxid];
    }
    forall h | h in results
      ensures h in hashes && exists r | r in t :: ValidAt(r, now) && r.lookupHash == h && r.mxid == results[h]
    {
      var k :| 0 <= k < |fetched| && fetched[k].lookupHash == h && fetched[k].mxid == results[h];
      assert fetched[k] in fetched;
    }
  }

  /** The rows filed under a hash are the rows of one identifier: no collisions, and the index is right. */
  ghost predicate HashNames(t: set<GlobalRow>, h: string, tp: Threepid) {
    forall r | r in t :: r.lookupHash == h <==> r.tp == tp
  }

  /** The hashed lookup gives the newest binding exactly when no valid row of the identifier has a greater
      mxid in text order than the newest one has. */
  lemma HashedIsNewestIff(results: map<string, string>, t: set<GlobalRow>, hashes: seq<string>, now: int,
                          h: string, newest: GlobalRow)
    requires HashAnswer(results, t, hashes, now) && h in hashes
    requires HashNames(t, h, newest.tp) && Newest(t, now, newest)
    ensures h in results
    ensures results[h] == newest.mxid <==>
            forall r | r in t && ValidAt(r, now) && r.tp == newest.tp :: TextLe(r.mxid, newest.mxid)
  {
    var r :| r in t && ValidAt(r, now) && r.lookupHash == h && r.mxid == results[h];
    if forall x | x in t && ValidAt(x, now) && x.tp == newest.tp :: TextLe(x.mxid, newest.mxid) {
      TextLeAntisymmetric(r.mxid, newest.mxid);
    }
  }

  /** In particular it agrees with the plain lookup when the identifier's valid rows name one user. */
  lemma HashedAgreesForOneUser(results: map<string, string>, t: set<GlobalRow>, hashes: seq<string>, now: int,
                               h: string, tp: Threepid)
    requires HashAnswer(results, t, hashes, now) && h in hashes && HashNames(t, h, tp)
    requires forall r | r in t :: Lower(r.tp.address) == r.tp.address
    requires Lower(tp.address) == tp.address
    requires forall r, x | r in t && x in t && ValidAt(r, now) && ValidAt(x, now) && r.tp == tp && x.tp == tp :: r.mxid == x.mxid
    ensures forall answer ::
              Answers(t, tp.medium, tp.address, now, answer) ==> answer == if h in results then Some(results[h]) else None
  {
    forall r | r in t
      ensures ValidFor(r, tp.medium, tp.address, now) <==> ValidAt(r, now) && r.tp == tp
    {
    }
  }

  const PHONE := Threepid("msisdn", "447700900000")

  /** The table after an identifier was bound to one user and then to another. */
  function Rebound(h: string, server: Server, first: string, at: int, second: string, later: int): set<GlobalRow> {
    var life := THREEPID_ASSOCIATION_LIFETIME_MS;
    {GlobalRow(PHONE, h, first, at, at, at + life, Origin(server, 1)),
     GlobalRow(PHONE, h, second, later, later, later + life, Origin(server, 2))}
  }

  /** Otherwise it can be stale: after rebinding from "@z" to "@a" the plain lookup says "@a", the hashed one "@z". */
  lemma HashedCanBeStale(results: map<string, string>, h: string, server: Server)
    requires HashAnswer(results, Rebound(h, server, "@z", 1, "@a", 2), [h], 3)
    ensures Answers(Rebound(h, server, "@z", 1, "@a", 2), PHONE.medium, PHONE.address, 3, Some("@a"))
    ensures !Answers(Rebound(h, server, "@z", 1, "@a", 2), PHONE.medium, PHONE.address, 3, Some("@z"))
    ensures results == map[h := "@z"]
  {
    var t, life := Rebound(h, server, "@z", 1, "@a", 2), THREEPID_ASSOCIATION_LIFETIME_MS;
    var z := GlobalRow(PHONE, h, "@z", 1, 1, 1 + life, Origin(server, 1));
    var a := GlobalRow(PHONE, h, "@a", 2, 2, 2 + life, Origin(server, 2));
    assert ValidFor(z, PHONE.medium, PHONE.address, 3) && ValidFor(a, PHONE.medium, PHONE.address, 3) && z in t && a in t;
    assert TextLe("@z", results[h]);
    assert "@z"[1..] == "z" && "@a"[1..] == "a";
    assert !TextLe("@z", "@a");
    assert results.Keys == {h};
  }
}
